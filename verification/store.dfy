// internal/store: the three tables and the statements issued against them.
//
// SQLite is taken at its word: a statement is atomic, UNIQUE and FOREIGN KEY
// are enforced, a rolled-back transaction leaves no trace. No row of `peers`
// is ever deleted, so AUTOINCREMENT numbers them 1, 2, 3, ...
module Store {
  import opened Text

  datatype Row = Row(
    id: int, key: string, psk: Option<string>, ip: string,
    disabled: bool, pending: bool, tg: Option<int>)

  datatype User = User(username: Option<string>, firstName: Option<string>, quota: int, lastSeen: int, member: bool)

  datatype Claim = Claim(user: int, peer: int)

  datatype Tables = Tables(peers: seq<Row>, users: map<int, User>, claims: seq<Claim>)

  datatype Error = Driver | Constraint | NoRows | QuotaExceeded

  datatype Result<+T> = Ok(value: T) | Err(error: Error)

  // ---- the peers table ----------------------------------------------------

  predicate HasKey(peers: seq<Row>, key: string) { exists i :: 0 <= i < |peers| && peers[i].key == key }

  predicate HasIP(peers: seq<Row>, ip: string) { exists i :: 0 <= i < |peers| && peers[i].ip == ip }

  // PRIMARY KEY and the two UNIQUE columns.
  ghost predicate RowsOK(peers: seq<Row>) {
    && (forall i | 0 <= i < |peers| :: peers[i].id == i + 1)
    && (forall i, j | 0 <= i < j < |peers| :: peers[i].key != peers[j].key)
    && (forall i, j | 0 <= i < j < |peers| :: peers[i].ip != peers[j].ip)
  }

  // INSERT INTO peers: None is a UNIQUE violation. Rows start with pending_sync = 1.
  function InsertPeer(peers: seq<Row>, key: string, psk: Option<string>, ip: string, disabled: bool, tg: Option<int>)
    : (r: Option<seq<Row>>)
  {
    if HasKey(peers, key) || HasIP(peers, ip) then None
    else Some(peers + [Row(|peers| + 1, key, psk, ip, disabled, true, tg)])
  }

  // UPDATE peers SET pending_sync = 0 WHERE id = ?
  function SetSynced(peers: seq<Row>, id: int): seq<Row> {
    if 1 <= id <= |peers| then peers[id - 1 := peers[id - 1].(pending := false)] else peers
  }

  // UPDATE peers SET disabled = 1, pending_sync = 1 WHERE id = ?
  function SetDisabled(peers: seq<Row>, id: int): seq<Row> {
    if 1 <= id <= |peers| then peers[id - 1 := peers[id - 1].(disabled := true, pending := true)] else peers
  }

  // Equal in every column but the two flags.
  predicate SameIdentity(a: Row, b: Row) {
    a.id == b.id && a.key == b.key && a.psk == b.psk && a.ip == b.ip && a.tg == b.tg
  }

  lemma FlagsKeepRowsOK(peers: seq<Row>, id: int)
    requires RowsOK(peers)
    ensures RowsOK(SetSynced(peers, id)) && RowsOK(SetDisabled(peers, id))
  {
    var a, b := SetSynced(peers, id), SetDisabled(peers, id);
    forall i | 0 <= i < |peers|
      ensures a[i].id == b[i].id == peers[i].id
      ensures a[i].key == b[i].key == peers[i].key && a[i].ip == b[i].ip == peers[i].ip
    {
    }
    hide SetSynced, SetDisabled;
  }

  lemma InsertKeepsRowsOK(peers: seq<Row>, key: string, psk: Option<string>, ip: string, disabled: bool,
      tg: Option<int>)
    requires RowsOK(peers)
    ensures var r := InsertPeer(peers, key, psk, ip, disabled, tg); r.Some? ==> RowsOK(r.value)
  {
    var r := InsertPeer(peers, key, psk, ip, disabled, tg);
    if r.Some? {
      assert forall i | 0 <= i < |peers| :: peers[i].key != key && peers[i].ip != ip && r.value[i] == peers[i];
      hide HasKey, HasIP;
    }
  }

  // The WHERE clauses of the listings.
  datatype Filter = PendingOnly | EnabledOnly | MissingFrom(kernel: set<string>)

  predicate Passes(f: Filter, r: Row) {
    match f
    case PendingOnly => r.pending
    case EnabledOnly => !r.disabled
    case MissingFrom(kernel) => !r.disabled && r.key !in kernel
  }

  // SELECT ... WHERE f ORDER BY id
  function Select(peers: seq<Row>, f: Filter): seq<Row> {
    if peers == [] then []
    else (if Passes(f, peers[0]) then [peers[0]] else []) + Select(peers[1..], f)
  }

  predicate Listed(rows: seq<Row>, id: int) { exists j :: 0 <= j < |rows| && rows[j].id == id }

  // A listing holds rows that pass, once each, in id order ...
  lemma SelectShape(peers: seq<Row>, f: Filter, from: int)
    requires forall i | 0 <= i < |peers| :: peers[i].id == from + i
    ensures forall j | 0 <= j < |Select(peers, f)| ::
              var r := Select(peers, f)[j]; from <= r.id < from + |peers| && r == peers[r.id - from] && Passes(f, r)
    ensures forall i, j | 0 <= i < j < |Select(peers, f)| :: Select(peers, f)[i].id < Select(peers, f)[j].id
  {
    forall j | 0 <= j < |Select(peers, f)|
      ensures var r := Select(peers, f)[j]; from <= r.id < from + |peers| && r == peers[r.id - from] && Passes(f, r)
    {
      SelectMember(peers, f, from, j);
    }
    forall i, j | 0 <= i < j < |Select(peers, f)| ensures Select(peers, f)[i].id < Select(peers, f)[j].id {
      SelectOrder(peers, f, from, i, j);
    }
  }

  lemma {:induction false} SelectMember(peers: seq<Row>, f: Filter, from: int, j: nat)
    requires (forall i | 0 <= i < |peers| :: peers[i].id == from + i) && j < |Select(peers, f)|
    ensures var r := Select(peers, f)[j]; from <= r.id < from + |peers| && r == peers[r.id - from] && Passes(f, r)
  {
    if !Passes(f, peers[0]) {
      SelectMember(peers[1..], f, from + 1, j);
    } else if j > 0 {
      SelectMember(peers[1..], f, from + 1, j - 1);
    }
  }

  lemma {:induction false} SelectOrder(peers: seq<Row>, f: Filter, from: int, i: nat, j: nat)
    requires (forall i | 0 <= i < |peers| :: peers[i].id == from + i) && i < j < |Select(peers, f)|
    ensures Select(peers, f)[i].id < Select(peers, f)[j].id
  {
    if !Passes(f, peers[0]) {
      SelectOrder(peers[1..], f, from + 1, i, j);
    } else if i > 0 {
      SelectOrder(peers[1..], f, from + 1, i - 1, j - 1);
    } else {
      SelectMember(peers[1..], f, from + 1, j - 1);
    }
  }

  // ... and every row that passes.
  lemma {:induction false} SelectListed(peers: seq<Row>, f: Filter, from: int, id: int)
    requires forall i | 0 <= i < |peers| :: peers[i].id == from + i
    ensures Listed(Select(peers, f), id) <==> from <= id < from + |peers| && Passes(f, peers[id - from])
  {
    SelectShape(peers, f, from);
    if from <= id < from + |peers| && Passes(f, peers[id - from]) {
      var rest, all := Select(peers[1..], f), Select(peers, f);
      if id == from {
        assert all[0].id == id;
      } else {
        SelectListed(peers[1..], f, from + 1, id);
        var j :| 0 <= j < |rest| && rest[j].id == id;
        assert all[j + |all| - |rest|].id == id;
      }
    }
  }

  lemma {:induction false} SelectSnoc(peers: seq<Row>, r: Row, f: Filter)
    ensures Select(peers + [r], f) == Select(peers, f) + (if Passes(f, r) then [r] else [])
  {
    if peers == [] {
      assert [] + [r] == [r];
    } else {
      SelectSnoc(peers[1..], r, f);
      assert (peers + [r])[1..] == peers[1..] + [r];
      hide Passes;
      var head := if Passes(f, peers[0]) then [peers[0]] else [];
      var tail := if Passes(f, r) then [r] else [];
      assert head + (Select(peers[1..], f) + tail) == head + Select(peers[1..], f) + tail;
    }
  }

  function IPs(peers: seq<Row>): (s: seq<string>)
    ensures |s| == |peers| && forall i | 0 <= i < |s| :: s[i] == peers[i].ip
  {
    if peers == [] then [] else [peers[0].ip] + IPs(peers[1..])
  }

  // ---- the quota ledger ---------------------------------------------------

  // telegram_claims, read off the peers table: one claim per bot-created row.
  function ClaimsOf(peers: seq<Row>): seq<Claim> {
    if peers == [] then []
    else
      var last := peers[|peers| - 1];
      ClaimsOf(peers[..|peers| - 1]) + (if last.tg.Some? then [Claim(last.tg.value, last.id)] else [])
  }

  function ClaimsBy(claims: seq<Claim>, user: int): nat {
    if claims == [] then 0
    else ClaimsBy(claims[..|claims| - 1], user) + (if claims[|claims| - 1].user == user then 1 else 0)
  }

  function PeersOf(peers: seq<Row>, user: int): nat {
    if peers == [] then 0
    else PeersOf(peers[..|peers| - 1], user) + (if peers[|peers| - 1].tg == Some(user) then 1 else 0)
  }

  // Claims are in bijection with bot-created peers, and every quota_used is the
  // number of its user's claims.
  ghost predicate Books(t: Tables) {
    && t.claims == ClaimsOf(t.peers)
    && (forall i | 0 <= i < |t.peers| && t.peers[i].tg.Some? :: t.peers[i].tg.value in t.users)
    && (forall u | u in t.users :: t.users[u].quota == ClaimsBy(t.claims, u))
  }

  // No quota_used is above max(0, limit); false of old tables when the limit was lowered.
  ghost predicate Within(t: Tables, limit: int) {
    forall u | u in t.users :: t.users[u].quota <= (if limit > 0 then limit else 0)
  }

  ghost predicate Ledger(t: Tables, limit: int) { Books(t) && Within(t, limit) }

  lemma {:induction false} ClaimsCount(peers: seq<Row>, user: int)
    ensures ClaimsBy(ClaimsOf(peers), user) == PeersOf(peers, user)
  {
    if peers != [] {
      var last := peers[|peers| - 1];
      ClaimsCount(peers[..|peers| - 1], user);
      var c := ClaimsOf(peers[..|peers| - 1]);
      if last.tg.Some? {
        assert (c + [Claim(last.tg.value, last.id)])[..|c|] == c;
      } else {
        assert c + [] == c;
      }
    }
  }

  // The bijection spelled out: every claim names a row and its user, no row twice ...
  lemma {:induction false} ClaimsNameRows(peers: seq<Row>)
    requires forall i | 0 <= i < |peers| :: peers[i].id == i + 1
    ensures forall j | 0 <= j < |ClaimsOf(peers)| ::
              var c := ClaimsOf(peers)[j]; 1 <= c.peer <= |peers| && peers[c.peer - 1].tg == Some(c.user)
    ensures forall j, k | 0 <= j < k < |ClaimsOf(peers)| :: ClaimsOf(peers)[j].peer < ClaimsOf(peers)[k].peer
  {
    if peers != [] {
      var n := |peers| - 1;
      var before, last := peers[..n], peers[n];
      ClaimsNameRows(before);
      var c, all := ClaimsOf(before), ClaimsOf(peers);
      assert all == c || (last.tg.Some? && all == c + [Claim(last.tg.value, last.id)]);
      hide ClaimsOf;
      forall j | 0 <= j < |c| ensures 1 <= c[j].peer <= n && peers[c[j].peer - 1].tg == Some(c[j].user) {
        assert before[c[j].peer - 1] == peers[c[j].peer - 1];
      }
    }
  }

  // ... and every bot-created row has its claim.
  lemma {:induction false} RowHasClaim(peers: seq<Row>, i: nat)
    requires i < |peers| && peers[i].tg.Some?
    ensures Claim(peers[i].tg.value, peers[i].id) in ClaimsOf(peers)
  {
    if i < |peers| - 1 {
      RowHasClaim(peers[..|peers| - 1], i);
    }
  }

  // Switching flags of a row is invisible to the ledger.
  lemma {:induction false} ClaimsIgnoreFlags(a: seq<Row>, b: seq<Row>)
    requires |a| == |b|
    requires forall i | 0 <= i < |a| :: a[i].id == b[i].id && a[i].tg == b[i].tg
    ensures ClaimsOf(a) == ClaimsOf(b)
  {
    if a != [] {
      ClaimsIgnoreFlags(a[..|a| - 1], b[..|b| - 1]);
    }
  }

  lemma LedgerIgnoresFlags(t: Tables, id: int)
    requires Books(t)
    ensures Books(t.(peers := SetSynced(t.peers, id)))
    ensures Books(t.(peers := SetDisabled(t.peers, id)))
  {
    ClaimsIgnoreFlags(t.peers, SetSynced(t.peers, id));
    ClaimsIgnoreFlags(t.peers, SetDisabled(t.peers, id));
  }

  lemma LedgerAdminInsert(t: Tables, key: string, psk: Option<string>, ip: string, disabled: bool)
    requires Books(t)
    ensures var r := InsertPeer(t.peers, key, psk, ip, disabled, None);
            r.Some? ==> Books(t.(peers := r.value))
  {
    var r := InsertPeer(t.peers, key, psk, ip, disabled, None);
    if r.Some? {
      assert r.value[..|t.peers|] == t.peers;
    }
  }

  function OptText(s: string): Option<string> { if s == "" then None else Some(s) }

  // INSERT ... ON CONFLICT DO UPDATE: a new user starts at 0, an old one keeps quota_used.
  function Upsert(users: map<int, User>, id: int, username: string, firstName: string, now: int, member: bool)
    : map<int, User>
  {
    users[id := User(OptText(username), OptText(firstName), if id in users then users[id].quota else 0, now, member)]
  }

  lemma LedgerUpsert(t: Tables, id: int, username: string, firstName: string, now: int, member: bool, limit: int)
    requires Books(t)
    ensures Books(t.(users := Upsert(t.users, id, username, firstName, now, member)))
    ensures Within(t, limit) ==> Within(t.(users := Upsert(t.users, id, username, firstName, now, member)), limit)
  {
    if id !in t.users {
      NoClaimsOfStranger(t.peers, t.users, id);
    }
  }

  lemma {:induction false} NoClaimsOfStranger(peers: seq<Row>, users: map<int, User>, id: int)
    requires forall i | 0 <= i < |peers| && peers[i].tg.Some? :: peers[i].tg.value in users
    requires id !in users
    ensures ClaimsBy(ClaimsOf(peers), id) == 0
  {
    ClaimsCount(peers, id);
    if peers != [] {
      NoClaimsOfStranger(peers[..|peers| - 1], users, id);
      ClaimsCount(peers[..|peers| - 1], id);
    }
  }

  // The three writes of a claim, in order.
  function AfterInsert(t: Tables, user: int, key: string, psk: Option<string>, ip: string): Option<Tables> {
    match InsertPeer(t.peers, key, psk, ip, false, Some(user))
    case None => None
    case Some(peers) => Some(t.(peers := peers))
  }

  function AfterClaim(t: Tables, user: int): Tables {
    t.(claims := t.claims + [Claim(user, |t.peers|)])
  }

  function AfterBump(t: Tables, user: int): Tables {
    if user in t.users then t.(users := t.users[user := t.users[user].(quota := t.users[user].quota + 1)]) else t
  }

  function Claimed(t: Tables, user: int, key: string, psk: Option<string>, ip: string): Option<Tables> {
    match AfterInsert(t, user, key, psk, ip)
    case None => None
    case Some(t1) => Some(AfterBump(AfterClaim(t1, user), user))
  }

  // A granted claim keeps the books and the limit.
  lemma {:induction false} LedgerClaimed(t: Tables, user: int, key: string, psk: Option<string>, ip: string, limit: int)
    requires Books(t) && user in t.users && t.users[user].quota < limit
    ensures var r := Claimed(t, user, key, psk, ip);
            r.Some? ==> Books(r.value) && (Within(t, limit) ==> Within(r.value, limit))
  {
    var r := Claimed(t, user, key, psk, ip);
    if r.Some? {
      var row := Row(|t.peers| + 1, key, psk, ip, false, true, Some(user));
      assert r.value.peers == t.peers + [row] && r.value.claims == t.claims + [Claim(user, |t.peers| + 1)];
      var users' := t.users[user := t.users[user].(quota := t.users[user].quota + 1)];
      assert r.value == Tables(t.peers + [row], users', t.claims + [Claim(user, row.id)]);
      hide Claimed, ClaimsBy, ClaimsOf, Books, Within;
      BooksClaimed(t, row, user);
      WithinClaimed(t, r.value, user, limit);
    }
  }

  lemma {:induction false} BooksClaimed(t: Tables, row: Row, user: int)
    requires Books(t) && user in t.users && row.tg == Some(user)
    ensures Books(Tables(t.peers + [row], t.users[user := t.users[user].(quota := t.users[user].quota + 1)],
                         t.claims + [Claim(user, row.id)]))
  {
    hide ClaimsBy, ClaimsOf;
    ClaimsOfSnoc(t.peers, row);
    forall u | u in t.users
      ensures ClaimsBy(t.claims + [Claim(user, row.id)], u) == ClaimsBy(t.claims, u) + (if u == user then 1 else 0)
    {
      ClaimsBySnoc(t.claims, Claim(user, row.id), u);
    }
  }

  lemma WithinClaimed(t: Tables, after: Tables, user: int, limit: int)
    requires user in t.users && t.users[user].quota < limit
    requires after.users == t.users[user := t.users[user].(quota := t.users[user].quota + 1)]
    ensures Within(t, limit) ==> Within(after, limit)
  {
  }

  lemma {:induction false} ClaimsOfSnoc(peers: seq<Row>, last: Row)
    ensures ClaimsOf(peers + [last]) ==
            ClaimsOf(peers) + (if last.tg.Some? then [Claim(last.tg.value, last.id)] else [])
  {
    assert (peers + [last])[..|peers|] == peers;
  }

  lemma {:induction false} ClaimsBySnoc(claims: seq<Claim>, last: Claim, user: int)
    ensures ClaimsBy(claims + [last], user) == ClaimsBy(claims, user) + (if last.user == user then 1 else 0)
  {
    assert (claims + [last])[..|claims|] == claims;
  }

  // ---- the code -----------------------------------------------------------

  datatype Statement = Begin | ReadQuota | WritePeer | WriteClaim | BumpQuota | Commit

  class Database {
    var peers: seq<Row>
    var users: map<int, User>
    var claims: seq<Claim>

    ghost predicate Valid()
      reads this
    {
      RowsOK(peers)
    }

    ghost function View(): Tables
      reads this
    {
      Tables(peers, users, claims)
    }

    constructor ()
      ensures Valid() && View() == Tables([], map[], [])
    {
      peers, users, claims := [], map[], [];
    }

    // `up` is whether the driver reports success.
    method CreatePeer(key: string, psk: Option<string>, ip: string, disabled: bool, tg: Option<int>, up: bool)
      returns (r: Result<int>)
      requires Valid()
      modifies this`peers
      ensures Valid()
      ensures var ins := InsertPeer(old(peers), key, psk, ip, disabled, tg);
              if up && ins.Some? then r == Ok(|old(peers)| + 1) && peers == ins.value
              else r == Err(if up then Constraint else Driver) && peers == old(peers)
      ensures r.Ok? <==> up && forall i | 0 <= i < |old(peers)| :: old(peers)[i].key != key && old(peers)[i].ip != ip
      ensures r.Ok? ==> peers == old(peers) + [Row(|old(peers)| + 1, key, psk, ip, disabled, true, tg)]
    {
      if !up {
        return Err(Driver);
      }
      if HasKey(peers, key) || HasIP(peers, ip) {
        return Err(Constraint);
      }
      peers := peers + [Row(|peers| + 1, key, psk, ip, disabled, true, tg)];
      r := Ok(|peers|);
    }

    method ListPeers(f: Filter, up: bool) returns (r: Result<seq<Row>>)
      ensures r == if up then Ok(Select(peers, f)) else Err(Driver)
    {
      if !up {
        return Err(Driver);
      }
      var out := [];
      for i := 0 to |peers|
        invariant out == Select(peers[..i], f)
      {
        SelectSnoc(peers[..i], peers[i], f);
        assert peers[..i + 1] == peers[..i] + [peers[i]];
        if Passes(f, peers[i]) {
          out := out + [peers[i]];
        }
      }
      assert peers[..|peers|] == peers;
      r := Ok(out);
    }

    method ListAssignedIPs(up: bool) returns (r: Result<seq<string>>)
      ensures r == if up then Ok(IPs(peers)) else Err(Driver)
    {
      if !up {
        return Err(Driver);
      }
      var out := [];
      for i := 0 to |peers|
        invariant |out| == i && forall k | 0 <= k < i :: out[k] == peers[k].ip
      {
        out := out + [peers[i].ip];
      }
      assert out == IPs(peers);
      r := Ok(out);
    }

    method MarkPeerSynced(id: int, up: bool) returns (r: Result<()>)
      requires Valid()
      modifies this`peers
      ensures Valid()
      ensures peers == if up then SetSynced(old(peers), id) else old(peers)
      ensures r == if !up then Err(Driver) else if 1 <= id <= |old(peers)| then Ok(()) else Err(NoRows)
      ensures r.Ok? ==> 1 <= id <= |peers| == |old(peers)|
                        && peers[id - 1].(pending := old(peers)[id - 1].pending) == old(peers)[id - 1]
                        && !peers[id - 1].pending
                        && forall i | 0 <= i < |peers| && i != id - 1 :: peers[i] == old(peers)[i]
      ensures r.Err? ==> peers == old(peers)
    {
      if !up {
        return Err(Driver);
      }
      if !(1 <= id <= |peers|) {
        return Err(NoRows);
      }
      peers := peers[id - 1 := peers[id - 1].(pending := false)];
      r := Ok(());
    }

    method DisablePeer(id: int, up: bool) returns (r: Result<()>)
      requires Valid()
      modifies this`peers
      ensures Valid()
      ensures peers == if up then SetDisabled(old(peers), id) else old(peers)
      ensures r == if !up then Err(Driver) else if 1 <= id <= |old(peers)| then Ok(()) else Err(NoRows)
      ensures r.Ok? ==> 1 <= id <= |peers| == |old(peers)|
                        && peers[id - 1].disabled && peers[id - 1].pending
                        && SameIdentity(peers[id - 1], old(peers)[id - 1])
                        && forall i | 0 <= i < |peers| && i != id - 1 :: peers[i] == old(peers)[i]
      ensures r.Err? ==> peers == old(peers)
    {
      if !up {
        return Err(Driver);
      }
      if !(1 <= id <= |peers|) {
        return Err(NoRows);
      }
      peers := peers[id - 1 := peers[id - 1].(disabled := true, pending := true)];
      r := Ok(());
    }

    method UpsertTelegramUser(id: int, username: string, firstName: string, now: int, member: bool, up: bool)
      returns (r: Result<()>)
      modifies this`users
      ensures users == if up then Upsert(old(users), id, username, firstName, now, member) else old(users)
      ensures r == if up then Ok(()) else Err(Driver)
      ensures r.Ok? ==> id in users && users.Keys == old(users.Keys) + {id}
                        && users[id].username == (if username == "" then None else Some(username))
                        && users[id].firstName == (if firstName == "" then None else Some(firstName))
                        && users[id].quota == (if id in old(users) then old(users)[id].quota else 0)
                        && users[id].lastSeen == now && users[id].member == member
                        && forall u | u in old(users) && u != id :: users[u] == old(users)[u]
    {
      if !up {
        return Err(Driver);
      }
      var quota := if id in users then users[id].quota else 0;
      users := users[id := User(OptText(username), OptText(firstName), quota, now, member)];
      r := Ok(());
    }

    // The whole transaction, alone. `fails` are the statements the driver refuses;
    // the working copies are the transaction, returning early is the rollback.
    method ClaimPeerForTelegramUser(user: int, key: string, psk: Option<string>, ip: string, limit: int,
        fails: set<Statement>)
      returns (r: Result<int>)
      requires Valid() && Books(View())
      modifies this
      ensures Valid() && Books(View()) && (Within(old(View()), limit) ==> Within(View(), limit))
      ensures r.Ok? <==> fails == {} && user in old(users) && old(users)[user].quota < limit
                         && !HasKey(old(peers), key) && !HasIP(old(peers), ip)
      ensures r.Ok? ==> Some(View()) == Claimed(old(View()), user, key, psk, ip) && r.value == |old(peers)| + 1
      ensures r.Ok? ==> peers == old(peers) + [Row(|old(peers)| + 1, key, psk, ip, false, true, Some(user))]
                        && claims == old(claims) + [Claim(user, |old(peers)| + 1)]
                        && users.Keys == old(users.Keys) && user in users
                        && users[user] == old(users)[user].(quota := old(users)[user].quota + 1)
                        && forall u | u in users && u != user :: users[u] == old(users)[u]
      ensures r.Err? ==> View() == old(View())
      // each error exactly when the statements before it worked
      ensures var read := Begin !in fails && ReadQuota !in fails;
              var room := read && user in old(users) && old(users)[user].quota < limit;
              var known := HasKey(old(peers), key) || HasIP(old(peers), ip);
              && (r == Err(NoRows) <==> read && user !in old(users))
              && (r == Err(QuotaExceeded) <==> read && user in old(users) && old(users)[user].quota >= limit)
              && (r == Err(Constraint) <==> room && WritePeer !in fails && known)
              && (r == Err(Driver) <==> !read || (room && (WritePeer in fails || (!known && fails != {}))))
    {
      hide Books, Within, RowsOK, HasKey, HasIP, ClaimsOf, ClaimsBy;
      if Begin in fails {
        return Err(Driver);
      }
      if ReadQuota in fails {
        return Err(Driver);
      }
      if user !in users {
        return Err(NoRows);
      }
      var used := users[user].quota;
      if used >= limit {
        return Err(QuotaExceeded);
      }
      if WritePeer in fails {
        return Err(Driver);
      }
      if HasKey(peers, key) || HasIP(peers, ip) {
        return Err(Constraint);
      }
      var txPeers := peers + [Row(|peers| + 1, key, psk, ip, false, true, Some(user))];
      var peerID := |txPeers|;
      if WriteClaim in fails {
        return Err(Driver);
      }
      var txClaims := claims + [Claim(user, peerID)];
      if BumpQuota in fails {
        return Err(Driver);
      }
      var txUsers := users[user := users[user].(quota := users[user].quota + 1)];
      if Commit in fails {
        return Err(Driver);
      }
      LedgerClaimed(View(), user, key, psk, ip, limit);
      InsertKeepsRowsOK(peers, key, psk, ip, false, Some(user));
      assert fails == {} by {
        if s: Statement :| s in fails {
          match s
          case Begin => case ReadQuota => case WritePeer => case WriteClaim => case BumpQuota => case Commit =>
        }
      }
      peers, claims, users := txPeers, txClaims, txUsers;
      r := Ok(peerID);
    }
  }
}
