// internal/telegram/bot.go: what the bot does with one update.
module Handler {
  import opened Text
  import opened Store
  import Ipam

  datatype Sender = Sender(id: int, username: string, firstName: string)

  datatype Message = Message(chat: Option<int>, text: string, from: Option<Sender>)

  // What fails on the way: the statements of each store call, reading back, sending.
  datatype Faults = Faults(upsert: bool, list: bool, claim: set<Statement>, readBack: bool, send: bool)

  datatype Reply =
    | Ignored | UpsertFailed | KeygenFailed | NoFreeIP | QuotaReached | ClaimFailed | ReadBackFailed
    | SendFailed(row: Row) | Sent(row: Row)

  // A /start in the configured group from a known sender.
  predicate Addressed(msg: Option<Message>, group: int) {
    msg.Some? && msg.value.chat == Some(group) && msg.value.text == "/start" && msg.value.from.Some?
  }

  function AfterUpsert(t: Tables, from: Sender, now: int): Tables {
    t.(users := Upsert(t.users, from.id, from.username, from.firstName, now, true))
  }

  // The address Allocate picks is not in the table it read.
  lemma {:induction false} FirstFreeIsFree(hosts: seq<string>, used: seq<string>)
    ensures Ipam.FirstFree(hosts, used).Some? ==> Ipam.FirstFree(hosts, used).value !in used
  {
    if hosts != [] {
      FirstFreeIsFree(hosts[1..], used);
    }
  }

  lemma AllocatedIsFree(base: nat, ones: nat, serverAddr: string, peers: seq<Row>, ip: string)
    requires ones <= 32 && Ipam.Allocation(base, ones, serverAddr, Some(IPs(peers))) == Ipam.Ip(ip)
    ensures !HasIP(peers, ip)
  {
    hide Ipam.Hosts;
    FirstFreeIsFree(Ipam.Hosts(base, ones, serverAddr), IPs(peers));
    forall i | 0 <= i < |peers| ensures peers[i].ip != ip {
      assert IPs(peers)[i] in IPs(peers);
    }
  }

  // The quota_used an upsert leaves the sender with.
  function QuotaOf(users: map<int, User>, id: int): int { if id in users then users[id].quota else 0 }

  // The claim goes through: nothing fails, the quota leaves room, the key is new.
  ghost predicate IsGranted(t: Tables, user: int, key: string, limit: int, fails: set<Statement>) {
    fails == {} && QuotaOf(t.users, user) < limit && forall i | 0 <= i < |t.peers| :: t.peers[i].key != key
  }

  // One granted /start: one peer, one claim, one more on the sender's quota.
  ghost predicate AddsPeer(before: Tables, after: Tables, row: Row, user: int) {
    && after.peers == before.peers + [row] && after.claims == before.claims + [Claim(user, row.id)]
    && user in before.users
    && after.users == before.users[user := before.users[user].(quota := before.users[user].quota + 1)]
  }

  // What the claim and all after it come to, exactly: `t` are the tables before, of
  // which the sender's row is part.
  ghost predicate Outcome(reply: Reply, t: Tables, after: Tables, user: int, key: string, ip: string, limit: int,
      f: Faults)
  {
    var granted := IsGranted(t, user, key, limit, f.claim);
    var row := Row(|t.peers| + 1, key, None, ip, false, true, Some(user));
    && (reply.QuotaReached? <==> Begin !in f.claim && ReadQuota !in f.claim && QuotaOf(t.users, user) >= limit)
    && (reply.ClaimFailed? <==> !granted && !reply.QuotaReached?)
    && (reply.ReadBackFailed? <==> granted && !f.readBack)
    && (reply.SendFailed? <==> granted && f.readBack && !f.send)
    && (reply.Sent? <==> granted && f.readBack && f.send)
    && (granted ==> AddsPeer(t, after, row, user))
    && (!granted ==> after == t)
    && (reply.SendFailed? || reply.Sent? ==> reply.row == row)
  }

  // Claim, read back, send (bot.go:183-221). The claim never fails for want of the
  // sender's row or because of the allocated address.
  method ClaimAndSend(db: Database, user: int, key: string, ip: string, limit: int, f: Faults) returns (reply: Reply)
    requires db.Valid() && Books(db.View()) && user in db.users && !HasIP(db.peers, ip)
    modifies db
    ensures db.Valid() && Books(db.View()) && (Within(old(db.View()), limit) ==> Within(db.View(), limit))
    ensures Outcome(reply, old(db.View()), db.View(), user, key, ip, limit, f)
  {
    hide Books, Within, RowsOK, HasIP;
    var claim := db.ClaimPeerForTelegramUser(user, key, None, ip, limit, f.claim);
    if claim.Err? {
      if claim.error.QuotaExceeded? {
        return QuotaReached;
      }
      return ClaimFailed;
    }
    if !f.readBack {
      return ReadBackFailed;
    }
    var row := db.peers[claim.value - 1];
    if !f.send {
      return SendFailed(row);
    }
    reply := Sent(row);
  }

  // Each outcome exactly when its cause is there, in the order of the code, and
  // the tables afterwards: without a grant nothing but the upsert is left.
  method HandleUpdate(db: Database, cidr: Ipam.IPNet, serverAddr: string, group: int, limit: int,
      msg: Option<Message>, now: int, key: Option<string>, f: Faults)
    returns (reply: Reply)
    requires db.Valid() && Books(db.View())
    requires cidr.Valid()
    requires cidr.ones == 0 && f.list ==>
               exists h :: h in Ipam.Hosts(cidr.Base(), 0, serverAddr) && h !in IPs(db.peers)
    modifies db
    ensures db.Valid() && Books(db.View()) && (Within(old(db.View()), limit) ==> Within(db.View(), limit))
    ensures reply.Ignored? <==> !Addressed(msg, group)
    ensures reply.UpsertFailed? <==> Addressed(msg, group) && !f.upsert
    ensures reply.Ignored? || reply.UpsertFailed? ==> db.View() == old(db.View())
    ensures reply.KeygenFailed? <==> Addressed(msg, group) && f.upsert && key.None?
    ensures var alloc := Ipam.Allocation(cidr.Base(), cidr.ones, serverAddr, Some(IPs(old(db.peers))));
            && (reply.NoFreeIP? <==> Addressed(msg, group) && f.upsert && key.Some? && !(f.list && alloc.Ip?))
            && (Addressed(msg, group) && f.upsert ==>
                  var from := msg.value.from.value;
                  var t := AfterUpsert(old(db.View()), from, now);
                  && StoresSender(old(db.users), t.users, from, now)
                  && (reply.KeygenFailed? || reply.NoFreeIP? ==> db.View() == t)
                  && (key.Some? && f.list && alloc.Ip? ==>
                        Outcome(reply, t, db.View(), from.id, key.value, alloc.ip, limit, f)))
  {
    hide Ipam.Hosts, Books, Within, RowsOK, HasKey, HasIP, Outcome, StoresSender;
    if msg.None? {
      return Ignored;
    }
    var m := msg.value;
    if m.chat != Some(group) {
      return Ignored;
    }
    if m.text != "/start" {
      return Ignored;
    }
    if m.from.None? {
      return Ignored;
    }
    var from := m.from.value;
    LedgerUpsert(db.View(), from.id, from.username, from.firstName, now, true, limit);
    UpsertStoresSender(db.users, from, now);
    var up := db.UpsertTelegramUser(from.id, from.username, from.firstName, now, true, f.upsert);
    if up.Err? {
      return UpsertFailed;
    }
    if key.None? {
      return KeygenFailed;
    }
    var listed := db.ListAssignedIPs(f.list);
    var used := if listed.Ok? then Some(listed.value) else None;
    var alloc, _ := Ipam.Allocate(cidr, serverAddr, used);
    if !alloc.Ip? {
      return NoFreeIP;
    }
    AllocatedIsFree(cidr.Base(), cidr.ones, serverAddr, db.peers, alloc.ip);
    reply := ClaimAndSend(db, from.id, key.value, alloc.ip, limit, f);
    OutcomeIsLate(reply, AfterUpsert(old(db.View()), from, now), db.View(), from.id, key.value, alloc.ip, limit, f);
  }

  // The sender's row holds what the update says, and the quota it had, or zero.
  ghost predicate StoresSender(before: map<int, User>, after: map<int, User>, from: Sender, now: int) {
    && after.Keys == before.Keys + {from.id}
    && after[from.id].username == (if from.username == "" then None else Some(from.username))
    && after[from.id].firstName == (if from.firstName == "" then None else Some(from.firstName))
    && after[from.id].quota == QuotaOf(before, from.id)
    && after[from.id].lastSeen == now && after[from.id].member
    && forall u | u in before && u != from.id :: after[u] == before[u]
  }

  lemma UpsertStoresSender(users: map<int, User>, from: Sender, now: int)
    ensures StoresSender(users, Upsert(users, from.id, from.username, from.firstName, now, true), from, now)
  {
  }

  lemma OutcomeIsLate(reply: Reply, t: Tables, after: Tables, user: int, key: string, ip: string, limit: int, f: Faults)
    requires Outcome(reply, t, after, user, key, ip, limit, f)
    ensures reply.QuotaReached? || reply.ClaimFailed? || reply.ReadBackFailed? || reply.SendFailed? || reply.Sent?
  {
  }
}
