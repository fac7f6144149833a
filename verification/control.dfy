// The control plane as one step system: admin handlers, bot claims, the
// allocator they share, and the syncer, all interleaving over the three
// tables, the kernel and the PSK directory, each failing on its own.
//
// SQLite in WAL mode: a statement outside a transaction reads and writes the
// committed tables at once; a transaction reads the snapshot of its first read,
// and its first write fails if anything was committed since, or if another
// transaction is writing. While one writes, nobody else commits.
module ControlPlane {
  import opened Text
  import opened Store
  import opened Wg
  import Ipam
  import PeerList
  import Syncer

  datatype Settings = Settings(base: nat, ones: nat, serverAddr: string, limit: int, pskDir: string)

  type Config = c: Settings | c.ones <= 32 witness Settings(0, 24, "", 0, "")

  // Every address the allocator can ever hand out, in numeric order.
  function Hosts(c: Config): seq<string> { Ipam.Hosts(c.base, c.ones, c.serverAddr) }

  // ipam.Allocate on a table.
  function Allocated(c: Config, peers: seq<Row>): Ipam.Result {
    Ipam.Allocation(c.base, c.ones, c.serverAddr, Some(IPs(peers)))
  }

  // One attempt to create a peer. `seen` is the number of rows its Allocate read.
  datatype Job =
    | Admin(ip: string, seen: nat)
    | Bot(user: int, ip: string, seen: nat)
    | Reader(user: int, ip: string, seen: nat, snap: Tables, at: nat)
    | Writer(user: int, ip: string, key: string, at: nat, stage: nat, work: Tables)

  // Where the syncer is. Marking: `wg` succeeded for r, MarkPeerSynced is next.
  datatype Sync =
    | Idle
    | Pass(first: bool, todo: seq<Row>)
    | Marking(first: bool, todo: seq<Row>, r: Row)
    | Shown(kernel: set<string>)

  datatype State = State(db: Tables, commits: nat, jobs: map<nat, Job>, kern: Kern, sync: Sync)

  datatype Label =
    | AdminAllocate(j: nat)
    | AdminCreate(j: nat, key: string, psk: Option<string>)
    | BotUpsert(user: int, username: string, firstName: string, now: int)
    | BotAllocate(j: nat, user: int)
    | TxRead(j: nat)
    | TxWritePeer(j: nat, key: string)
    | TxWriteClaim(j: nat)
    | TxBump(j: nat)
    | TxCommit(j: nat)
    | Drop(j: nat)                          // any error, rollback or crash of a job
    | Disable(id: int)
    | SyncList
    | SyncApply(f: Fault)
    | SyncMark(ok: bool)
    | SyncShow
    | SyncListEnabled
    | SyncStop                              // end of a tick, a failed listing, or a crash
    | Outside(peers: map<string, KPeer>)    // wipes, wg-quick restarts, foreign peers

  predicate Locked(s: State) { exists j :: j in s.jobs && s.jobs[j].Writer? }

  // A generated public key: base64, and nobody's key in the kernel.
  predicate FreshKey(s: State, key: string) {
    IsBase64(key) && (key in s.kern.peers ==> HasKey(s.db.peers, key))
  }

  ghost predicate Enabled(c: Config, s: State, l: Label) {
    match l
    case AdminAllocate(j) => j !in s.jobs && Allocated(c, s.db.peers).Ip?
    case AdminCreate(j, key, psk) => j in s.jobs && s.jobs[j].Admin? && !Locked(s) && FreshKey(s, key)
    case BotUpsert(_, _, _, _) => !Locked(s)
    case BotAllocate(j, _) => j !in s.jobs && Allocated(c, s.db.peers).Ip?
    case TxRead(j) => j in s.jobs && s.jobs[j].Bot?
    case TxWritePeer(j, key) => j in s.jobs && s.jobs[j].Reader? && FreshKey(s, key)
    case TxWriteClaim(j) => j in s.jobs && s.jobs[j].Writer? && s.jobs[j].stage == 1
    case TxBump(j) => j in s.jobs && s.jobs[j].Writer? && s.jobs[j].stage == 2
    case TxCommit(j) => j in s.jobs && s.jobs[j].Writer? && s.jobs[j].stage == 3 && FreshKey(s, s.jobs[j].key)
    case Drop(j) => j in s.jobs
    case Disable(id) => !Locked(s)
    case SyncList => s.sync.Idle?
    case SyncApply(_) => s.sync.Pass? && s.sync.todo != []
    case SyncMark(ok) => s.sync.Marking? && (ok ==> !Locked(s))
    case SyncShow => s.sync == Pass(true, [])
    case SyncListEnabled => s.sync.Shown?
    case SyncStop => true
    case Outside(peers) => OutsideOK(s, peers)
  }

  // Whatever happens to the kernel behind the syncer's back, it does not invent
  // or alter the peers of the table's rows; it may drop them.
  ghost predicate OutsideOK(s: State, peers: map<string, KPeer>) {
    && KeysAreBase64(peers)
    && forall i | 0 <= i < |s.db.peers| :: s.db.peers[i].key in peers ==>
         s.db.peers[i].key in s.kern.peers && peers[s.db.peers[i].key] == s.kern.peers[s.db.peers[i].key]
  }

  // `wg` takes no other key, from whomever.
  ghost predicate KeysAreBase64(peers: map<string, KPeer>) { forall k | k in peers :: IsBase64(k) }

  function Commit(s: State, db: Tables): State { s.(db := db, commits := s.commits + 1) }

  function Exec(c: Config, s: State, l: Label): State
    requires Enabled(c, s, l)
  {
    match l
    case AdminAllocate(j) => s.(jobs := s.jobs[j := Admin(Allocated(c, s.db.peers).ip, |s.db.peers|)])
    case AdminCreate(j, key, psk) =>
      var s1 := s.(jobs := s.jobs - {j});
      (match InsertPeer(s.db.peers, key, psk, s.jobs[j].ip, false, None)
       case None => s1
       case Some(peers) => Commit(s1, s.db.(peers := peers)))
    case BotUpsert(user, username, firstName, now) =>
      Commit(s, s.db.(users := Upsert(s.db.users, user, username, firstName, now, true)))
    case BotAllocate(j, user) => s.(jobs := s.jobs[j := Bot(user, Allocated(c, s.db.peers).ip, |s.db.peers|)])
    case TxRead(j) =>
      var b := s.jobs[j];
      if b.user !in s.db.users || s.db.users[b.user].quota >= c.limit then s.(jobs := s.jobs - {j})
      else s.(jobs := s.jobs[j := Reader(b.user, b.ip, b.seen, s.db, s.commits)])
    case TxWritePeer(j, key) =>
      var b := s.jobs[j];
      var ins := AfterInsert(b.snap, b.user, key, None, b.ip);
      if Locked(s) || b.at != s.commits || ins.None? then s.(jobs := s.jobs - {j})
      else s.(jobs := s.jobs[j := Writer(b.user, b.ip, key, b.at, 1, ins.value)])
    case TxWriteClaim(j) =>
      var b := s.jobs[j];
      s.(jobs := s.jobs[j := b.(stage := 2, work := AfterClaim(b.work, b.user))])
    case TxBump(j) =>
      var b := s.jobs[j];
      s.(jobs := s.jobs[j := b.(stage := 3, work := AfterBump(b.work, b.user))])
    case TxCommit(j) => Commit(s.(jobs := s.jobs - {j}), s.jobs[j].work)
    case Drop(j) => s.(jobs := s.jobs - {j})
    case Disable(id) => Commit(s, s.db.(peers := SetDisabled(s.db.peers, id)))
    case SyncList => s.(sync := Pass(true, Select(s.db.peers, PendingOnly)))
    case SyncApply(f) =>
      var (kern, ok) := Syncer.Applied(s.kern, c.pskDir, s.sync.todo[0], f);
      s.(kern := kern,
         sync := if ok then Marking(s.sync.first, s.sync.todo[1..], s.sync.todo[0])
                 else Pass(s.sync.first, s.sync.todo[1..]))
    case SyncMark(ok) =>
      var s1 := s.(sync := Pass(s.sync.first, s.sync.todo));
      if ok then Commit(s1, s.db.(peers := SetSynced(s.db.peers, s.sync.r.id))) else s1
    case SyncShow => s.(sync := Shown(s.kern.peers.Keys))
    case SyncListEnabled => s.(sync := Pass(false, Select(s.db.peers, MissingFrom(s.sync.kernel))))
    case SyncStop => s.(sync := Idle)
    case Outside(peers) => s.(kern := s.kern.(peers := peers))
  }

  // ---- the tables ---------------------------------------------------------

  // Assigned addresses are an initial segment of the hosts, in numeric order.
  ghost predicate Segment(c: Config, peers: seq<Row>) {
    |peers| <= |Hosts(c)| && forall i | 0 <= i < |peers| :: peers[i].ip == Hosts(c)[i] && IsBase64(peers[i].key)
  }

  ghost predicate TablesOK(c: Config, t: Tables) {
    RowsOK(t.peers) && Ledger(t, c.limit) && Segment(c, t.peers)
  }

  lemma HostsDistinct(c: Config)
    ensures Ipam.Distinct(Hosts(c))
  {
    Ipam.UsableMembers(c.base + 1, c.base + Ipam.Size(c.ones) - 1, Ipam.Reserved(c.serverAddr));
  }

  // Allocate on an initial segment hands out the next host, or fails when none is left.
  lemma AllocatesNext(c: Config, peers: seq<Row>)
    requires Segment(c, peers)
    ensures c.ones <= 27 ==>
              Allocated(c, peers) == if |peers| < |Hosts(c)| then Ipam.Ip(Hosts(c)[|peers|]) else Ipam.Exhausted
    ensures Allocated(c, peers).Ip? ==> |peers| < |Hosts(c)| && Allocated(c, peers).ip == Hosts(c)[|peers|]
  {
    HostsDistinct(c);
    var hosts := Hosts(c);
    hide Ipam.Hosts, IsBase64;
    forall i | 0 <= i < |hosts| ensures hosts[i] in IPs(peers) <==> i < |peers| {
      assert i < |peers| ==> IPs(peers)[i] == hosts[i];
    }
    Ipam.FirstFreeOfSegment(hosts, |peers|, IPs(peers));
  }

  // The UNIQUE constraint as an optimistic lock: the address read with `seen`
  // rows is still free exactly when no row was added since.
  lemma AddressFreeIffNoInsertSince(c: Config, peers: seq<Row>, ip: string, seen: nat)
    requires Segment(c, peers) && seen <= |peers| && seen < |Hosts(c)| && ip == Hosts(c)[seen]
    ensures HasIP(peers, ip) <==> |peers| != seen
  {
    HostsDistinct(c);
    hide Hosts, IsBase64;
    if seen < |peers| {
      assert peers[seen].ip == ip;
    }
  }

  lemma InsertKeepsTables(c: Config, t: Tables, key: string, psk: Option<string>, ip: string, seen: nat)
    requires TablesOK(c, t) && IsBase64(key)
    requires seen <= |t.peers| && seen < |Hosts(c)| && ip == Hosts(c)[seen]
    ensures var r := InsertPeer(t.peers, key, psk, ip, false, None);
            r.Some? ==> TablesOK(c, t.(peers := r.value))
  {
    AddressFreeIffNoInsertSince(c, t.peers, ip, seen);
    InsertKeepsRowsOK(t.peers, key, psk, ip, false, None);
    LedgerAdminInsert(t, key, psk, ip, false);
    hide Hosts, IsBase64, RowsOK, Books;
  }

  lemma ClaimKeepsTables(c: Config, t: Tables, user: int, key: string, ip: string, seen: nat)
    requires TablesOK(c, t) && IsBase64(key)
    requires seen <= |t.peers| && seen < |Hosts(c)| && ip == Hosts(c)[seen]
    requires user in t.users && t.users[user].quota < c.limit
    ensures var r := Claimed(t, user, key, None, ip); r.Some? ==> TablesOK(c, r.value)
  {
    AddressFreeIffNoInsertSince(c, t.peers, ip, seen);
    InsertKeepsRowsOK(t.peers, key, None, ip, false, Some(user));
    LedgerClaimed(t, user, key, None, ip, c.limit);
    hide Hosts, IsBase64, RowsOK, Books;
  }

  lemma FlagsKeepTables(c: Config, t: Tables, id: int)
    requires TablesOK(c, t)
    ensures TablesOK(c, t.(peers := SetSynced(t.peers, id)))
    ensures TablesOK(c, t.(peers := SetDisabled(t.peers, id)))
  {
    FlagsKeepRowsOK(t.peers, id);
    LedgerIgnoresFlags(t, id);
    hide Hosts, IsBase64, RowsOK, Books;
  }

  // ---- jobs ---------------------------------------------------------------

  // The allocated address is host number `seen`, where `seen` rows were read.
  predicate Holds(c: Config, peers: seq<Row>, ip: string, seen: nat) {
    seen <= |peers| && seen < |Hosts(c)| && ip == Hosts(c)[seen]
  }

  predicate MayClaim(c: Config, t: Tables, user: int) { user in t.users && t.users[user].quota < c.limit }

  // A writer's working copy, stage by stage.
  function Stage(t: Tables, user: int, stage: nat): Tables {
    if stage <= 1 then t else if stage == 2 then AfterClaim(t, user) else AfterBump(AfterClaim(t, user), user)
  }

  ghost predicate JobOK(c: Config, s: State, b: Job) {
    match b
    case Admin(ip, seen) => Holds(c, s.db.peers, ip, seen)
    case Bot(_, ip, seen) => Holds(c, s.db.peers, ip, seen)
    case Reader(user, ip, seen, snap, at) =>
      Holds(c, s.db.peers, ip, seen) && at <= s.commits && MayClaim(c, snap, user) && (at == s.commits ==> snap == s.db)
    case Writer(user, ip, key, at, stage, work) =>
      && at == s.commits && IsBase64(key) && 1 <= stage <= 3 && MayClaim(c, s.db, user)
      && (exists seen :: Holds(c, s.db.peers, ip, seen))
      && AfterInsert(s.db, user, key, None, ip).Some?
      && work == Stage(AfterInsert(s.db, user, key, None, ip).value, user, stage)
  }

  ghost predicate JobsOK(c: Config, s: State) {
    && (forall j | j in s.jobs :: JobOK(c, s, s.jobs[j]))
    && (forall j, k | j in s.jobs && k in s.jobs && s.jobs[j].Writer? && s.jobs[k].Writer? :: j == k)
  }

  // Jobs other than the writer survive any commit that keeps the rows.
  lemma JobSurvivesCommit(c: Config, s: State, s': State, b: Job)
    requires JobOK(c, s, b) && !b.Writer? && s'.commits == s.commits + 1 && |s.db.peers| <= |s'.db.peers|
    ensures JobOK(c, s', b)
  {
  }

  lemma JobFramed(c: Config, s: State, s': State, b: Job)
    requires JobOK(c, s, b) && s'.commits == s.commits && s'.db == s.db
    ensures JobOK(c, s', b)
  {
  }

  ghost predicate DbInv(c: Config, s: State) { TablesOK(c, s.db) && JobsOK(c, s) }

  lemma DbInvKept(c: Config, s: State, l: Label)
    requires DbInv(c, s) && Enabled(c, s, l)
    ensures DbInv(c, Exec(c, s, l))
  {
    hide Hosts, IsBase64, RowsOK, Books, Within, Segment, Allocated, Select, Syncer.Applied, FreshKey, HasKey, HasIP;
    var s' := Exec(c, s, l);
    match l {
      case AdminAllocate(j) => AllocateStep(c, s, l);
      case BotAllocate(j, _) => AllocateStep(c, s, l);
      case AdminCreate(j, key, psk) => CreateStep(c, s, j, key, psk);
      case TxRead(j) => TxStep(c, s, l, j);
      case TxWritePeer(j, _) => TxStep(c, s, l, j);
      case TxWriteClaim(j) => TxStep(c, s, l, j);
      case TxBump(j) => TxStep(c, s, l, j);
      case TxCommit(j) => CommitStep(c, s, j);
      case BotUpsert(user, username, firstName, now) =>
        LedgerUpsert(s.db, user, username, firstName, now, true, c.limit);
        JobsSurviveCommit(c, s, s');
      case Disable(id) =>
        FlagsKeepTables(c, s.db, id);
        JobsSurviveCommit(c, s, s');
      case SyncMark(ok) =>
        FlagsKeepTables(c, s.db, s.sync.r.id);
        if ok { JobsSurviveCommit(c, s, s'); } else { JobsFramed(c, s, s'); }
      case Drop(_) => JobsFramed(c, s, s');
      case _ => JobsFramed(c, s, s');
    }
  }

  lemma JobsSurviveCommit(c: Config, s: State, s': State)
    requires JobsOK(c, s) && !Locked(s) && s'.commits == s.commits + 1 && |s.db.peers| <= |s'.db.peers|
    requires forall j | j in s'.jobs :: j in s.jobs && s'.jobs[j] == s.jobs[j]
    ensures JobsOK(c, s')
  {
    hide JobOK;
    forall j | j in s'.jobs ensures JobOK(c, s', s'.jobs[j]) && !s'.jobs[j].Writer? {
      assert !s.jobs[j].Writer?;
      JobSurvivesCommit(c, s, s', s.jobs[j]);
    }
  }

  lemma JobsFramed(c: Config, s: State, s': State)
    requires JobsOK(c, s) && s'.commits == s.commits && s'.db == s.db
    requires forall j | j in s'.jobs :: j in s.jobs && s'.jobs[j] == s.jobs[j]
    ensures JobsOK(c, s')
  {
    hide JobOK;
    forall j | j in s'.jobs ensures JobOK(c, s', s'.jobs[j]) {
      JobFramed(c, s, s', s.jobs[j]);
    }
  }

  lemma AllocateStep(c: Config, s: State, l: Label)
    requires DbInv(c, s) && Enabled(c, s, l) && (l.AdminAllocate? || l.BotAllocate?)
    ensures DbInv(c, Exec(c, s, l))
  {
    hide Hosts, IsBase64, RowsOK, Ledger, Segment, Allocated;
    AllocatesNext(c, s.db.peers);
    var s' := Exec(c, s, l);
    forall j | j in s'.jobs && j != l.j ensures JobOK(c, s', s'.jobs[j]) {
      JobFramed(c, s, s', s.jobs[j]);
    }
  }

  lemma CreateStep(c: Config, s: State, j: nat, key: string, psk: Option<string>)
    requires DbInv(c, s) && Enabled(c, s, AdminCreate(j, key, psk))
    ensures DbInv(c, Exec(c, s, AdminCreate(j, key, psk)))
  {
    hide Hosts, IsBase64, RowsOK, Ledger, Segment, HasKey, HasIP;
    var s' := Exec(c, s, AdminCreate(j, key, psk));
    assert JobOK(c, s, s.jobs[j]);
    InsertKeepsTables(c, s.db, key, psk, s.jobs[j].ip, s.jobs[j].seen);
    if s'.commits == s.commits {
      JobsFramed(c, s, s');
    } else {
      JobsSurviveCommit(c, s, s');
    }
  }

  lemma TxStep(c: Config, s: State, l: Label, j: nat)
    requires DbInv(c, s) && Enabled(c, s, l)
    requires l == TxRead(j) || l == TxWriteClaim(j) || l == TxBump(j) || (l.TxWritePeer? && l.j == j)
    ensures DbInv(c, Exec(c, s, l))
  {
    hide Hosts, RowsOK, Ledger, Segment, HasKey, HasIP, IsBase64, AfterInsert, AfterClaim, AfterBump;
    var s' := Exec(c, s, l);
    assert JobOK(c, s, s.jobs[j]);
    if j in s'.jobs {
      assert JobOK(c, s', s'.jobs[j]);
    }
    forall k | k in s'.jobs && k != j ensures JobOK(c, s', s'.jobs[k]) {
      JobFramed(c, s, s', s.jobs[k]);
    }
  }

  lemma CommitStep(c: Config, s: State, j: nat)
    requires DbInv(c, s) && Enabled(c, s, TxCommit(j))
    ensures DbInv(c, Exec(c, s, TxCommit(j)))
  {
    hide Hosts, RowsOK, Ledger, Segment, HasKey, HasIP, IsBase64;
    var s', b := Exec(c, s, TxCommit(j)), s.jobs[j];
    assert JobOK(c, s, b);
    var seen :| Holds(c, s.db.peers, b.ip, seen);
    ClaimKeepsTables(c, s.db, b.user, b.key, b.ip, seen);
    assert Claimed(s.db, b.user, b.key, None, b.ip) == Some(b.work);
    forall k | k in s'.jobs ensures JobOK(c, s', s'.jobs[k]) && !s'.jobs[k].Writer? {
      JobSurvivesCommit(c, s, s', s.jobs[k]);
    }
  }

  // ---- the syncer and the kernel ------------------------------------------

  // The listed rows the syncer still has to apply or mark.
  function Held(sync: Sync): seq<Row> {
    match sync
    case Pass(_, todo) => todo
    case Marking(_, todo, r) => [r] + todo
    case _ => []
  }

  // A listed copy against the row as it is now: same row, never re-enabled; and
  // if it was disabled since, that disable is still to be synced.
  predicate CopyOf(copy: Row, row: Row) {
    && copy.id == row.id && copy.key == row.key && copy.ip == row.ip && copy.psk == row.psk
    && (copy.disabled ==> row.disabled)
    && (!copy.disabled && row.disabled ==> row.pending)
  }

  ghost predicate HeldOK(held: seq<Row>, peers: seq<Row>) {
    && (forall i | 0 <= i < |held| :: 1 <= held[i].id <= |peers| && CopyOf(held[i], peers[held[i].id - 1]))
    && (forall i, j | 0 <= i < j < |held| :: held[i].id < held[j].id)
  }

  // Every PSK file belongs to a row and holds that row's PSK line or, after a
  // failed write, a first part of it.
  ghost predicate FileOf(dir: string, path: string, content: string, r: Row) {
    path == PskFilePath(dir, r.key) && content <= Secret(r.psk) + "\n"
  }

  ghost predicate FilesOK(dir: string, files: map<string, string>, peers: seq<Row>) {
    forall p | p in files :: exists i :: 0 <= i < |peers| && FileOf(dir, p, files[p], peers[i])
  }

  // Every `wg set` ever issued was for a row: its key, its address, its PSK line.
  predicate CallFor(call: Call, r: Row) {
    call == SetPeer(r.key, r.ip, Expected(r.ip, r.psk).psk) || call == Remove(r.key)
  }

  ghost predicate LogOK(log: seq<Call>, peers: seq<Row>) {
    forall c | c in log :: exists i :: 0 <= i < |peers| && CallFor(c, peers[i])
  }

  ghost predicate KernelInv(c: Config, s: State) {
    && Syncer.Faithful(s.db.peers, s.kern.peers)
    && FilesOK(c.pskDir, s.kern.files, s.db.peers)
    && LogOK(s.kern.log, s.db.peers)
    && HeldOK(Held(s.sync), s.db.peers)
    && (s.sync.Marking? && s.sync.r.disabled ==> s.sync.r.key !in s.kern.peers)
  }

  ghost predicate Inv(c: Config, s: State) { DbInv(c, s) && KernelInv(c, s) && KeysAreBase64(s.kern.peers) }

  // The identities of the rows: nothing but flags ever changes, nothing is removed.
  ghost predicate Extends(a: seq<Row>, b: seq<Row>) {
    |a| <= |b| && forall i | 0 <= i < |a| ::
      && b[i] == a[i].(disabled := b[i].disabled, pending := b[i].pending)
      && (a[i].disabled ==> b[i].disabled)
  }

  lemma RowsExtend(c: Config, s: State, l: Label)
    requires DbInv(c, s) && Enabled(c, s, l)
    ensures Extends(s.db.peers, Exec(c, s, l).db.peers)
    ensures |Exec(c, s, l).db.peers| <= |s.db.peers| + 1
  {
    hide Hosts, IsBase64, RowsOK, Ledger, Segment, Allocated, Select, Syncer.Applied, FreshKey, HasKey, HasIP, Upsert;
    if l.TxCommit? {
      assert JobOK(c, s, s.jobs[l.j]);
    }
  }

  lemma FilesAndLogExtend(dir: string, k: Kern, a: seq<Row>, b: seq<Row>)
    requires FilesOK(dir, k.files, a) && LogOK(k.log, a) && Extends(a, b)
    ensures FilesOK(dir, k.files, b) && LogOK(k.log, b)
  {
    hide PskFilePath, Expected;
    forall p | p in k.files ensures exists i :: 0 <= i < |b| && FileOf(dir, p, k.files[p], b[i]) {
      var i :| 0 <= i < |a| && FileOf(dir, p, k.files[p], a[i]);
      assert b[i].key == a[i].key && b[i].psk == a[i].psk;
      assert FileOf(dir, p, k.files[p], b[i]);
    }
    forall c | c in k.log ensures exists i :: 0 <= i < |b| && CallFor(c, b[i]) {
      var i :| 0 <= i < |a| && CallFor(c, a[i]);
      assert b[i].key == a[i].key && b[i].ip == a[i].ip && b[i].psk == a[i].psk;
      assert CallFor(c, b[i]);
    }
  }

  // ---- steps that leave the kernel alone ----------------------------------

  lemma KernelInvUnderGrowth(c: Config, s: State, s': State)
    requires KernelInv(c, s) && Extends(s.db.peers, s'.db.peers) && s'.kern == s.kern && s'.sync == s.sync
    requires forall i | 0 <= i < |s.db.peers| ::
               s'.db.peers[i].disabled && !s.db.peers[i].disabled ==> s'.db.peers[i].pending
    requires forall i | 0 <= i < |s.db.peers| :: s.db.peers[i].pending ==> s'.db.peers[i].pending
    requires forall i | |s.db.peers| <= i < |s'.db.peers| :: s'.db.peers[i].key !in s.kern.peers
    ensures KernelInv(c, s')
  {
    hide PskFilePath, Expected, FilesOK, LogOK;
    FilesAndLogExtend(c.pskDir, s.kern, s.db.peers, s'.db.peers);
    forall i | 0 <= i < |s.db.peers|
      ensures s'.db.peers[i].id == s.db.peers[i].id && s'.db.peers[i].key == s.db.peers[i].key
      ensures s'.db.peers[i].ip == s.db.peers[i].ip && s'.db.peers[i].psk == s.db.peers[i].psk
      ensures s.db.peers[i].disabled ==> s'.db.peers[i].disabled
    {
      assert s'.db.peers[i] == s.db.peers[i].(disabled := s'.db.peers[i].disabled, pending := s'.db.peers[i].pending);
    }
  }

  lemma TableStepsKeepKernel(c: Config, s: State, l: Label)
    requires Inv(c, s) && Enabled(c, s, l)
    requires TableStep(l)
    ensures KernelInv(c, Exec(c, s, l))
  {
    hide Hosts, IsBase64, RowsOK, Ledger, Segment, Allocated, Select, Upsert, KernelInv, KeysAreBase64;
    var s' := Exec(c, s, l);
    RowsExtend(c, s, l);
    if l.TxCommit? {
      assert JobOK(c, s, s.jobs[l.j]);
    }
    KernelInvUnderGrowth(c, s, s');
  }

  // ---- steps of the syncer ------------------------------------------------

  lemma {:induction false} FreshListing(peers: seq<Row>, f: Filter)
    requires RowsOK(peers)
    ensures HeldOK(Select(peers, f), peers)
    ensures forall r | r in Select(peers, f) :: 1 <= r.id <= |peers| && r == peers[r.id - 1] && Passes(f, r)
  {
    hide Select, Passes;
    assert forall i | 0 <= i < |peers| :: peers[i].id == 1 + i;
    hide RowsOK;
    assert HeldOK(Select(peers, f), peers) by {
      SelectShape(peers, f, 1);
    }
    hide HeldOK;
    forall r | r in Select(peers, f) ensures 1 <= r.id <= |peers| && r == peers[r.id - 1] && Passes(f, r) {
      var j :| 0 <= j < |Select(peers, f)| && Select(peers, f)[j] == r;
      SelectMember(peers, f, 1, j);
    }
  }

  lemma ListingStepsKeepKernel(c: Config, s: State, l: Label)
    requires Inv(c, s) && Enabled(c, s, l)
    requires l.SyncList? || l.SyncShow? || l.SyncListEnabled? || l.SyncStop?
    ensures KernelInv(c, Exec(c, s, l))
  {
    hide RowsOK, Ledger, Segment, Select, JobsOK, Syncer.Faithful, FilesOK, LogOK, KeysAreBase64;
    FreshListing(s.db.peers, PendingOnly);
    if l.SyncListEnabled? {
      FreshListing(s.db.peers, MissingFrom(s.sync.kernel));
    }
  }

  // One AddPeer or RemovePeer: no other row's kernel peer changes, so no
  // assigned address is ever taken from the peer that holds it.
  lemma ApplyTakesNothing(c: Config, s: State, f: Fault)
    requires Inv(c, s) && Enabled(c, s, SyncApply(f))
    ensures var s' := Exec(c, s, SyncApply(f));
            && Syncer.Faithful(s.db.peers, s'.kern.peers)
            && (forall i | 0 <= i < |s.db.peers| && i != s.sync.todo[0].id - 1 ::
                  && (s.db.peers[i].key in s'.kern.peers <==> s.db.peers[i].key in s.kern.peers)
                  && (s.db.peers[i].key in s.kern.peers ==>
                        s'.kern.peers[s.db.peers[i].key] == s.kern.peers[s.db.peers[i].key]))
            && (s.sync.todo[0].key in s'.kern.peers <==>
                  if Syncer.ApplyOk(s.sync.todo[0], f) then !s.sync.todo[0].disabled
                  else s.sync.todo[0].key in s.kern.peers)
            && (Syncer.Applied(s.kern, c.pskDir, s.sync.todo[0], f).1 == Syncer.ApplyOk(s.sync.todo[0], f))
  {
    hide Syncer.Applied, Syncer.ApplyOk, Expected, Ledger, Segment, JobsOK, FilesOK, LogOK, KeysAreBase64;
    var r := s.sync.todo[0];
    assert Held(s.sync)[0] == r;
    Syncer.AppliedEffect(s.kern, c.pskDir, r, f);
    forall i | 0 <= i < |s.db.peers| && i != r.id - 1
      ensures s.db.peers[i].key != r.key
      ensures s.db.peers[i].key in s.kern.peers ==> r.ip !in s.kern.peers[s.db.peers[i].key].allowed
    {
      assert s.db.peers[i].key != s.db.peers[r.id - 1].key && s.db.peers[i].ip != s.db.peers[r.id - 1].ip;
      Syncer.ExpectedAllows(s.db.peers[i].ip, s.db.peers[i].psk, r.ip);
    }
  }

  lemma PrefixIsPrefix(s: string, n: nat)
    ensures Prefix(s, n) <= s
  {
  }

  // The PSK directory and the log after one AddPeer or RemovePeer for row r.
  lemma ApplyKeepsFiles(dir: string, k: Kern, r: Row, row: Row, f: Fault, peers: seq<Row>)
    requires FilesOK(dir, k.files, peers) && LogOK(k.log, peers) && row in peers && CopyOf(r, row)
    ensures var k' := Syncer.Applied(k, dir, r, f).0;
            FilesOK(dir, k'.files, peers) && LogOK(k'.log, peers)
  {
    var k' := Syncer.Applied(k, dir, r, f).0;
    hide PskFilePath, KernelSet;
    var n :| 0 <= n < |peers| && peers[n] == row;
    PrefixIsPrefix(Secret(r.psk) + "\n", if f.psk.WriteFails? then f.psk.written else 0);
    forall p | p in k'.files ensures exists i :: 0 <= i < |peers| && FileOf(dir, p, k'.files[p], peers[i]) {
      if p in k.files && k'.files[p] == k.files[p] {
        var i :| 0 <= i < |peers| && FileOf(dir, p, k.files[p], peers[i]);
      } else {
        assert FileOf(dir, p, k'.files[p], peers[n]);
      }
    }
    forall call | call in k'.log ensures exists i :: 0 <= i < |peers| && CallFor(call, peers[i]) {
      if call in k.log {
        var i :| 0 <= i < |peers| && CallFor(call, peers[i]);
      } else {
        assert CallFor(call, peers[n]);
      }
    }
  }

  lemma ApplyStepKeepsKernel(c: Config, s: State, f: Fault)
    requires Inv(c, s) && Enabled(c, s, SyncApply(f))
    ensures KernelInv(c, Exec(c, s, SyncApply(f)))
  {
    hide Syncer.Applied, Syncer.ApplyOk, Expected, Ledger, Segment, JobsOK, FilesOK, LogOK, RowsOK, KeysAreBase64;
    var s', r := Exec(c, s, SyncApply(f)), s.sync.todo[0];
    assert Held(s.sync)[0] == r;
    ApplyTakesNothing(c, s, f);
    assert s.db.peers[r.id - 1] in s.db.peers;
    ApplyKeepsFiles(c.pskDir, s.kern, r, s.db.peers[r.id - 1], f, s.db.peers);
    assert Held(s'.sync) == s.sync.todo || Held(s'.sync) == s.sync.todo[1..];
  }

  lemma ExtensionFaithful(a: seq<Row>, b: seq<Row>, peers: map<string, KPeer>)
    requires Syncer.Faithful(a, peers) && Extends(a, b) && |a| == |b|
    ensures Syncer.Faithful(b, peers)
  {
    hide Expected;
    forall i | 0 <= i < |b| ensures b[i].key == a[i].key && b[i].ip == a[i].ip && b[i].psk == a[i].psk {
      assert b[i] == a[i].(disabled := b[i].disabled, pending := b[i].pending);
    }
  }

  // Marking the first held row leaves the copies of the others good.
  lemma MarkedHeld(held: seq<Row>, peers: seq<Row>, peers': seq<Row>)
    requires HeldOK(held, peers) && held != []
    requires peers' == peers || peers' == SetSynced(peers, held[0].id)
    ensures HeldOK(held[1..], peers')
  {
    var rest := held[1..];
    forall i | 0 <= i < |rest|
      ensures 1 <= rest[i].id <= |peers'| && peers'[rest[i].id - 1] == peers[rest[i].id - 1]
              && CopyOf(rest[i], peers[rest[i].id - 1])
    {
      assert rest[i] == held[i + 1] && held[0].id < held[i + 1].id;
    }
    hide CopyOf, SetSynced;
    forall i, j | 0 <= i < j < |rest| ensures rest[i].id < rest[j].id {
      assert rest[i] == held[i + 1] && rest[j] == held[j + 1];
    }
  }

  lemma MarkStepKeepsKernel(c: Config, s: State, ok: bool)
    requires Inv(c, s) && Enabled(c, s, SyncMark(ok))
    ensures KernelInv(c, Exec(c, s, SyncMark(ok)))
  {
    InvHasDb(c, s);
    hide DbInv, KeysAreBase64, FilesOK, LogOK, HeldOK, Syncer.Faithful, Extends, SetSynced, Locked;
    var s' := Exec(c, s, SyncMark(ok));
    RowsExtend(c, s, SyncMark(ok));
    FilesAndLogExtend(c.pskDir, s.kern, s.db.peers, s'.db.peers);
    assert Held(s.sync)[0] == s.sync.r && Held(s.sync)[1..] == s.sync.todo == Held(s'.sync);
    MarkedHeld(Held(s.sync), s.db.peers, s'.db.peers);
    assert |s.db.peers| == |s'.db.peers| by { SyncedLength(s.db.peers, s.sync.r.id); }
    ExtensionFaithful(s.db.peers, s'.db.peers, s.kern.peers);
  }

  lemma SyncedLength(peers: seq<Row>, id: int)
    ensures |SetSynced(peers, id)| == |peers|
  {
  }

  // The syncer adds only rows' keys.
  lemma KernelKeysKept(c: Config, s: State, l: Label)
    requires Inv(c, s) && Enabled(c, s, l)
    ensures KeysAreBase64(Exec(c, s, l).kern.peers)
  {
    hide Hosts, IsBase64, RowsOK, Ledger, Allocated, Select, Syncer.Applied, FreshKey, JobsOK, FilesOK, LogOK;
    if l.SyncApply? {
      var r := s.sync.todo[0];
      assert Held(s.sync)[0] == r;
      assert s.db.peers[r.id - 1].key == r.key;
      Syncer.AppliedEffect(s.kern, c.pskDir, r, l.f);
    }
  }

  lemma InvKept(c: Config, s: State, l: Label)
    requires Inv(c, s) && Enabled(c, s, l)
    ensures Inv(c, Exec(c, s, l))
  {
    hide DbInv, KernelInv, Exec, Enabled, KeysAreBase64;
    DbInvKept(c, s, l);
    KernelKeysKept(c, s, l);
    if l.SyncApply? {
      ApplyStepKeepsKernel(c, s, l.f);
    } else if l.SyncMark? {
      MarkStepKeepsKernel(c, s, l.ok);
    } else if l.Outside? {
      OutsideStepKeepsKernel(c, s, l.peers);
    } else if l.SyncList? || l.SyncShow? || l.SyncListEnabled? || l.SyncStop? {
      ListingStepsKeepKernel(c, s, l);
    } else {
      TableStepsKeepKernel(c, s, l);
    }
  }

  lemma OutsideStepKeepsKernel(c: Config, s: State, peers: map<string, KPeer>)
    requires Inv(c, s) && Enabled(c, s, Outside(peers))
    ensures KernelInv(c, Exec(c, s, Outside(peers)))
  {
    hide DbInv, FilesOK, LogOK, Expected, KeysAreBase64;
    if s.sync.Marking? {
      assert Held(s.sync)[0] == s.sync.r;
    }
  }

  // ---- disables that get lost ---------------------------------------------

  ghost predicate Safe(s: State) { Syncer.Safe(s.db.peers, s.kern.peers) }

  // MarkPeerSynced clears the flag of a row that was disabled after it was
  // listed as enabled, while the kernel holds the peer AddPeer just put there.
  predicate LosesDisable(s: State, l: Label) {
    && l == SyncMark(true) && s.sync.Marking? && !s.sync.r.disabled
    && 1 <= s.sync.r.id <= |s.db.peers| && s.db.peers[s.sync.r.id - 1].disabled
    && s.sync.r.key in s.kern.peers
  }

  lemma ApplyKeepsSafe(c: Config, s: State, f: Fault)
    requires Inv(c, s) && Safe(s) && Enabled(c, s, SyncApply(f))
    ensures Safe(Exec(c, s, SyncApply(f)))
  {
    hide Hosts, IsBase64, Ledger, Segment, FilesOK, LogOK, Syncer.Applied, Syncer.ApplyOk, Expected, RowsOK;
    hide KeysAreBase64, JobsOK;
    assert Held(s.sync)[0] == s.sync.todo[0];
    ApplyTakesNothing(c, s, f);
  }

  lemma MarkKeepsSafeUnlessLost(c: Config, s: State, ok: bool)
    requires Inv(c, s) && Safe(s) && Enabled(c, s, SyncMark(ok))
    ensures Safe(Exec(c, s, SyncMark(ok))) <==> !LosesDisable(s, SyncMark(ok))
  {
    hide DbInv, KeysAreBase64, Syncer.Faithful, FilesOK, LogOK;
    var s', r := Exec(c, s, SyncMark(ok)), s.sync.r;
    assert Held(s.sync)[0] == r;
    if LosesDisable(s, SyncMark(ok)) {
      assert s'.db.peers[r.id - 1].disabled && !s'.db.peers[r.id - 1].pending;
    }
  }

  lemma OtherStepsKeepSafe(c: Config, s: State, l: Label)
    requires Inv(c, s) && Safe(s) && Enabled(c, s, l) && !l.SyncApply? && !l.SyncMark?
    ensures Safe(Exec(c, s, l))
  {
    hide Hosts, IsBase64, RowsOK, Ledger, Segment, Allocated, Select, Upsert, KernelInv, KeysAreBase64;
    if l.TxCommit? {
      assert JobOK(c, s, s.jobs[l.j]);
    }
  }

  // That is the one and only step by which safety can be lost.
  lemma SafetyLostExactlyBy(c: Config, s: State, l: Label)
    requires Inv(c, s) && Safe(s) && Enabled(c, s, l)
    ensures Safe(Exec(c, s, l)) <==> !LosesDisable(s, l)
  {
    hide Inv, Safe, Exec, Enabled;
    if l.SyncApply? {
      ApplyKeepsSafe(c, s, l.f);
    } else if l.SyncMark? {
      MarkKeepsSafeUnlessLost(c, s, l.ok);
    } else {
      OtherStepsKeepSafe(c, s, l);
    }
  }

  // The window: the syncer still holds a copy of the row that says "enabled".
  predicate InWindow(s: State, id: int) {
    exists i :: 0 <= i < |Held(s.sync)| && Held(s.sync)[i].id == id && !Held(s.sync)[i].disabled
  }

  // The proviso: no DisablePeer(id) between the listing that returned the row as
  // enabled and its MarkPeerSynced(id).
  predicate Respectful(s: State, l: Label) { l.Disable? ==> !InWindow(s, l.id) }

  // Copies that say "enabled" say so truly.
  ghost predicate CopiesTrue(s: State) {
    forall i | 0 <= i < |Held(s.sync)| && 1 <= Held(s.sync)[i].id <= |s.db.peers| ::
      s.db.peers[Held(s.sync)[i].id - 1].disabled ==> Held(s.sync)[i].disabled
  }

  lemma RespectKeepsCopiesTrue(c: Config, s: State, l: Label)
    requires Inv(c, s) && CopiesTrue(s) && Enabled(c, s, l) && Respectful(s, l)
    ensures CopiesTrue(Exec(c, s, l)) && !LosesDisable(s, l)
  {
    TrueCopyIsNotLost(c, s, l);
    if l.SyncMark? || l.SyncApply? || l.SyncList? || l.SyncListEnabled? || l.SyncShow? || l.SyncStop? || l.Outside? {
      SyncStepsKeepCopiesTrue(c, s, l);
    } else {
      TableStepsKeepCopiesTrue(c, s, l);
    }
  }

  lemma TrueCopyIsNotLost(c: Config, s: State, l: Label)
    requires CopiesTrue(s)
    ensures !LosesDisable(s, l)
  {
    if s.sync.Marking? {
      assert Held(s.sync)[0] == s.sync.r;
    }
  }

  lemma SyncStepsKeepCopiesTrue(c: Config, s: State, l: Label)
    requires Inv(c, s) && CopiesTrue(s) && Enabled(c, s, l)
    requires l.SyncMark? || l.SyncApply? || l.SyncList? || l.SyncListEnabled? || l.SyncShow? || l.SyncStop?
             || l.Outside?
    ensures CopiesTrue(Exec(c, s, l))
  {
    hide Syncer.Applied, Select, Passes, HeldOK, RowsOK, TablesOK, JobsOK, KernelInv, KeysAreBase64, CopiesTrue;
    if l.SyncShow? || l.SyncStop? || l.Outside? {
      CopiesTrueFramed(s, Exec(c, s, l));
    }
    if l.SyncMark? {
      MarkKeepsCopiesTrue(c, s, l.ok);
    } else if l.SyncApply? {
      var s' := Exec(c, s, l);
      CopiesTrueOfTail(s, s');
    } else if l.SyncList? || l.SyncListEnabled? {
      assert RowsOK(s.db.peers) by { InvHasRows(c, s); }
      var f := if l.SyncList? then PendingOnly else MissingFrom(s.sync.kernel);
      FreshListing(s.db.peers, f);
      ListedCopiesTrue(Exec(c, s, l), f);
    }
  }

  lemma CopiesTrueFramed(s: State, s': State)
    requires CopiesTrue(s) && s'.db == s.db && (s'.sync == s.sync || Held(s'.sync) == [])
    ensures CopiesTrue(s')
  {
  }

  lemma ListedCopiesTrue(s: State, f: Filter)
    requires s.sync.Pass? && s.sync.todo == Select(s.db.peers, f)
    requires forall r | r in Select(s.db.peers, f) :: 1 <= r.id <= |s.db.peers| && r == s.db.peers[r.id - 1]
    ensures CopiesTrue(s)
  {
    hide Select;
    assert forall i | 0 <= i < |s.sync.todo| :: s.sync.todo[i] in s.sync.todo;
  }

  lemma MarkKeepsCopiesTrue(c: Config, s: State, ok: bool)
    requires CopiesTrue(s) && Enabled(c, s, SyncMark(ok))
    ensures CopiesTrue(Exec(c, s, SyncMark(ok)))
  {
    hide CopiesTrue, SetSynced, Locked;
    var s' := Exec(c, s, SyncMark(ok));
    assert Held(s.sync) == [s.sync.r] + s.sync.todo && Held(s'.sync) == s.sync.todo;
    assert s'.db.peers == if ok then SetSynced(s.db.peers, s.sync.r.id) else s.db.peers;
    hide Exec, Enabled, Held;
    MarkedCopiesTrue(s, s', s.sync.r.id);
  }

  lemma MarkedCopiesTrue(s: State, s': State, id: int)
    requires CopiesTrue(s) && Held(s.sync) != [] && Held(s'.sync) == Held(s.sync)[1..]
    requires s'.db.peers == s.db.peers || s'.db.peers == SetSynced(s.db.peers, id)
    ensures CopiesTrue(s')
  {
    hide Held;
    assert |s'.db.peers| == |s.db.peers|;
    assert forall i | 0 <= i < |s.db.peers| :: s'.db.peers[i].disabled == s.db.peers[i].disabled;
    hide SetSynced;
  }

  lemma CopiesTrueOfTail(s: State, s': State)
    requires CopiesTrue(s) && s.sync.Pass? && s.sync.todo != [] && s'.db == s.db
    requires Held(s'.sync) == s.sync.todo[1..] || Held(s'.sync) == [s.sync.todo[0]] + s.sync.todo[1..]
    ensures CopiesTrue(s')
  {
    var held := Held(s'.sync);
    var k := if held == s.sync.todo[1..] then 1 else 0;
    forall i | 0 <= i < |held| ensures held[i] == Held(s.sync)[i + k] {
    }
    hide Held;
  }

  lemma InvHasRows(c: Config, s: State)
    requires Inv(c, s)
    ensures RowsOK(s.db.peers)
  {
  }

  predicate TableStep(l: Label) {
    && !l.SyncList? && !l.SyncApply? && !l.SyncMark? && !l.SyncShow? && !l.SyncListEnabled? && !l.SyncStop?
    && !l.Outside?
  }

  // Of those steps only DisablePeer disables a row, and only its own.
  lemma OnlyDisableDisables(c: Config, s: State, l: Label)
    requires DbInv(c, s) && Enabled(c, s, l) && TableStep(l)
    ensures var s' := Exec(c, s, l);
            && s'.sync == s.sync
            && forall i | 0 <= i < |s.db.peers| && i < |s'.db.peers| ::
                 s'.db.peers[i].disabled && !s.db.peers[i].disabled ==> l == Disable(i + 1)
  {
    hide Hosts, IsBase64, RowsOK, Ledger, Segment, Allocated, FreshKey, HasKey, HasIP, Upsert;
    if l.TxCommit? {
      assert JobOK(c, s, s.jobs[l.j]);
    }
  }

  lemma TableStepsKeepCopiesTrue(c: Config, s: State, l: Label)
    requires Inv(c, s) && CopiesTrue(s) && Enabled(c, s, l) && Respectful(s, l) && TableStep(l)
    ensures CopiesTrue(Exec(c, s, l))
  {
    hide Inv, DbInv, Exec, Enabled, Held, InWindow, TableStep, HeldOK, Respectful;
    InvHasHeld(c, s);
    InvHasDb(c, s);
    OnlyDisableDisables(c, s, l);
    var s' := Exec(c, s, l);
    forall i | 0 <= i < |Held(s.sync)| && 1 <= Held(s.sync)[i].id <= |s'.db.peers|
      ensures s'.db.peers[Held(s.sync)[i].id - 1].disabled ==> Held(s.sync)[i].disabled
    {
      HeldInTable(Held(s.sync), s.db.peers, i);
      RespectedCopy(s, l, i);
    }
  }

  lemma HeldInTable(held: seq<Row>, peers: seq<Row>, i: int)
    requires HeldOK(held, peers) && 0 <= i < |held|
    ensures 1 <= held[i].id <= |peers|
  {
  }

  lemma RespectedCopy(s: State, l: Label, i: int)
    requires Respectful(s, l) && 0 <= i < |Held(s.sync)|
    ensures l == Disable(Held(s.sync)[i].id) ==> Held(s.sync)[i].disabled
  {
    if !Held(s.sync)[i].disabled {
      InTheWindow(s, i);
    }
  }

  lemma InTheWindow(s: State, i: int)
    requires 0 <= i < |Held(s.sync)| && !Held(s.sync)[i].disabled
    ensures InWindow(s, Held(s.sync)[i].id)
  {
  }

  lemma InvHasHeld(c: Config, s: State)
    requires Inv(c, s)
    ensures HeldOK(Held(s.sync), s.db.peers)
  {
  }

  // ---- runs ---------------------------------------------------------------

  ghost predicate Init(s: State) {
    && s.db == Tables([], map[], []) && s.commits == 0 && s.jobs == map[]
    && s.kern.files == map[] && s.kern.log == [] && s.sync == Idle && KeysAreBase64(s.kern.peers)
  }

  ghost predicate IsRun(c: Config, states: seq<State>, labels: seq<Label>) {
    && |states| == |labels| + 1 && Init(states[0])
    && forall i | 0 <= i < |labels| ::
         Enabled(c, states[i], labels[i]) && states[i + 1] == Exec(c, states[i], labels[i])
  }

  lemma InitInv(c: Config, s: State)
    requires Init(s)
    ensures Inv(c, s) && Safe(s) && CopiesTrue(s)
  {
  }

  // Every reachable state satisfies the invariant: unique keys and addresses,
  // addresses an initial segment, quota books balanced and within the limit,
  // kernel peers faithful to their rows, PSK files and `wg` calls each a row's own.
  lemma {:induction false} Reachable(c: Config, states: seq<State>, labels: seq<Label>, n: nat)
    requires IsRun(c, states, labels) && n < |states|
    ensures Inv(c, states[n])
  {
    hide Inv, Exec, Enabled;
    if n == 0 {
      InitInv(c, states[0]);
    } else {
      Reachable(c, states, labels, n - 1);
      InvKept(c, states[n - 1], labels[n - 1]);
    }
  }

  // In every reachable state a row with disabled = 1 and pending_sync = 0 has no
  // kernel peer, as long as the proviso holds.
  lemma {:induction false} DisabledStaysOut(c: Config, states: seq<State>, labels: seq<Label>, n: nat)
    requires IsRun(c, states, labels) && n < |states|
    requires forall i | 0 <= i < |labels| :: Respectful(states[i], labels[i])
    ensures Safe(states[n]) && CopiesTrue(states[n])
  {
    hide Inv, Exec, Enabled, Safe, CopiesTrue, LosesDisable, Respectful;
    if n == 0 {
      InitInv(c, states[0]);
    } else {
      DisabledStaysOut(c, states, labels, n - 1);
      Reachable(c, states, labels, n - 1);
      RespectKeepsCopiesTrue(c, states[n - 1], labels[n - 1]);
      SafetyLostExactlyBy(c, states[n - 1], labels[n - 1]);
    }
  }

  // Without the proviso: a run is safe throughout exactly when none of its marks
  // clears the flag of a row disabled behind the syncer's back.
  lemma {:induction false} SafeThroughoutExactly(c: Config, states: seq<State>, labels: seq<Label>)
    requires IsRun(c, states, labels)
    ensures (forall n | 0 <= n < |states| :: Safe(states[n]))
            <==> (forall n | 0 <= n < |labels| :: !LosesDisable(states[n], labels[n]))
  {
    hide Inv, Exec, Enabled, Safe, LosesDisable;
    if forall n | 0 <= n < |states| :: Safe(states[n]) {
      forall n | 0 <= n < |labels| ensures !LosesDisable(states[n], labels[n]) {
        Reachable(c, states, labels, n);
        assert Safe(states[n + 1]);
        SafetyLostExactlyBy(c, states[n], labels[n]);
      }
    }
    if forall n | 0 <= n < |labels| :: !LosesDisable(states[n], labels[n]) {
      forall n | 0 <= n < |states| ensures Safe(states[n]) {
        SafeUpTo(c, states, labels, n);
      }
    }
  }

  lemma {:induction false} SafeUpTo(c: Config, states: seq<State>, labels: seq<Label>, n: nat)
    requires IsRun(c, states, labels) && n < |states|
    requires forall i | 0 <= i < |labels| :: !LosesDisable(states[i], labels[i])
    ensures Safe(states[n])
  {
    hide Inv, Exec, Enabled, Safe, LosesDisable;
    if n == 0 {
      InitInv(c, states[0]);
    } else {
      SafeUpTo(c, states, labels, n - 1);
      Reachable(c, states, labels, n - 1);
      SafetyLostExactlyBy(c, states[n - 1], labels[n - 1]);
    }
  }

  // The proviso is necessary: create, list, disable, add, mark. In the end the
  // kernel keeps a peer whose row says "disabled, synced".
  lemma ProvisoIsNecessary(c: Config, key: string) returns (states: seq<State>, labels: seq<Label>)
    requires c.ones <= 27 && IsBase64(key)
    ensures IsRun(c, states, labels) && |states| == 7
    ensures labels[3] == Disable(1) && !Respectful(states[3], labels[3])
    ensures forall i | 0 <= i < |labels| && i != 3 :: Respectful(states[i], labels[i])
    ensures !Safe(states[6])
  {
    hide Hosts, Allocated, Select, Syncer.Applied, IsBase64, Exec, Enabled, Safe, Respectful;
    var s0 := State(Tables([], map[], []), 0, map[], Kern(map[], map[], []), Idle);
    var s1 := FirstAllocation(c, s0);
    var row := Row(1, key, None, s1.jobs[0].ip, false, true, None);
    var s2, s3, s4 := FirstListing(c, s1, key, row);
    OpensWindow(s3, row);
    var s5, s6 := FirstAddition(c, s4, row);
    labels := [AdminAllocate(0), AdminCreate(0, key, None), SyncList, Disable(1), SyncApply(NO_FAULT), SyncMark(true)];
    states := [s0, s1, s2, s3, s4, s5, s6];
    SixSteps(c, states, labels);
    NoOtherDisable(states, labels);
  }

  lemma OpensWindow(s: State, row: Row)
    requires s.sync == Pass(true, [row]) && !row.disabled
    ensures !Respectful(s, Disable(row.id))
  {
    assert Held(s.sync)[0] == row;
  }

  lemma NoOtherDisable(states: seq<State>, labels: seq<Label>)
    requires |states| == 7 && |labels| == 6 && !labels[0].Disable? && !labels[1].Disable? && !labels[2].Disable?
    requires !labels[4].Disable? && !labels[5].Disable?
    ensures forall i | 0 <= i < |labels| && i != 3 :: Respectful(states[i], labels[i])
  {
    forall i | 0 <= i < |labels| && i != 3 ensures Respectful(states[i], labels[i]) {
      assert i == 0 || i == 1 || i == 2 || i == 4 || i == 5;
    }
  }

  lemma SixSteps(c: Config, states: seq<State>, labels: seq<Label>)
    requires |states| == 7 && |labels| == 6 && Init(states[0])
    requires Enabled(c, states[0], labels[0]) && states[1] == Exec(c, states[0], labels[0])
    requires Enabled(c, states[1], labels[1]) && states[2] == Exec(c, states[1], labels[1])
    requires Enabled(c, states[2], labels[2]) && states[3] == Exec(c, states[2], labels[2])
    requires Enabled(c, states[3], labels[3]) && states[4] == Exec(c, states[3], labels[3])
    requires Enabled(c, states[4], labels[4]) && states[5] == Exec(c, states[4], labels[4])
    requires Enabled(c, states[5], labels[5]) && states[6] == Exec(c, states[5], labels[5])
    ensures IsRun(c, states, labels)
  {
    hide Enabled, Exec, Init;
    forall i | 0 <= i < |labels|
      ensures Enabled(c, states[i], labels[i]) && states[i + 1] == Exec(c, states[i], labels[i])
    {
      assert i == 0 || i == 1 || i == 2 || i == 3 || i == 4 || i == 5;
    }
  }

  lemma FirstAllocation(c: Config, s0: State) returns (s1: State)
    requires c.ones <= 27 && s0 == State(Tables([], map[], []), 0, map[], Kern(map[], map[], []), Idle)
    ensures Enabled(c, s0, AdminAllocate(0)) && s1 == Exec(c, s0, AdminAllocate(0))
    ensures 0 in s1.jobs && s1.jobs[0].Admin? && s1 == s0.(jobs := map[0 := Admin(s1.jobs[0].ip, 0)])
  {
    Ipam.RoomForHosts(c.base, c.ones, c.serverAddr);
    AllocatesNext(c, []);
    s1 := Exec(c, s0, AdminAllocate(0));
  }

  // Created, listed, disabled.
  lemma FirstListing(c: Config, s1: State, key: string, row: Row) returns (s2: State, s3: State, s4: State)
    requires IsBase64(key) && row == Row(1, key, None, row.ip, false, true, None)
    requires s1 == State(Tables([], map[], []), 0, map[0 := Admin(row.ip, 0)], Kern(map[], map[], []), Idle)
    ensures Enabled(c, s1, AdminCreate(0, key, None)) && s2 == Exec(c, s1, AdminCreate(0, key, None))
    ensures Enabled(c, s2, SyncList) && s3 == Exec(c, s2, SyncList)
    ensures Enabled(c, s3, Disable(1)) && s4 == Exec(c, s3, Disable(1))
    ensures s3.sync == Pass(true, [row])
    ensures s4 == Disabled(row)
  {
    s2 := Exec(c, s1, AdminCreate(0, key, None));
    assert s2 == State(Tables([row], map[], []), 1, map[], Kern(map[], map[], []), Idle);
    assert Select([row], PendingOnly) == [row];
    s3 := Exec(c, s2, SyncList);
    s4 := Exec(c, s3, Disable(1));
  }

  // The one row there is was disabled after the syncer listed it.
  function Disabled(row: Row): State {
    State(Tables([row.(disabled := true)], map[], []), 2, map[], Kern(map[], map[], []), Pass(true, [row]))
  }

  // Added to the kernel, marked synced.
  lemma FirstAddition(c: Config, s4: State, row: Row) returns (s5: State, s6: State)
    requires s4 == Disabled(row) && row == Row(1, row.key, None, row.ip, false, true, None)
    ensures Enabled(c, s4, SyncApply(NO_FAULT)) && s5 == Exec(c, s4, SyncApply(NO_FAULT))
    ensures Enabled(c, s5, SyncMark(true)) && s6 == Exec(c, s5, SyncMark(true))
    ensures !Safe(s6)
  {
    Syncer.AppliedEffect(s4.kern, c.pskDir, row, NO_FAULT);
    hide Syncer.Applied;
    s5 := Exec(c, s4, SyncApply(NO_FAULT));
    assert s5.sync == Marking(true, [], row);
    s6 := Exec(c, s5, SyncMark(true));
    assert s6.db.peers[0] == row.(disabled := true, pending := false);
    assert row.key in s6.kern.peers;
  }

  // ---- what the invariant gives a reader ----------------------------------

  // A transaction that has written keeps everyone else from committing ...
  lemma WriterHoldsTables(c: Config, s: State, l: Label, j: nat)
    requires Inv(c, s) && Enabled(c, s, l) && j in s.jobs && s.jobs[j].Writer? && j in Exec(c, s, l).jobs
    ensures var s' := Exec(c, s, l);
            && s'.db == s.db && s'.jobs[j].Writer? && s'.jobs[j].user == s.jobs[j].user
            && s'.jobs[j].ip == s.jobs[j].ip && s'.jobs[j].key == s.jobs[j].key
  {
    hide KernelInv, TablesOK, JobOK, KeysAreBase64, Allocated, InsertPeer, AfterInsert, AfterClaim, AfterBump;
    hide Select, SetSynced, SetDisabled, Upsert, Syncer.Applied, FreshKey, OutsideOK;
    assert Locked(s);
  }

  lemma {:induction false} WriterHoldsOn(c: Config, states: seq<State>, labels: seq<Label>, m: nat, n: nat, j: nat)
    requires IsRun(c, states, labels) && m <= n < |states|
    requires forall k | m <= k <= n :: j in states[k].jobs
    requires states[m].jobs[j].Writer?
    ensures var b, b' := states[m].jobs[j], states[n].jobs[j];
            states[n].db == states[m].db && b'.Writer? && b'.user == b.user && b'.ip == b.ip && b'.key == b.key
  {
    hide Inv, Exec, Enabled;
    if m < n {
      WriterHoldsOn(c, states, labels, m, n - 1, j);
      Reachable(c, states, labels, n - 1);
      assert j in states[n].jobs && states[n] == Exec(c, states[n - 1], labels[n - 1]);
      WriterHoldsTables(c, states[n - 1], labels[n - 1], j);
    }
  }

  // ... and its commit turns the tables into those of a granted claim: one row,
  // one claim, one more on the quota.
  lemma CommitGrantsClaim(c: Config, s: State, j: nat)
    requires Inv(c, s) && Enabled(c, s, TxCommit(j))
    ensures Some(Exec(c, s, TxCommit(j)).db) == Claimed(s.db, s.jobs[j].user, s.jobs[j].key, None, s.jobs[j].ip)
  {
    hide KernelInv, TablesOK, KeysAreBase64, InsertPeer, AfterClaim, AfterBump, FreshKey, Holds, MayClaim;
    assert JobOK(c, s, s.jobs[j]);
  }

  ghost predicate Undropped(states: seq<State>, n: nat, p: nat, j: nat)
    requires n <= p < |states|
  {
    forall k | n <= k <= p :: j in states[k].jobs
  }

  // Over any run: a bot's insert that was accepted at step n and is not dropped
  // before its commit at step p adds exactly the row it was accepted for.
  lemma AcceptedInsertIsCommitted(c: Config, states: seq<State>, labels: seq<Label>, n: nat, p: nat, j: nat)
    requires IsRun(c, states, labels) && n < p < |labels|
    requires labels[n].TxWritePeer? && labels[n].j == j && labels[p] == TxCommit(j)
    requires Undropped(states, n, p, j)
    ensures var b := states[n].jobs[j];
            && b.Reader? && Some(states[p + 1].db) == Claimed(states[n].db, b.user, labels[n].key, None, b.ip)
            && states[p + 1].db.peers == states[n].db.peers
                 + [ClaimRow(|states[n].db.peers|, labels[n].key, b.ip, b.user)]
  {
    hide Inv, Exec, Enabled, HasKey, HasIP;
    assert j in states[n + 1].jobs && states[n + 1] == Exec(c, states[n], labels[n]);
    WriteMakesWriter(c, states[n], labels[n], j);
    WriterHoldsOn(c, states, labels, n + 1, p, j);
    Reachable(c, states, labels, p);
    CommitGrantsClaim(c, states[p], j);
  }

  lemma WriteMakesWriter(c: Config, s: State, l: Label, j: nat)
    requires Enabled(c, s, l) && l.TxWritePeer? && l.j == j && j in Exec(c, s, l).jobs
    ensures var s' := Exec(c, s, l);
            && s.jobs[j].Reader? && s'.db == s.db && s'.jobs[j].Writer? && s'.jobs[j].user == s.jobs[j].user
            && s'.jobs[j].ip == s.jobs[j].ip && s'.jobs[j].key == l.key
  {
    hide AfterInsert, FreshKey, Locked;
  }

  // The row a claim inserts.
  function ClaimRow(n: nat, key: string, ip: string, user: int): Row {
    Row(n + 1, key, None, ip, false, true, Some(user))
  }

  // With no other commit error, an attempt's insert is refused exactly when
  // another insert was committed since its Allocate read the table. Accepted, an
  // admin's row is there at once, a bot's at the commit of its transaction.
  lemma InsertSucceedsIffNoneSince(c: Config, s: State, j: nat, key: string, psk: Option<string>)
    requires Inv(c, s) && j in s.jobs && !HasKey(s.db.peers, key)
    ensures s.jobs[j].Admin? && Enabled(c, s, AdminCreate(j, key, psk)) ==>
              Exec(c, s, AdminCreate(j, key, psk)).db.peers ==
                if |s.db.peers| != s.jobs[j].seen then s.db.peers
                else s.db.peers + [Row(|s.db.peers| + 1, key, psk, s.jobs[j].ip, false, true, None)]
    ensures s.jobs[j].Reader? && Enabled(c, s, TxWritePeer(j, key)) && !Locked(s) && s.jobs[j].at == s.commits ==>
              (j in Exec(c, s, TxWritePeer(j, key)).jobs <==> |s.db.peers| == s.jobs[j].seen)
    ensures s.jobs[j].Writer? && Enabled(c, s, TxCommit(j)) ==>
              Exec(c, s, TxCommit(j)).db.peers ==
                s.db.peers + [ClaimRow(|s.db.peers|, s.jobs[j].key, s.jobs[j].ip, s.jobs[j].user)]
  {
    hide Exec, Enabled, Inv, HasKey, Locked;
    if s.jobs[j].Admin? && Enabled(c, s, AdminCreate(j, key, psk)) {
      AdminInsert(c, s, j, key, psk);
    }
    if s.jobs[j].Reader? && Enabled(c, s, TxWritePeer(j, key)) && !Locked(s) && s.jobs[j].at == s.commits {
      BotInsert(c, s, j, key);
    }
    if s.jobs[j].Writer? && Enabled(c, s, TxCommit(j)) {
      CommitGrantsClaim(c, s, j);
    }
  }

  lemma AdminInsert(c: Config, s: State, j: nat, key: string, psk: Option<string>)
    requires Inv(c, s) && Enabled(c, s, AdminCreate(j, key, psk)) && !HasKey(s.db.peers, key)
    ensures Exec(c, s, AdminCreate(j, key, psk)).db.peers ==
              if |s.db.peers| != s.jobs[j].seen then s.db.peers
              else s.db.peers + [Row(|s.db.peers| + 1, key, psk, s.jobs[j].ip, false, true, None)]
  {
    hide KernelInv, KeysAreBase64, RowsOK, Ledger, Segment, Hosts, HasKey, HasIP, FreshKey;
    assert JobOK(c, s, s.jobs[j]);
    AddressFreeIffNoInsertSince(c, s.db.peers, s.jobs[j].ip, s.jobs[j].seen);
  }

  lemma BotInsert(c: Config, s: State, j: nat, key: string)
    requires Inv(c, s) && Enabled(c, s, TxWritePeer(j, key)) && !HasKey(s.db.peers, key)
    requires !Locked(s) && s.jobs[j].at == s.commits
    ensures j in Exec(c, s, TxWritePeer(j, key)).jobs <==> |s.db.peers| == s.jobs[j].seen
  {
    hide KernelInv, KeysAreBase64, RowsOK, Ledger, Segment, Hosts, HasKey, HasIP, FreshKey, Locked;
    assert JobOK(c, s, s.jobs[j]);
    AddressFreeIffNoInsertSince(c, s.db.peers, s.jobs[j].ip, s.jobs[j].seen);
  }

  // What an attempt that has not written yet still holds from its Allocate.
  predicate Reading(b: Job, ip: string, seen: nat) { !b.Writer? && b.ip == ip && b.seen == seen }

  lemma {:induction false} AttemptKeepsItsReading(c: Config, states: seq<State>, labels: seq<Label>,
      m: nat, n: nat, j: nat)
    requires IsRun(c, states, labels) && m < n < |states|
    requires labels[m] == AdminAllocate(j) || (labels[m].BotAllocate? && labels[m].j == j)
    requires forall k | m < k <= n :: j in states[k].jobs && !states[k].jobs[j].Writer?
    ensures Reading(states[n].jobs[j], states[m + 1].jobs[j].ip, |states[m].db.peers|)
  {
    hide Allocated, InsertPeer, AfterInsert, Select, SetSynced, SetDisabled, Upsert, Syncer.Applied, FreshKey;
    hide AfterClaim, AfterBump;
    if m + 1 < n {
      AttemptKeepsItsReading(c, states, labels, m, n - 1, j);
      assert states[n] == Exec(c, states[n - 1], labels[n - 1]);
    } else {
      assert states[n] == Exec(c, states[m], labels[m]);
    }
  }

  ghost predicate NoRowAdded(states: seq<State>, m: nat, n: nat)
    requires m <= n < |states|
  {
    forall k | m <= k <= n :: |states[k].db.peers| == |states[m].db.peers|
  }

  // Over any run: an attempt allocates at step m and inserts at step n. Given a
  // new key and no other error, the insert takes effect exactly when no step
  // from m to n added a row; and a bot's insert once accepted, unless the
  // transaction is dropped, is at its commit the one row added since.
  lemma InsertSucceedsExactly(c: Config, states: seq<State>, labels: seq<Label>, m: nat, n: nat, j: nat)
    requires IsRun(c, states, labels) && m < n < |labels|
    requires labels[m] == AdminAllocate(j) || (labels[m].BotAllocate? && labels[m].j == j)
    requires forall k | m < k <= n :: j in states[k].jobs && !states[k].jobs[j].Writer?
    requires (labels[n].AdminCreate? || labels[n].TxWritePeer?) && labels[n].j == j
    requires !HasKey(states[n].db.peers, labels[n].key)
    ensures labels[n].AdminCreate? ==>
              (|states[n + 1].db.peers| == |states[n].db.peers| + 1 <==> NoRowAdded(states, m, n))
    ensures labels[n].TxWritePeer? && !Locked(states[n]) && states[n].jobs[j].at == states[n].commits ==>
              (j in states[n + 1].jobs <==> NoRowAdded(states, m, n))
    ensures labels[n].TxWritePeer? ==>
              forall p | n < p < |labels| && labels[p] == TxCommit(j) && Undropped(states, n, p, j) ::
                states[p + 1].db.peers == states[n].db.peers
                  + [ClaimRow(|states[n].db.peers|, labels[n].key, states[n].jobs[j].ip, states[n].jobs[j].user)]
  {
    hide Inv, Enabled, Exec, Locked, HasKey;
    AttemptKeepsItsReading(c, states, labels, m, n, j);
    Reachable(c, states, labels, n);
    var s := states[n];
    InsertSucceedsIffNoneSince(c, s, j, labels[n].key, if labels[n].AdminCreate? then labels[n].psk else None);
    forall k | m <= k <= n ensures |states[m].db.peers| <= |states[k].db.peers| <= |s.db.peers| {
      RowsPersist(c, states, labels, m, k);
      RowsPersist(c, states, labels, k, n);
    }
    EnabledKind(c, s, labels[n]);
    if labels[n].TxWritePeer? {
      forall p | n < p < |labels| && labels[p] == TxCommit(j) && Undropped(states, n, p, j)
        ensures states[p + 1].db.peers == states[n].db.peers
                  + [ClaimRow(|s.db.peers|, labels[n].key, s.jobs[j].ip, s.jobs[j].user)]
      {
        AcceptedInsertIsCommitted(c, states, labels, n, p, j);
      }
    }
  }

  lemma EnabledKind(c: Config, s: State, l: Label)
    requires Enabled(c, s, l)
    ensures l.AdminCreate? ==> s.jobs[l.j].Admin?
    ensures l.TxWritePeer? ==> s.jobs[l.j].Reader?
  {
  }

  // Rows are only ever added: an address, once assigned, stays with its key.
  lemma {:induction false} RowsPersist(c: Config, states: seq<State>, labels: seq<Label>, m: nat, n: nat)
    requires IsRun(c, states, labels) && m <= n < |states|
    ensures Extends(states[m].db.peers, states[n].db.peers)
  {
    hide Inv, DbInv, Exec, Enabled;
    if m < n {
      RowsPersist(c, states, labels, m, n - 1);
      Reachable(c, states, labels, n - 1);
      assert DbInv(c, states[n - 1]) by { InvHasDb(c, states[n - 1]); }
      RowsExtend(c, states[n - 1], labels[n - 1]);
      ExtendsTransitive(states[m].db.peers, states[n - 1].db.peers, states[n].db.peers);
    }
  }

  // An Allocate, admin's or bot's, leaves an open attempt with the least free address
  // of the table it read and the number of rows there were, and nothing else.
  lemma AllocateOpensAttempt(c: Config, s: State, l: Label)
    requires (l.AdminAllocate? || l.BotAllocate?) && l.j !in s.jobs
    requires Ipam.Allocation(c.base, c.ones, c.serverAddr, Some(IPs(s.db.peers))).Ip?
    ensures Enabled(c, s, l)
    ensures var s' := Exec(c, s, l);
            && s'.jobs.Keys == s.jobs.Keys + {l.j} && l.j !in s.jobs
            && (forall k | k in s.jobs :: s'.jobs[k] == s.jobs[k])
            && (if l.AdminAllocate? then s'.jobs[l.j].Admin? else s'.jobs[l.j].Bot? && s'.jobs[l.j].user == l.user)
            && s'.jobs[l.j].seen == |s.db.peers|
            && Ipam.Allocation(c.base, c.ones, c.serverAddr, Some(IPs(s.db.peers))) == Ipam.Ip(s'.jobs[l.j].ip)
            && s'.db == s.db && s'.commits == s.commits && s'.kern == s.kern && s'.sync == s.sync
  {
  }

  // The bot's upsert commits the sender's columns and the quota there was, or zero.
  lemma UpsertCommits(c: Config, s: State, l: Label)
    requires !Locked(s) && l.BotUpsert?
    ensures Enabled(c, s, l)
    ensures var s' := Exec(c, s, l);
            && s'.db.users.Keys == s.db.users.Keys + {l.user}
            && s'.db.users[l.user].username == (if l.username == "" then None else Some(l.username))
            && s'.db.users[l.user].firstName == (if l.firstName == "" then None else Some(l.firstName))
            && s'.db.users[l.user].quota == (if l.user in s.db.users then s.db.users[l.user].quota else 0)
            && s'.db.users[l.user].lastSeen == l.now && s'.db.users[l.user].member
            && (forall u | u in s.db.users && u != l.user :: s'.db.users[u] == s.db.users[u])
            && s'.db.peers == s.db.peers && s'.db.claims == s.db.claims && s'.commits == s.commits + 1
            && s'.jobs == s.jobs && s'.kern == s.kern && s'.sync == s.sync
  {
  }

  // An error, a rollback or a crash of an attempt takes the attempt away and leaves
  // the tables; what happens to the kernel from outside leaves everything else.
  lemma DropAndOutside(c: Config, s: State, l: Label)
    requires (l.Drop? && l.j in s.jobs) || (l.Outside? && OutsideOK(s, l.peers))
    ensures Enabled(c, s, l)
    ensures l.Drop? ==> Exec(c, s, l).jobs == s.jobs - {l.j} && Exec(c, s, l).kern == s.kern
    ensures l.Outside? ==> Exec(c, s, l).kern.peers == l.peers && Exec(c, s, l).jobs == s.jobs
                           && Exec(c, s, l).kern.files == s.kern.files && Exec(c, s, l).kern.log == s.kern.log
    ensures Exec(c, s, l).db == s.db && Exec(c, s, l).commits == s.commits && Exec(c, s, l).sync == s.sync
  {
  }

  // A DisablePeer, wherever it falls in a run, disables the row and leaves it to be
  // synced, and changes nothing else of the tables.
  lemma DisableDisables(c: Config, s: State, id: int)
    requires !Locked(s) && 1 <= id <= |s.db.peers|
    ensures Enabled(c, s, Disable(id))
    ensures var s' := Exec(c, s, Disable(id));
            && |s'.db.peers| == |s.db.peers| && s'.db.users == s.db.users && s'.db.claims == s.db.claims
            && s'.db.peers[id - 1].disabled && s'.db.peers[id - 1].pending
            && SameIdentity(s'.db.peers[id - 1], s.db.peers[id - 1])
            && (forall i | 0 <= i < |s.db.peers| && i != id - 1 :: s'.db.peers[i] == s.db.peers[i])
            && s'.kern == s.kern && s'.sync == s.sync && s'.jobs == s.jobs
  {
  }

  // Over any run: the row stays disabled from then on, and a tick that starts while
  // the disable is still to be synced, is left undisturbed and meets no failure
  // takes the peer out of the kernel.
  lemma DisableTakesEffect(c: Config, states: seq<State>, labels: seq<Label>, m: nat, n: nat, id: int,
      plan: Syncer.Plan)
    requires IsRun(c, states, labels) && m < n < |states| && labels[m] == Disable(id)
    requires 1 <= id <= |states[m].db.peers| && Syncer.Flawless(plan)
    ensures id <= |states[n].db.peers| && states[n].db.peers[id - 1].disabled
    ensures SameIdentity(states[n].db.peers[id - 1], states[m].db.peers[id - 1])
    ensures n == m + 1 ==> states[n].db.peers[id - 1].pending
    ensures states[n].db.peers[id - 1].pending ==>
              var w := Syncer.Tick(c.pskDir, WorldOf(states[n]), plan);
              && |w.rows| == |states[n].db.peers| && states[m].db.peers[id - 1].key !in w.kern.peers
              && w.rows[id - 1] == states[n].db.peers[id - 1].(pending := false)
  {
    var s, t, row := states[m + 1], states[n], states[m].db.peers[id - 1];
    assert Enabled(c, states[m], labels[m]) && s == Exec(c, states[m], labels[m]);
    hide Inv, Exec, Enabled, IsRun, Locked, Syncer.Tick, Syncer.Flawless;
    DisableDisables(c, states[m], id);
    RowsPersist(c, states, labels, m + 1, n);
    assert t.db.peers[id - 1] ==
             s.db.peers[id - 1].(disabled := t.db.peers[id - 1].disabled, pending := t.db.peers[id - 1].pending);
    if t.db.peers[id - 1].pending {
      Reachable(c, states, labels, n);
      InvHasSyncerInv(c, t);
      Syncer.FlawlessTickRemoves(c.pskDir, WorldOf(t), plan, id - 1);
    }
  }

  lemma InvHasSyncerInv(c: Config, s: State)
    requires Inv(c, s)
    ensures Syncer.Inv(WorldOf(s))
  {
  }

  lemma InvHasDb(c: Config, s: State)
    requires Inv(c, s)
    ensures DbInv(c, s)
  {
  }

  lemma ExtendsTransitive(x: seq<Row>, y: seq<Row>, z: seq<Row>)
    requires Extends(x, y) && Extends(y, z)
    ensures Extends(x, z)
  {
    forall i | 0 <= i < |x|
      ensures z[i] == x[i].(disabled := z[i].disabled, pending := z[i].pending) && (x[i].disabled ==> z[i].disabled)
    {
      assert y[i] == x[i].(disabled := y[i].disabled, pending := y[i].pending);
      assert z[i] == y[i].(disabled := z[i].disabled, pending := z[i].pending);
    }
  }

  // The assigned addresses are always the first hosts of the block, in order.
  lemma AssignedIsInitialSegment(c: Config, states: seq<State>, labels: seq<Label>, n: nat)
    requires IsRun(c, states, labels) && n < |states|
    ensures IPs(states[n].db.peers) <= Hosts(c)
  {
    hide Exec, Enabled, Hosts;
    Reachable(c, states, labels, n);
    hide KernelInv, JobsOK, Ledger, RowsOK;
    assert IPs(states[n].db.peers) == Hosts(c)[..|states[n].db.peers|];
  }

  // Whatever interleaves and whatever fails: quota_used is the number of the
  // user's claims and of the peers created for them, and never exceeds the limit.
  lemma QuotaHolds(c: Config, states: seq<State>, labels: seq<Label>, n: nat, user: int)
    requires IsRun(c, states, labels) && n < |states| && user in states[n].db.users
    ensures var t := states[n].db;
            && t.users[user].quota == ClaimsBy(t.claims, user) == PeersOf(t.peers, user)
            && t.users[user].quota <= (if c.limit > 0 then c.limit else 0)
  {
    hide Exec, Enabled;
    Reachable(c, states, labels, n);
    ClaimsCount(states[n].db.peers, user);
    hide KernelInv, JobsOK, Segment, RowsOK;
  }

  // And claims pair off with bot-created peers: one each, for the same user.
  lemma {:induction false} ClaimsPairOff(c: Config, states: seq<State>, labels: seq<Label>, n: nat)
    requires IsRun(c, states, labels) && n < |states|
    ensures ClaimsHaveRows(states[n].db) && RowsHaveClaims(states[n].db)
  {
    hide Exec, Enabled, ClaimsHaveRows, RowsHaveClaims;
    Reachable(c, states, labels, n);
    BooksPairOff(states[n].db);
  }

  // Every claim names a row created for its user, and no two name the same row.
  ghost predicate ClaimsHaveRows(t: Tables) {
    && (forall j | 0 <= j < |t.claims| ::
          1 <= t.claims[j].peer <= |t.peers| && t.peers[t.claims[j].peer - 1].tg == Some(t.claims[j].user))
    && (forall j, k | 0 <= j < k < |t.claims| :: t.claims[j].peer != t.claims[k].peer)
  }

  // Every row created for a user is named by a claim of that user.
  ghost predicate RowsHaveClaims(t: Tables) {
    forall i | 0 <= i < |t.peers| && t.peers[i].tg.Some? :: Claim(t.peers[i].tg.value, t.peers[i].id) in t.claims
  }

  lemma {:induction false} BooksPairOff(t: Tables)
    requires RowsOK(t.peers) && Books(t)
    ensures ClaimsHaveRows(t) && RowsHaveClaims(t)
  {
    hide ClaimsOf;
    assert ClaimsHaveRows(t) by {
      ClaimsNameRows(t.peers);
    }
    hide ClaimsHaveRows, RowsOK;
    forall i | 0 <= i < |t.peers| && t.peers[i].tg.Some?
      ensures Claim(t.peers[i].tg.value, t.peers[i].id) in t.claims
    {
      RowHasClaim(t.peers, i);
    }
  }

  // A PSK file is a row's own: present under that row's path only, with that
  // row's line or, after a failed write, its beginning.
  lemma PskFileIsOwn(c: Config, s: State, i: int)
    requires Inv(c, s) && 0 <= i < |s.db.peers|
    ensures var p := PskFilePath(c.pskDir, s.db.peers[i].key);
            && (p in s.kern.files ==> s.kern.files[p] <= Secret(s.db.peers[i].psk) + "\n")
            && (forall k | 0 <= k < |s.db.peers| && k != i :: PskFilePath(c.pskDir, s.db.peers[k].key) != p)
  {
    hide PskFilePath, Hosts, Ledger, LogOK, JobsOK, Secret, KeysAreBase64;
    var p := PskFilePath(c.pskDir, s.db.peers[i].key);
    forall k | 0 <= k < |s.db.peers| && k != i ensures PskFilePath(c.pskDir, s.db.peers[k].key) != p {
      PskFilePathInjective(c.pskDir, s.db.peers[k].key, s.db.peers[i].key);
    }
    if p in s.kern.files {
      var k :| 0 <= k < |s.db.peers| && FileOf(c.pskDir, p, s.kern.files[p], s.db.peers[k]);
    }
  }

  // Over any run, applying one row leaves the kernel peers of all other rows as
  // they were, and every peer of a row carries that row's address and PSK.
  lemma NoAddressIsTaken(c: Config, states: seq<State>, labels: seq<Label>, n: nat, i: int)
    requires IsRun(c, states, labels) && n < |labels| && labels[n].SyncApply?
    requires 0 <= i < |states[n].db.peers|
    ensures states[n].sync.Pass? && states[n].sync.todo != []
    ensures var row, k, k' := states[n].db.peers[i], states[n].kern.peers, states[n + 1].kern.peers;
            && (row.key in k' ==> k'[row.key] == Expected(row.ip, row.psk))
            && (row.id != states[n].sync.todo[0].id ==>
                  (row.key in k' <==> row.key in k) && (row.key in k ==> k'[row.key] == k[row.key]))
  {
    Reachable(c, states, labels, n);
    ApplyTakesNothing(c, states[n], labels[n].f);
    hide Expected, Ledger, Segment, JobsOK, FilesOK, LogOK, HeldOK;
  }

  // ---- the steps, run without interruption, are the code ------------------

  ghost predicate Leads(c: Config, s: State, labels: seq<Label>, t: State)
    decreases |labels|
  {
    if labels == [] then s == t
    else Enabled(c, s, labels[0]) && Leads(c, Exec(c, s, labels[0]), labels[1..], t)
  }

  lemma {:induction false} LeadsOn(c: Config, s: State, x: seq<Label>, t: State, y: seq<Label>, u: State)
    requires Leads(c, s, x, t) && Leads(c, t, y, u)
    ensures Leads(c, s, x + y, u)
    decreases |x|
  {
    hide Exec, Enabled;
    if x == [] {
      assert x + y == y;
    } else {
      assert (x + y)[0] == x[0] && (x + y)[1..] == x[1..] + y;
      LeadsOn(c, Exec(c, s, x[0]), x[1..], t, y, u);
    }
  }

  lemma LeadsOne(c: Config, s: State, l: Label)
    requires Enabled(c, s, l)
    ensures Leads(c, s, [l], Exec(c, s, l))
  {
    hide Exec, Enabled;
    assert [l][1..] == [];
  }

  function WorldOf(s: State): Syncer.World { Syncer.World(s.db.peers, s.kern) }

  // One row of a pass: SyncApply, and SyncMark if `wg` succeeded.
  lemma RowAsSteps(c: Config, s: State, f: Fault) returns (labels: seq<Label>, t: State)
    requires s.sync.Pass? && s.sync.todo != [] && !Locked(s)
    ensures Leads(c, s, labels, t)
    ensures t.sync == Pass(s.sync.first, s.sync.todo[1..]) && t.jobs == s.jobs
    ensures WorldOf(t) == Syncer.OneApplied(c.pskDir, WorldOf(s), s.sync.todo[0], f).0
  {
    hide Syncer.Applied, SetSynced;
    t := Exec(c, s, SyncApply(f));
    LeadsOne(c, s, SyncApply(f));
    labels := [SyncApply(f)];
    if t.sync.Marking? {
      LeadsOne(c, t, SyncMark(f.mark));
      LeadsOn(c, s, labels, t, [SyncMark(f.mark)], Exec(c, t, SyncMark(f.mark)));
      labels := labels + [SyncMark(f.mark)];
      t := Exec(c, t, SyncMark(f.mark));
    }
  }

  lemma {:induction false} PassAsSteps(c: Config, s: State, faults: int -> Fault) returns (labels: seq<Label>, t: State)
    requires s.sync.Pass? && !Locked(s)
    ensures Leads(c, s, labels, t)
    ensures t.sync == Pass(s.sync.first, []) && t.jobs == s.jobs
    ensures WorldOf(t) == Syncer.RunPass(c.pskDir, WorldOf(s), s.sync.todo, faults)
    decreases |s.sync.todo|
  {
    hide Syncer.OneApplied, Exec, Enabled, Locked;
    if s.sync.todo == [] {
      labels, t := [], s;
    } else {
      var x, u := RowAsSteps(c, s, faults(s.sync.todo[0].id));
      assert !Locked(u) by { SameLock(s, u); }
      var y, v := PassAsSteps(c, u, faults);
      LeadsOn(c, s, x, u, y, v);
      labels, t := x + y, v;
    }
  }

  lemma SameLock(s: State, t: State)
    requires t.jobs == s.jobs && !Locked(s)
    ensures !Locked(t)
  {
  }

  // RunOnce is a run of syncer steps: all that is proved of Tick holds of the
  // interleaved system whenever a tick is left undisturbed.
  lemma TickAsSteps(c: Config, s: State, plan: Syncer.Plan) returns (labels: seq<Label>, t: State)
    requires s.sync.Idle? && !Locked(s)
    ensures Leads(c, s, labels, t) && t.sync.Idle? && t.jobs == s.jobs
    ensures WorldOf(t) == Syncer.Tick(c.pskDir, WorldOf(s), plan)
  {
    hide Syncer.RunPass, Select, Locked;
    if !plan.list {
      return [], s;
    }
    var s1 := Exec(c, s, SyncList);
    LeadsOne(c, s, SyncList);
    assert !Locked(s1) by { SameLock(s, s1); }
    var x, s2 := PassAsSteps(c, s1, plan.pass1);
    LeadsOn(c, s, [SyncList], s1, x, s2);
    assert !Locked(s2) by { SameLock(s, s2); }
    var y, s3 := ReconcileAsSteps(c, s2, plan);
    LeadsOn(c, s, [SyncList] + x, s2, y, s3);
    labels, t := [SyncList] + x + y, s3;
  }

  lemma ReconcileAsSteps(c: Config, s: State, plan: Syncer.Plan) returns (labels: seq<Label>, t: State)
    requires s.sync == Pass(true, []) && !Locked(s)
    ensures Leads(c, s, labels, t) && t.sync.Idle? && t.jobs == s.jobs
    ensures WorldOf(t) == Syncer.Reconciled(c.pskDir, WorldOf(s), plan)
  {
    hide Syncer.RunPass, Select, Locked;
    labels, t := [], s;
    if plan.show {
      labels, t := Onward(c, s, labels, t, SyncShow);
      if plan.enabled {
        labels, t := Onward(c, s, labels, t, SyncListEnabled);
        assert !Locked(t) by { SameLock(s, t); }
        var y, u := PassAsSteps(c, t, plan.pass2);
        LeadsOn(c, s, labels, t, y, u);
        labels, t := labels + y, u;
      }
    }
    labels, t := Onward(c, s, labels, t, SyncStop);
  }

  lemma Onward(c: Config, s: State, x: seq<Label>, t: State, l: Label) returns (labels: seq<Label>, u: State)
    requires Leads(c, s, x, t) && Enabled(c, t, l)
    ensures labels == x + [l] && Leads(c, s, labels, u) && u == Exec(c, t, l)
  {
    hide Exec, Enabled;
    LeadsOne(c, t, l);
    u := Exec(c, t, l);
    LeadsOn(c, s, x, t, [l], u);
    labels := x + [l];
  }

  // The five statements of a claim, undisturbed, do what Store.Claimed says.
  lemma ClaimAsSteps(c: Config, s: State, j: nat, key: string) returns (t: State)
    requires j in s.jobs && s.jobs[j].Bot? && !Locked(s) && FreshKey(s, key)
    requires MayClaim(c, s.db, s.jobs[j].user) && Claimed(s.db, s.jobs[j].user, key, None, s.jobs[j].ip).Some?
    ensures Leads(c, s, [TxRead(j), TxWritePeer(j, key), TxWriteClaim(j), TxBump(j), TxCommit(j)], t)
    ensures Some(t.db) == Claimed(s.db, s.jobs[j].user, key, None, s.jobs[j].ip)
    ensures t == s.(db := t.db, commits := s.commits + 1, jobs := s.jobs - {j})
  {
    hide InsertPeer, FreshKey;
    var s1 := Exec(c, s, TxRead(j));
    LeadsOne(c, s, TxRead(j));
    assert !Locked(s1) by {
      forall k | k in s1.jobs ensures !s1.jobs[k].Writer? { if k != j { assert !s.jobs[k].Writer?; } }
    }
    assert FreshKey(s1, key) by { FreshKeyFramed(s, s1, key); }
    var x, s2 := Onward(c, s, [TxRead(j)], s1, TxWritePeer(j, key));
    var work := AfterInsert(s.db, s.jobs[j].user, key, None, s.jobs[j].ip).value;
    assert s2 == s.(jobs := s.jobs[j := Writer(s.jobs[j].user, s.jobs[j].ip, key, s.commits, 1, work)]);
    hide Exec, Enabled, AfterInsert, AfterClaim, AfterBump, Locked;
    assert FreshKey(s2, key) by { FreshKeyFramed(s, s2, key); }
    var s5 := RestOfClaim(c, s2, j);
    LeadsOn(c, s, x, s2, [TxWriteClaim(j), TxBump(j), TxCommit(j)], s5);
    assert x + [TxWriteClaim(j), TxBump(j), TxCommit(j)]
        == [TxRead(j), TxWritePeer(j, key), TxWriteClaim(j), TxBump(j), TxCommit(j)];
    assert s5.jobs == s.jobs - {j};
    t := s5;
    assert Claimed(s.db, s.jobs[j].user, key, None, s.jobs[j].ip)
        == Some(AfterBump(AfterClaim(work, s.jobs[j].user), s.jobs[j].user));
  }

  lemma RestOfClaim(c: Config, s: State, j: nat) returns (t: State)
    requires j in s.jobs && s.jobs[j].Writer? && s.jobs[j].stage == 1 && FreshKey(s, s.jobs[j].key)
    ensures Leads(c, s, [TxWriteClaim(j), TxBump(j), TxCommit(j)], t)
    ensures t == State(AfterBump(AfterClaim(s.jobs[j].work, s.jobs[j].user), s.jobs[j].user),
                       s.commits + 1, s.jobs - {j}, s.kern, s.sync)
  {
    hide FreshKey, AfterClaim, AfterBump;
    var b, key := s.jobs[j], s.jobs[j].key;
    LeadsOne(c, s, TxWriteClaim(j));
    var s3 := Exec(c, s, TxWriteClaim(j));
    var z, s4 := Onward(c, s, [TxWriteClaim(j)], s3, TxBump(j));
    assert s4 == s.(jobs := s.jobs[j := b.(stage := 3, work := AfterBump(AfterClaim(b.work, b.user), b.user))]);
    assert FreshKey(s4, key) by { FreshKeyFramed(s, s4, key); }
    var w, s5 := Onward(c, s, z, s4, TxCommit(j));
    assert w == [TxWriteClaim(j), TxBump(j), TxCommit(j)];
    assert s4.jobs - {j} == s.jobs - {j};
    t := s5;
  }

  lemma FreshKeyFramed(s: State, t: State, key: string)
    requires FreshKey(s, key) && t.db == s.db && t.kern == s.kern
    ensures FreshKey(t, key)
  {
  }

  // Reachable states meet the whole precondition of Syncer.Loop.RunOnce: every key
  // in the table or the kernel, foreign ones included, can be read back.
  lemma KeysReadBack(c: Config, s: State)
    requires Inv(c, s)
    ensures Syncer.CleanRows(s.db.peers) && RowsOK(s.db.peers)
    ensures forall k | k in s.kern.peers :: PeerList.Clean(k)
  {
    hide Ledger, Hosts, KernelInv, JobsOK, PeerList.Clean, IsBase64;
    forall i | 0 <= i < |s.db.peers| ensures PeerList.Clean(s.db.peers[i].key) {
      Base64IsClean(s.db.peers[i].key);
    }
    forall k | k in s.kern.peers ensures PeerList.Clean(k) {
      Base64IsClean(k);
    }
  }

  lemma Base64IsClean(key: string)
    requires IsBase64(key)
    ensures PeerList.Clean(key)
  {
  }
}
