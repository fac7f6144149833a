// internal/syncer/loop.go: keeping the kernel and the peers table in agreement.
//
// A pass works on a listing taken earlier, row by row, changing both sides as
// it goes. The specification is per row: what one tick does to a row depends
// on that row and on the calls made for it, and on no other row.
module Syncer {
  import opened Text
  import opened Store
  import opened Wg
  import PeerList

  datatype World = World(rows: seq<Row>, kern: Kern)

  // Which calls of one RunOnce fail. Ids are listed once per pass, so a fault
  // per id and pass is an arbitrary per-call pattern.
  datatype Plan = Plan(list: bool, pass1: int -> Fault, show: bool, enabled: bool, pass2: int -> Fault)

  ghost predicate Flawless(plan: Plan) {
    plan.list && plan.show && plan.enabled && forall id :: plan.pass1(id) == NO_FAULT && plan.pass2(id) == NO_FAULT
  }

  // ---- what the code does -------------------------------------------------

  // The `wg` half of applyOne.
  function Applied(kern: Kern, dir: string, r: Row, f: Fault): (Kern, bool) {
    if r.disabled then Removed(kern, dir, r.key, f) else Added(kern, dir, r.key, r.ip, r.psk, f)
  }

  function ApplyOk(r: Row, f: Fault): bool { if r.disabled then f.wg else AddOk(r.psk, f) }

  function OneApplied(dir: string, w: World, r: Row, f: Fault): (World, bool) {
    var (kern, ok) := Applied(w.kern, dir, r, f);
    if ok && f.mark then (World(SetSynced(w.rows, r.id), kern), 1 <= r.id <= |w.rows|)
    else (World(w.rows, kern), false)
  }

  function RunPass(dir: string, w: World, todo: seq<Row>, faults: int -> Fault): World
    decreases |todo|
  {
    if todo == [] then w
    else RunPass(dir, OneApplied(dir, w, todo[0], faults(todo[0].id)).0, todo[1..], faults)
  }

  function Pass1(dir: string, w: World, plan: Plan): World {
    RunPass(dir, w, Select(w.rows, PendingOnly), plan.pass1)
  }

  function Reconciled(dir: string, w: World, plan: Plan): World {
    if !plan.show || !plan.enabled then w
    else RunPass(dir, w, Select(w.rows, MissingFrom(w.kern.peers.Keys)), plan.pass2)
  }

  function Tick(dir: string, w: World, plan: Plan): World {
    if !plan.list then w else Reconciled(dir, Pass1(dir, w, plan), plan)
  }

  // ---- the syncer invariant -----------------------------------------------

  // A kernel peer with a row's key is that row's peer: its address, its PSK.
  ghost predicate Faithful(rows: seq<Row>, peers: map<string, KPeer>) {
    forall i | 0 <= i < |rows| :: rows[i].key in peers ==> peers[rows[i].key] == Expected(rows[i].ip, rows[i].psk)
  }

  ghost predicate Inv(w: World) { RowsOK(w.rows) && Faithful(w.rows, w.kern.peers) }

  predicate InKernel(w: World, i: int)
    requires 0 <= i < |w.rows|
  {
    w.rows[i].key in w.kern.peers
  }

  // The rows a listing copied are still there, unchanged but for the flag.
  ghost predicate Current(todo: seq<Row>, rows: seq<Row>) {
    && (forall j | 0 <= j < |todo| :: 1 <= todo[j].id <= |rows|
          && todo[j].(pending := false) == rows[todo[j].id - 1].(pending := false))
    && (forall i, j | 0 <= i < j < |todo| :: todo[i].id < todo[j].id)
  }

  lemma {:induction false} SelectCurrent(rows: seq<Row>, f: Filter)
    requires RowsOK(rows)
    ensures Current(Select(rows, f), rows)
    ensures forall i | 0 <= i < |rows| :: Listed(Select(rows, f), i + 1) <==> Passes(f, rows[i])
  {
    hide Select, Passes, Listed;
    assert forall i | 0 <= i < |rows| :: rows[i].id == 1 + i;
    hide RowsOK;
    assert Current(Select(rows, f), rows) by {
      SelectShape(rows, f, 1);
    }
    hide Current;
    forall i | 0 <= i < |rows| ensures Listed(Select(rows, f), i + 1) <==> Passes(f, rows[i]) {
      SelectListed(rows, f, 1, i + 1);
    }
  }

  ghost predicate Foreign(k: string, rows: seq<Row>) { !HasKey(rows, k) }

  // What is to be known of a row: its flag, and whether the kernel has its peer.
  datatype Fate = Fate(pending: bool, inKernel: bool)

  function FateOf(w: World, i: int): Fate
    requires 0 <= i < |w.rows|
  {
    Fate(w.rows[i].pending, InKernel(w, i))
  }

  // w' has w's rows, up to the flag.
  ghost predicate SameRows(w: World, w': World) {
    |w'.rows| == |w.rows| && forall i | 0 <= i < |w.rows| :: w'.rows[i].(pending := w.rows[i].pending) == w.rows[i]
  }

  // Kernel peers the table does not know stay, and stay as they are unless they
  // hold an address the table assigned.
  ghost predicate ForeignKept(w: World, w': World) {
    forall k | Foreign(k, w.rows) ::
      && (k in w'.kern.peers <==> k in w.kern.peers)
      && (k in w.kern.peers && (forall i | 0 <= i < |w.rows| :: w.rows[i].ip !in w.kern.peers[k].allowed) ==>
            w'.kern.peers[k] == w.kern.peers[k])
  }

  lemma ForeignKeptTransitive(a: World, b: World, c: World)
    requires SameRows(a, b) && ForeignKept(a, b) && ForeignKept(b, c)
    ensures ForeignKept(a, c)
  {
    forall k | Foreign(k, a.rows)
      ensures k in c.kern.peers <==> k in a.kern.peers
      ensures k in a.kern.peers && (forall i | 0 <= i < |a.rows| :: a.rows[i].ip !in a.kern.peers[k].allowed) ==>
                c.kern.peers[k] == a.kern.peers[k]
    {
      assert forall i | 0 <= i < |a.rows| :: b.rows[i].(pending := a.rows[i].pending) == a.rows[i];
      assert Foreign(k, b.rows);
    }
  }

  // The `wg` half: it changes the row's own kernel peer, and takes the row's
  // address from the others when it adds.
  lemma AppliedEffect(kern: Kern, dir: string, r: Row, f: Fault)
    ensures var (kern', ok) := Applied(kern, dir, r, f);
            && ok == ApplyOk(r, f)
            && (r.key in kern'.peers <==> if ok then !r.disabled else r.key in kern.peers)
            && (forall k | k != r.key :: k in kern'.peers <==> k in kern.peers)
            && (forall k | k in kern.peers && k != r.key && r.ip !in kern.peers[k].allowed ::
                  kern'.peers[k] == kern.peers[k])
            && ((r.key in kern.peers ==> kern.peers[r.key] == Expected(r.ip, r.psk)) ==>
                  (r.key in kern'.peers ==> kern'.peers[r.key] == Expected(r.ip, r.psk)))
  {
    hide KernelSet, Expected, PskFilePath, Secret;
    AddEffect(kern, dir, r.key, r.ip, r.psk, f);
  }

  // A listed copy of a row of w: the row itself, up to the flag.
  predicate CopyIn(r: Row, w: World) {
    1 <= r.id <= |w.rows| && r.(pending := false) == w.rows[r.id - 1].(pending := false)
  }

  // applyOne and its own row, ...
  lemma OwnRowApplied(dir: string, w: World, r: Row, f: Fault)
    requires Inv(w) && CopyIn(r, w)
    ensures var w', i := OneApplied(dir, w, r, f).0, r.id - 1;
            && FateOf(w', i) == PassRow(w.rows[i], InKernel(w, i), true, f)
            && (InKernel(w', i) ==> w'.kern.peers[r.key] == Expected(r.ip, r.psk))
  {
    hide Applied, ApplyOk, Expected, RowsOK;
    AppliedEffect(w.kern, dir, r, f);
    ApplyOkIgnoresFlag(r, w.rows[r.id - 1], f);
  }

  // ... another row, ...
  lemma OtherRowApplied(dir: string, w: World, r: Row, f: Fault, i: int)
    requires Inv(w) && CopyIn(r, w) && 0 <= i < |w.rows| && i != r.id - 1
    ensures var w' := OneApplied(dir, w, r, f).0;
            && w'.rows[i] == w.rows[i] && (InKernel(w', i) <==> InKernel(w, i))
            && (InKernel(w', i) ==> w'.kern.peers[w.rows[i].key] == Expected(w.rows[i].ip, w.rows[i].psk))
  {
    assert w.rows[i].key != r.key && w.rows[i].ip != r.ip;
    hide Applied, ApplyOk, Expected, RowsOK;
    AppliedEffect(w.kern, dir, r, f);
    ExpectedAllows(w.rows[i].ip, w.rows[i].psk, r.ip);
  }

  // ... and kernel peers of no row.
  lemma ForeignApplied(dir: string, w: World, r: Row, f: Fault)
    requires CopyIn(r, w)
    ensures ForeignKept(w, OneApplied(dir, w, r, f).0)
  {
    hide Applied, ApplyOk, Expected;
    AppliedEffect(w.kern, dir, r, f);
    assert HasKey(w.rows, r.key) by { assert w.rows[r.id - 1].key == r.key; }
    assert w.rows[r.id - 1].ip == r.ip;
  }

  lemma RowsApplied(dir: string, w: World, r: Row, f: Fault)
    requires RowsOK(w.rows) && CopyIn(r, w)
    ensures var w' := OneApplied(dir, w, r, f).0;
            RowsOK(w'.rows) && SameRows(w, w')
  {
    hide RowsOK, Applied;
    FlagsKeepRowsOK(w.rows, r.id);
  }

  lemma FaithfulApplied(dir: string, w: World, r: Row, f: Fault)
    requires Inv(w) && CopyIn(r, w) && SameRows(w, OneApplied(dir, w, r, f).0)
    ensures Faithful(OneApplied(dir, w, r, f).0.rows, OneApplied(dir, w, r, f).0.kern.peers)
  {
    var w' := OneApplied(dir, w, r, f).0;
    SameKeys(w, w');
    hide OneApplied, RowsOK, Expected;
    forall i | 0 <= i < |w.rows|
      ensures InKernel(w', i) ==> w'.kern.peers[w.rows[i].key] == Expected(w.rows[i].ip, w.rows[i].psk)
    {
      if i == r.id - 1 {
        OwnRowApplied(dir, w, r, f);
      } else {
        OtherRowApplied(dir, w, r, f, i);
      }
    }
  }

  // One applyOne touches its own row, its own kernel peer, and nothing else.
  lemma ApplyOneEffect(dir: string, w: World, r: Row, f: Fault)
    requires Inv(w) && CopyIn(r, w)
    ensures var w' := OneApplied(dir, w, r, f).0;
            && Inv(w') && SameRows(w, w') && ForeignKept(w, w')
            && (forall i | 0 <= i < |w.rows| ::
                  FateOf(w', i) == PassRow(w.rows[i], InKernel(w, i), i + 1 == r.id, f))
  {
    var w' := OneApplied(dir, w, r, f).0;
    hide RowsOK, ForeignKept, Expected, Faithful, Applied, ApplyOk;
    RowsApplied(dir, w, r, f);
    ForeignApplied(dir, w, r, f);
    hide OneApplied, SetSynced, SameRows;
    FaithfulApplied(dir, w, r, f);
    forall i | 0 <= i < |w.rows|
      ensures FateOf(w', i) == PassRow(w.rows[i], InKernel(w, i), i + 1 == r.id, f)
    {
      if i == r.id - 1 {
        OwnRowApplied(dir, w, r, f);
      } else {
        OtherRowApplied(dir, w, r, f, i);
      }
    }
  }

  lemma SameKeys(w: World, w': World)
    requires SameRows(w, w')
    ensures forall i | 0 <= i < |w.rows| :: w'.rows[i].key == w.rows[i].key && w'.rows[i].ip == w.rows[i].ip
                                            && w'.rows[i].psk == w.rows[i].psk && w'.rows[i].id == w.rows[i].id
    ensures forall k :: Foreign(k, w.rows) <==> Foreign(k, w'.rows)
  {
    forall i | 0 <= i < |w.rows| ensures w'.rows[i].key == w.rows[i].key && w'.rows[i].ip == w.rows[i].ip
                                         && w'.rows[i].psk == w.rows[i].psk && w'.rows[i].id == w.rows[i].id {
      assert w'.rows[i].(pending := w.rows[i].pending) == w.rows[i];
    }
  }

  lemma ExpectedAllows(ip: string, psk: Option<string>, other: string)
    ensures other in Expected(ip, psk).allowed <==> other == ip
  {
  }

  // ---- a pass, row by row -------------------------------------------------

  // What a pass makes of one row: nothing unless it is listed and its `wg` call succeeds.
  function PassRow(r: Row, inKernel: bool, listed: bool, f: Fault): Fate {
    var hit := listed && ApplyOk(r, f);
    Fate(r.pending && !(hit && f.mark), if hit then !r.disabled else inKernel)
  }

  lemma {:induction false} PassPointwise(dir: string, w: World, todo: seq<Row>, faults: int -> Fault)
    requires Inv(w) && Current(todo, w.rows)
    ensures var w' := RunPass(dir, w, todo, faults);
            && Inv(w') && SameRows(w, w') && ForeignKept(w, w')
            && (forall i | 0 <= i < |w.rows| ::
                  FateOf(w', i) == PassRow(w.rows[i], InKernel(w, i), Listed(todo, i + 1), faults(i + 1)))
    decreases |todo|
  {
    if todo != [] {
      var r, rest := todo[0], todo[1..];
      hide OneApplied, Faithful, RowsOK, PassRow, FateOf, ForeignKept, InKernel;
      ApplyOneEffect(dir, w, r, faults(r.id));
      var w1 := OneApplied(dir, w, r, faults(r.id)).0;
      CurrentTail(todo, w, w1);
      PassPointwise(dir, w1, rest, faults);
      var w' := RunPass(dir, w1, rest, faults);
      ForeignKeptTransitive(w, w1, w');
      hide RunPass, Listed, Current;
      forall i | 0 <= i < |w.rows|
        ensures FateOf(w', i) == PassRow(w.rows[i], InKernel(w, i), Listed(todo, i + 1), faults(i + 1))
      {
        RowOfPass(w, w1, w', todo, faults, i);
      }
    }
  }

  // One row of w, of w1 after the head of the listing, and of w' after the rest.
  lemma RowOfPass(w: World, w1: World, w': World, todo: seq<Row>, faults: int -> Fault, i: int)
    requires 0 <= i < |w.rows| == |w1.rows| == |w'.rows|
    requires todo != [] && !Listed(todo[1..], todo[0].id)
    requires w1.rows[i].(pending := w.rows[i].pending) == w.rows[i]
    requires FateOf(w1, i) == PassRow(w.rows[i], InKernel(w, i), i + 1 == todo[0].id, faults(todo[0].id))
    requires FateOf(w', i) == PassRow(w1.rows[i], InKernel(w1, i), Listed(todo[1..], i + 1), faults(i + 1))
    ensures FateOf(w', i) == PassRow(w.rows[i], InKernel(w, i), Listed(todo, i + 1), faults(i + 1))
  {
    hide InKernel, ApplyOk, Listed;
    ListedCons(todo, i + 1);
    ApplyOkIgnoresFlag(w1.rows[i], w.rows[i], faults(i + 1));
  }

  // The rest of a listing stays current while its head is applied, and does not hold the head again.
  lemma CurrentTail(todo: seq<Row>, w: World, w1: World)
    requires todo != [] && Current(todo, w.rows) && SameRows(w, w1)
    ensures Current(todo[1..], w1.rows) && !Listed(todo[1..], todo[0].id)
  {
    var rest := todo[1..];
    forall j | 0 <= j < |rest| ensures 1 <= rest[j].id <= |w1.rows| && rest[j].id > todo[0].id
                                 && rest[j].(pending := false) == w1.rows[rest[j].id - 1].(pending := false) {
      assert rest[j] == todo[j + 1];
      var i := rest[j].id - 1;
      assert w1.rows[i].(pending := w.rows[i].pending) == w.rows[i];
    }
  }

  lemma ApplyOkIgnoresFlag(a: Row, b: Row, f: Fault)
    requires a.(pending := false) == b.(pending := false)
    ensures ApplyOk(a, f) == ApplyOk(b, f)
  {
  }

  lemma ListedCons(todo: seq<Row>, id: int)
    requires todo != []
    ensures Listed(todo, id) <==> todo[0].id == id || Listed(todo[1..], id)
  {
    if Listed(todo, id) && todo[0].id != id {
      var j :| 0 <= j < |todo| && todo[j].id == id;
      assert todo[1..][j - 1].id == id;
    }
    if Listed(todo[1..], id) {
      var j :| 0 <= j < |todo[1..]| && todo[1..][j].id == id;
      assert todo[j + 1].id == id;
    }
  }

  // ---- a tick, row by row -------------------------------------------------

  // What one RunOnce makes of one row, from that row alone.
  function RowTick(r: Row, inKernel: bool, plan: Plan): Fate {
    var f1, f2 := plan.pass1(r.id), plan.pass2(r.id);
    var hit1 := r.pending && ApplyOk(r, f1);
    var pending1 := r.pending && !(hit1 && f1.mark);
    var in1 := if hit1 then !r.disabled else inKernel;
    var hit2 := plan.show && plan.enabled && !r.disabled && !in1 && ApplyOk(r, f2);
    if !plan.list then Fate(r.pending, inKernel)
    else Fate(pending1 && !(hit2 && f2.mark), in1 || hit2)
  }

  // The loops refine the per-row specification: one row's failure never shows
  // in another row, and kernel peers the table does not know are left alone.
  lemma TickIsPointwise(dir: string, w: World, plan: Plan)
    requires Inv(w)
    ensures var w' := Tick(dir, w, plan);
            && Inv(w') && SameRows(w, w') && ForeignKept(w, w')
            && (forall i | 0 <= i < |w.rows| :: FateOf(w', i) == RowTick(w.rows[i], InKernel(w, i), plan))
  {
    hide RunPass, Select, ApplyOk, ForeignKept, Faithful, Current;
    if plan.list {
      SelectCurrent(w.rows, PendingOnly);
      PassPointwise(dir, w, Select(w.rows, PendingOnly), plan.pass1);
      var w1 := Pass1(dir, w, plan);
      if plan.show && plan.enabled {
        SelectCurrent(w1.rows, MissingFrom(w1.kern.peers.Keys));
        PassPointwise(dir, w1, Select(w1.rows, MissingFrom(w1.kern.peers.Keys)), plan.pass2);
        var w2 := Reconciled(dir, w1, plan);
        ForeignKeptTransitive(w, w1, w2);
        forall i | 0 <= i < |w.rows| ensures FateOf(w2, i) == RowTick(w.rows[i], InKernel(w, i), plan) {
          ApplyOkIgnoresFlag(w1.rows[i], w.rows[i], plan.pass2(i + 1));
        }
      }
    } else {
      ForeignKeptReflexive(w);
    }
  }

  lemma ForeignKeptReflexive(w: World)
    ensures ForeignKept(w, w)
  {
  }

  // ---- progress and convergence -------------------------------------------

  predicate Diverged(r: Row, inKernel: bool) { r.pending || (!r.disabled && !inKernel) }

  function DivergedRows(w: World): set<int> {
    set i | 0 <= i < |w.rows| && Diverged(w.rows[i], InKernel(w, i))
  }

  // Exactly when a tick settles a diverged row: its pending apply and mark both
  // succeed, or the reconcile pass re-adds a peer the kernel lacks. In the
  // second case the mark matters only if the row was pending.
  predicate Heals(r: Row, inKernel: bool, plan: Plan) {
    var f1, f2 := plan.pass1(r.id), plan.pass2(r.id);
    plan.list &&
    (|| (r.pending && ApplyOk(r, f1) && f1.mark)
     || (plan.show && plan.enabled && !r.disabled && !inKernel && !(r.pending && ApplyOk(r, f1))
         && ApplyOk(r, f2) && (f2.mark || !r.pending)))
  }

  function HealedRows(w: World, plan: Plan): set<int> {
    set i | i in DivergedRows(w) && 0 <= i < |w.rows| && Heals(w.rows[i], InKernel(w, i), plan)
  }

  // Under any failure pattern a tick removes exactly the healed rows from the
  // diverged ones and adds none.
  lemma TickHealsExactly(dir: string, w: World, plan: Plan)
    requires Inv(w)
    ensures DivergedRows(Tick(dir, w, plan)) == DivergedRows(w) - HealedRows(w, plan)
    ensures |DivergedRows(Tick(dir, w, plan))| == |DivergedRows(w)| - |HealedRows(w, plan)|
  {
    hide Tick, Inv, Heals, Diverged, InKernel;
    RowsHealExactly(dir, w, plan);
    assert HealedRows(w, plan) <= DivergedRows(w);
  }

  lemma RowsHealExactly(dir: string, w: World, plan: Plan)
    requires Inv(w)
    ensures var w' := Tick(dir, w, plan);
            && |w'.rows| == |w.rows|
            && forall i | 0 <= i < |w.rows| ::
                 Diverged(w'.rows[i], InKernel(w', i))
                 <==> Diverged(w.rows[i], InKernel(w, i)) && !Heals(w.rows[i], InKernel(w, i), plan)
  {
    TickIsPointwise(dir, w, plan);
    var w' := Tick(dir, w, plan);
    hide Tick, Faithful, RowsOK, ForeignKept, RowTick, Heals, Diverged, InKernel;
    forall i | 0 <= i < |w.rows|
      ensures Diverged(w'.rows[i], InKernel(w', i))
              <==> Diverged(w.rows[i], InKernel(w, i)) && !Heals(w.rows[i], InKernel(w, i), plan)
    {
      assert FateOf(w', i) == RowTick(w.rows[i], InKernel(w, i), plan);
      assert w'.rows[i].(pending := w.rows[i].pending) == w.rows[i];
      RowHealsExactly(w.rows[i], InKernel(w, i), w'.rows[i], InKernel(w', i), plan);
    }
  }

  lemma RowHealsExactly(r: Row, inKernel: bool, r': Row, inKernel': bool, plan: Plan)
    requires r'.(pending := r.pending) == r && Fate(r'.pending, inKernel') == RowTick(r, inKernel, plan)
    ensures Diverged(r', inKernel') <==> Diverged(r, inKernel) && !Heals(r, inKernel, plan)
  {
    hide ApplyOk;
  }

  // "Apply and mark succeed" would be too strong: a settled row that the kernel
  // lost heals although its mark fails.
  lemma HealsWithoutMark(plan: Plan, r: Row)
    requires plan.list && plan.show && plan.enabled && plan.pass2(r.id) == NO_FAULT.(mark := false)
    requires !r.disabled && !r.pending
    ensures Diverged(r, false) && RowTick(r, false, plan) == Fate(false, true) && Heals(r, false, plan)
  {
  }

  function Ticks(dir: string, w: World, plans: seq<Plan>): World
    decreases |plans|
  {
    if plans == [] then w else Ticks(dir, Tick(dir, w, plans[0]), plans[1..])
  }

  // Every tick that finds a diverged row heals at least one.
  ghost predicate Progressing(dir: string, w: World, plans: seq<Plan>)
    decreases |plans|
  {
    plans == [] || ((DivergedRows(w) == {} || HealedRows(w, plans[0]) != {})
                    && Progressing(dir, Tick(dir, w, plans[0]), plans[1..]))
  }

  // Then as many ticks as there are diverged rows suffice, whatever else fails.
  lemma {:induction false} ConvergesInBoundedTicks(dir: string, w: World, plans: seq<Plan>)
    requires Inv(w) && Progressing(dir, w, plans)
    ensures |plans| >= |DivergedRows(w)| ==> DivergedRows(Ticks(dir, w, plans)) == {}
    decreases |plans|
  {
    if plans != [] {
      TickHealsExactly(dir, w, plans[0]);
      TickIsPointwise(dir, w, plans[0]);
      var w1 := Tick(dir, w, plans[0]);
      ConvergesInBoundedTicks(dir, w1, plans[1..]);
      hide Tick, DivergedRows;
      if DivergedRows(w) != {} {
        assert |HealedRows(w, plans[0])| >= 1;
      }
    }
  }

  // Settled: a row that is disabled and not pending has no kernel peer.
  ghost predicate Safe(rows: seq<Row>, peers: map<string, KPeer>) {
    forall i | 0 <= i < |rows| :: rows[i].disabled && !rows[i].pending ==> rows[i].key !in peers
  }

  // The kernel agrees with the table: enabled rows, with address and PSK, and no other row.
  ghost predicate InAgreement(w: World) {
    forall i | 0 <= i < |w.rows| ::
      && !w.rows[i].pending
      && (InKernel(w, i) <==> !w.rows[i].disabled)
      && (InKernel(w, i) ==> w.kern.peers[w.rows[i].key] == Expected(w.rows[i].ip, w.rows[i].psk))
  }

  // One failure-free RunOnce reaches agreement and leaves foreign peers alone;
  // after it no RunOnce changes anything or issues another `wg set`.
  lemma FlawlessTickConverges(dir: string, w: World, plan: Plan, next: Plan)
    requires Inv(w) && Safe(w.rows, w.kern.peers) && Flawless(plan)
    ensures InAgreement(Tick(dir, w, plan)) && ForeignKept(w, Tick(dir, w, plan))
    ensures Tick(dir, Tick(dir, w, plan), next) == Tick(dir, w, plan)
  {
    TickIsPointwise(dir, w, plan);
    var w' := Tick(dir, w, plan);
    hide Tick, ForeignKept;
    forall i | 0 <= i < |w.rows|
      ensures !w'.rows[i].pending && (InKernel(w', i) <==> !w'.rows[i].disabled)
    {
      assert FateOf(w', i) == RowTick(w.rows[i], InKernel(w, i), plan);
      assert w'.rows[i].(pending := w.rows[i].pending) == w.rows[i];
    }
    AgreementIsStable(dir, w', next);
  }

  // One failure-free RunOnce takes a freshly disabled row's peer out of the kernel
  // and settles the row.
  lemma FlawlessTickRemoves(dir: string, w: World, plan: Plan, i: int)
    requires Inv(w) && Flawless(plan) && 0 <= i < |w.rows| && w.rows[i].disabled && w.rows[i].pending
    ensures var w' := Tick(dir, w, plan);
            && |w'.rows| == |w.rows| && w'.rows[i] == w.rows[i].(pending := false)
            && w.rows[i].key !in w'.kern.peers
  {
    TickIsPointwise(dir, w, plan);
    var w' := Tick(dir, w, plan);
    hide Tick, ForeignKept, Faithful;
    assert FateOf(w', i) == RowTick(w.rows[i], InKernel(w, i), plan);
    assert w'.rows[i].(pending := w.rows[i].pending) == w.rows[i];
  }

  lemma AgreementIsStable(dir: string, w: World, plan: Plan)
    requires Inv(w) && InAgreement(w)
    ensures Tick(dir, w, plan) == w
  {
    NothingListed(w.rows, PendingOnly);
    NothingListed(w.rows, MissingFrom(w.kern.peers.Keys));
  }

  lemma {:induction false} NothingListed(rows: seq<Row>, f: Filter)
    requires forall i | 0 <= i < |rows| :: !Passes(f, rows[i])
    ensures Select(rows, f) == []
  {
    if rows != [] {
      NothingListed(rows[1..], f);
    }
  }

  // No tick, whatever fails in it, resurrects a settled disabled row.
  lemma TickKeepsSafe(dir: string, w: World, plan: Plan)
    requires Inv(w) && Safe(w.rows, w.kern.peers)
    ensures Safe(Tick(dir, w, plan).rows, Tick(dir, w, plan).kern.peers)
  {
    TickIsPointwise(dir, w, plan);
    var w' := Tick(dir, w, plan);
    hide Tick, ForeignKept, Faithful;
    forall i | 0 <= i < |w'.rows| && w'.rows[i].disabled && !w'.rows[i].pending
      ensures w'.rows[i].key !in w'.kern.peers
    {
      assert FateOf(w', i) == RowTick(w.rows[i], InKernel(w, i), plan);
      assert w'.rows[i].(pending := w.rows[i].pending) == w.rows[i];
    }
  }

  // The other side of it: once a disable is lost, no number of ticks removes the
  // kernel peer, not even flawless ones.
  lemma {:induction false} LostDisableIsPermanent(dir: string, w: World, plans: seq<Plan>, i: int)
    requires Inv(w) && 0 <= i < |w.rows|
    requires w.rows[i].disabled && !w.rows[i].pending && InKernel(w, i)
    ensures var w' := Ticks(dir, w, plans);
            i < |w'.rows| && w'.rows[i] == w.rows[i] && InKernel(w', i)
    decreases |plans|
  {
    if plans != [] {
      TickIsPointwise(dir, w, plans[0]);
      var w1 := Tick(dir, w, plans[0]);
      hide Tick, ForeignKept, Faithful;
      assert FateOf(w1, i) == RowTick(w.rows[i], InKernel(w, i), plans[0]);
      assert w1.rows[i].(pending := w.rows[i].pending) == w.rows[i];
      LostDisableIsPermanent(dir, w1, plans[1..], i);
    }
  }

  // ---- the code -----------------------------------------------------------

  class Loop {
    const db: Database
    const wg: Kernel

    constructor (db: Database, wg: Kernel)
      ensures this.db == db && this.wg == wg
    {
      this.db, this.wg := db, wg;
    }

    ghost function View(): World
      reads db, wg
    {
      World(db.peers, wg.View())
    }

    // Every key in the kernel or the table can be read back from `wg show`.
    ghost predicate Valid()
      reads db, wg
    {
      db.Valid() && (forall k | k in wg.peers :: PeerList.Clean(k))
    }

    method ApplyOne(p: Row, f: Fault) returns (ok: bool)
      requires Valid() && PeerList.Clean(p.key)
      modifies db`peers, wg
      ensures Valid()
      ensures (View(), ok) == OneApplied(wg.pskDir, old(View()), p, f)
    {
      hide KernelSet, PskFilePath;
      var applied: bool;
      if p.disabled {
        applied := wg.RemovePeer(p.key, f);
      } else {
        var psk := "";
        if p.psk.Some? {
          psk := p.psk.value;
        }
        AddedBySecret(old(wg.View()), wg.pskDir, p.key, p.ip, p.psk, f);
        applied := wg.AddPeer(p.key, p.ip, psk, f);
      }
      AppliedEffect(old(wg.View()), wg.pskDir, p, f);
      forall k | k in wg.peers ensures PeerList.Clean(k) {
        if k != p.key { assert k in old(wg.peers); }
      }
      if !applied {
        return false;
      }
      var marked := db.MarkPeerSynced(p.id, f.mark);
      ok := marked.Ok?;
    }

    // `wg show <iface> peers`, one key a line in an order of the kernel's choosing.
    method Show() returns (out: string)
      requires forall k | k in wg.peers :: PeerList.Clean(k)
      ensures PeerList.Parse(out) == wg.peers.Keys
    {
      var rest, keys := wg.peers.Keys, [];
      while rest != {}
        invariant rest + (set k | k in keys) == wg.peers.Keys
        decreases |rest|
      {
        var k :| k in rest;
        keys := keys + [k];
        rest := rest - {k};
      }
      PeerList.ParsePlain(keys);
      out := PeerList.TrimNewlines(Join(keys, '\n'));
    }

    method Reconcile(plan: Plan) returns (ok: bool)
      requires Valid() && forall i | 0 <= i < |db.peers| :: PeerList.Clean(db.peers[i].key)
      modifies db`peers, wg
      ensures Valid()
      ensures View() == Reconciled(wg.pskDir, old(View()), plan)
    {
      hide OneApplied, RunPass, Select, PeerList.Clean, PeerList.Parse, RowsOK;
      if !plan.show {
        return false;
      }
      var out := Show();
      var kernelPeers := PeerList.CurrentWGPeers(out);
      var listed := db.ListPeers(EnabledOnly, plan.enabled);
      if listed.Err? {
        return false;
      }
      var dbPeers := listed.value;
      ghost var goal := Reconciled(wg.pskDir, View(), plan);
      MissingIsFilter(db.peers, kernelPeers);
      SelectCleans(db.peers, EnabledOnly);
      assert dbPeers[0..] == dbPeers;
      for i := 0 to |dbPeers|
        invariant Valid()
        invariant RunPass(wg.pskDir, View(), Select(dbPeers[i..], MissingFrom(kernelPeers)), plan.pass2) == goal
      {
        WalkStep(wg.pskDir, View(), dbPeers[i..], MissingFrom(kernelPeers), plan.pass2);
        assert dbPeers[i..][0] == dbPeers[i] && dbPeers[i..][1..] == dbPeers[i + 1..];
        assert dbPeers[i] in dbPeers && Passes(EnabledOnly, dbPeers[i]);
        if dbPeers[i].key in kernelPeers {
          continue;
        }
        var _ := ApplyOne(dbPeers[i], plan.pass2(dbPeers[i].id));
      }
      NothingToWalk(wg.pskDir, View(), MissingFrom(kernelPeers), plan.pass2);
      ok := true;
    }

    method RunOnce(plan: Plan) returns (ok: bool)
      requires Valid() && forall i | 0 <= i < |db.peers| :: PeerList.Clean(db.peers[i].key)
      modifies db`peers, wg
      ensures Valid()
      ensures View() == Tick(wg.pskDir, old(View()), plan)
      ensures ok == plan.list
    {
      hide OneApplied, PeerList.Clean, RowsOK, Reconciled;
      var listed := db.ListPeers(PendingOnly, plan.list);
      if listed.Err? {
        return false;
      }
      var pending := listed.value;
      ghost var goal := Pass1(wg.pskDir, View(), plan);
      SelectCleans(db.peers, PendingOnly);
      for i := 0 to |pending|
        invariant Valid() && CleanRows(db.peers)
        invariant RunPass(wg.pskDir, View(), pending[i..], plan.pass1) == goal
      {
        assert pending[i..][0] == pending[i] && pending[i..][1..] == pending[i + 1..];
        assert pending[i] in pending;
        ghost var before := View();
        var _ := ApplyOne(pending[i], plan.pass1(pending[i].id));
        CleanRowsKept(wg.pskDir, before, pending[i], plan.pass1(pending[i].id));
      }
      var _ := Reconcile(plan);
      ok := true;
    }
  }

  ghost predicate CleanRows(rows: seq<Row>) { forall i | 0 <= i < |rows| :: PeerList.Clean(rows[i].key) }

  lemma CleanRowsKept(dir: string, w: World, r: Row, f: Fault)
    requires CleanRows(w.rows)
    ensures CleanRows(OneApplied(dir, w, r, f).0.rows)
  {
    hide PeerList.Clean, Applied;
  }

  lemma {:induction false} SelectCleans(rows: seq<Row>, f: Filter)
    requires forall i | 0 <= i < |rows| :: PeerList.Clean(rows[i].key)
    ensures forall r | r in Select(rows, f) :: PeerList.Clean(r.key) && Passes(f, r)
  {
    hide PeerList.Clean;
    if rows != [] {
      SelectCleans(rows[1..], f);
    }
  }

  // One round of a loop that walks `rows` and applies those that pass.
  lemma WalkStep(dir: string, w: World, rows: seq<Row>, f: Filter, faults: int -> Fault)
    requires rows != []
    ensures RunPass(dir, w, Select(rows, f), faults) ==
            if Passes(f, rows[0])
            then RunPass(dir, OneApplied(dir, w, rows[0], faults(rows[0].id)).0, Select(rows[1..], f), faults)
            else RunPass(dir, w, Select(rows[1..], f), faults)
  {
    hide OneApplied;
    var rest := Select(rows[1..], f);
    assert ([rows[0]] + rest)[1..] == rest && [] + rest == rest;
  }

  lemma NothingToWalk(dir: string, w: World, f: Filter, faults: int -> Fault)
    ensures RunPass(dir, w, Select([], f), faults) == w
  {
  }

  // Listing the enabled rows and skipping those the kernel shows is listing the missing rows.
  lemma {:induction false} MissingIsFilter(rows: seq<Row>, kernel: set<string>)
    ensures Select(Select(rows, EnabledOnly), MissingFrom(kernel)) == Select(rows, MissingFrom(kernel))
  {
    if rows != [] {
      MissingIsFilter(rows[1..], kernel);
      var e, m := Select(rows[1..], EnabledOnly), Select(rows[1..], MissingFrom(kernel));
      assert ([rows[0]] + e)[1..] == e && [] + e == e && [] + m == m;
    }
  }
}
