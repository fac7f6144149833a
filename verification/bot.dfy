// internal/telegram/bot.go: the getUpdates offset protocol.
//
// Requesting offset n acknowledges every update below n; the server answers
// with a first part of the unacknowledged updates from n on, in any order.
// The bot keeps its offset in memory only.
module BotLoop {

  // sent: ids issued so far, growing. acked: every id up to it is acknowledged.
  // floor: what was acknowledged when this process started. batch: received, not
  // yet handled. handled: this process, in order. ever: by any process.
  datatype Chat = Chat(
    sent: set<int>, acked: int, floor: int, offset: int, batch: seq<int>, handled: seq<int>, ever: set<int>)

  datatype Step =
    | Arrive(id: int)
    | PollOk(updates: seq<int>)
    | PollError(reached: bool)      // the request may have reached the server
    | Handle
    | Restart

  function Max(a: int, b: int): int { if a >= b then a else b }

  predicate NoRepeats(s: seq<int>) { forall i, j | 0 <= i < j < |s| :: s[i] != s[j] }

  // A getUpdates answer for the given offset parameter.
  predicate IsAnswer(updates: seq<int>, sent: set<int>, acked: int, requested: int) {
    && NoRepeats(updates)
    && (forall u | u in updates :: u in sent && u > acked && u >= requested)
    && (forall u, x | u in updates && x in sent && x > acked && x >= requested && x < u :: x in updates)
  }

  ghost predicate Enabled(c: Chat, s: Step) {
    match s
    case Arrive(id) => Later({id}, c.sent)
    case PollOk(updates) => c.batch == [] && IsAnswer(updates, c.sent, Max(c.acked, c.offset), c.offset + 1)
    case PollError(_) => c.batch == []
    case Handle => c.batch != []
    case Restart => true
  }

  function Next(c: Chat, s: Step): Chat
    requires s.Handle? ==> c.batch != []
  {
    match s
    case Arrive(id) => c.(sent := c.sent + {id})
    case PollOk(updates) => c.(acked := Max(c.acked, c.offset), batch := updates)
    case PollError(reached) => if reached then c.(acked := Max(c.acked, c.offset)) else c
    case Handle =>
      var u := c.batch[0];
      c.(handled := c.handled + [u], ever := c.ever + {u},
         offset := if u >= c.offset then u else c.offset, batch := c.batch[1..])
    case Restart => c.(offset := 0, batch := [], handled := [], floor := c.acked)
  }

  // Taken in this process: handled or waiting in the batch.
  ghost predicate Taken(c: Chat, id: int) { id in c.handled || id in c.batch }

  ghost predicate Inv(c: Chat) {
    && 0 <= c.floor <= c.acked <= Max(c.floor, c.offset)
    && (forall x | x in c.sent :: x > 0)
    && (c.acked == 0 || c.acked in c.sent) && (c.floor == 0 || c.floor in c.sent)
    && NoRepeats(c.handled + c.batch)
    && (forall x | Taken(c, x) :: x in c.sent && x > c.floor)
    && (forall x, y | x in c.sent && x > c.floor && Taken(c, y) && x <= y :: Taken(c, x))
    && (forall x | x in c.batch :: x > c.acked)
    && (forall h | h in c.handled :: h <= c.offset && h in c.ever)
    && (if c.handled == [] then c.offset == 0 else c.offset in c.handled)
    && (forall x | x in c.sent && x <= c.acked :: x in c.ever)
  }

  lemma InvInit(sent: set<int>)
    requires forall x | x in sent :: x > 0
    ensures Inv(Chat(sent, 0, 0, 0, [], [], {}))
  {
  }

  lemma InvKept(c: Chat, s: Step)
    requires Inv(c) && Enabled(c, s)
    ensures Inv(Next(c, s))
  {
    match s {
      case Arrive(id) =>
        assert c.sent + {id} - c.sent <= {id};
        ArrivalsKeep(c, c.sent + {id});
      case PollOk(updates) => PollKeeps(c, updates);
      case PollError(reached) => PollErrorKeeps(c, reached);
      case Handle => HandleKeeps(c);
      case Restart => RestartKeeps(c);
    }
  }

  lemma PollErrorKeeps(c: Chat, reached: bool)
    requires Inv(c) && c.batch == []
    ensures Inv(Next(c, PollError(reached)))
  {
    AckedIsHandled(c);
    HandledIsSent(c);
    var c' := Next(c, PollError(reached));
    assert forall x :: Taken(c', x) <==> Taken(c, x);
  }

  lemma RestartKeeps(c: Chat)
    requires Inv(c)
    ensures Inv(Next(c, Restart))
  {
    var c' := Next(c, Restart);
    assert forall x :: !Taken(c', x);
    assert c'.handled + c'.batch == [];
  }

  // Between batches everything the next request acknowledges has been handled.
  lemma AckedIsHandled(c: Chat)
    requires Inv(c) && c.batch == []
    ensures forall x | x in c.sent && c.floor < x <= c.offset :: x in c.handled
    ensures forall x | x in c.sent && x <= Max(c.acked, c.offset) :: x in c.ever
  {
    forall x | x in c.sent && c.floor < x <= c.offset ensures x in c.handled {
      assert Taken(c, c.offset);
      assert Taken(c, x);
    }
  }

  lemma PollKeeps(c: Chat, updates: seq<int>)
    requires Inv(c) && Enabled(c, PollOk(updates))
    ensures Inv(Next(c, PollOk(updates)))
  {
    AckedIsHandled(c);
    var c' := Next(c, PollOk(updates));
    assert c.handled + [] == c.handled;
    forall i, j | 0 <= i < j < |c.handled + updates| ensures (c.handled + updates)[i] != (c.handled + updates)[j] {
      if i < |c.handled| {
        assert c.handled[i] in c.handled;
        if j >= |c.handled| { assert updates[j - |c.handled|] in updates; }
      }
    }
    forall x, y | x in c'.sent && x > c'.floor && Taken(c', y) && x <= y ensures Taken(c', x) {
      if y in c.handled {
        assert Taken(c, y) && Taken(c, x);
      } else if x <= c.offset {
        assert x in c.handled;
      }
    }
    forall x | Taken(c', x) ensures x in c'.sent && x > c'.floor {
      if x in c.handled { assert Taken(c, x); }
    }
  }

  lemma HandleKeeps(c: Chat)
    requires Inv(c) && c.batch != []
    ensures Inv(Next(c, Handle))
  {
    var c', u := Next(c, Handle), c.batch[0];
    assert c'.handled + c'.batch == c.handled + c.batch;
    assert c.batch == [u] + c.batch[1..];
    assert u in c.batch && forall x | x in c'.batch :: x in c.batch;
    forall x ensures Taken(c', x) <==> Taken(c, x) {
      assert x in c.batch <==> x == u || x in c.batch[1..];
    }
    assert Taken(c, u);
  }

  // ---- runs ---------------------------------------------------------------

  ghost predicate IsRun(chats: seq<Chat>, steps: seq<Step>) {
    && |chats| == |steps| + 1
    && chats[0] == Chat(chats[0].sent, 0, 0, 0, [], [], {}) && (forall x | x in chats[0].sent :: x > 0)
    && forall i | 0 <= i < |steps| :: Enabled(chats[i], steps[i]) && chats[i + 1] == Next(chats[i], steps[i])
  }

  lemma {:induction false} Reachable(chats: seq<Chat>, steps: seq<Step>, n: nat)
    requires IsRun(chats, steps) && n < |chats|
    ensures Inv(chats[n])
  {
    hide Inv, Next, Enabled;
    if n == 0 {
      InvInit(chats[0].sent);
    } else {
      Reachable(chats, steps, n - 1);
      InvKept(chats[n - 1], steps[n - 1]);
    }
  }

  // Whatever the errors, batch orders and restarts: no process handles an update
  // twice; whenever it is about to poll it has handled exactly the updates up to
  // its offset that were unacknowledged when it started.
  lemma ExactlyOncePerProcess(chats: seq<Chat>, steps: seq<Step>, n: nat)
    requires IsRun(chats, steps) && n < |chats|
    ensures NoRepeats(chats[n].handled)
    ensures chats[n].batch == [] ==>
              forall x :: x in chats[n].handled <==> x in chats[n].sent && chats[n].floor < x <= chats[n].offset
  {
    Reachable(chats, steps, n);
    var c := chats[n];
    assert forall i | 0 <= i < |c.handled| :: (c.handled + c.batch)[i] == c.handled[i];
    if c.batch == [] {
      AckedIsHandled(c);
      forall x | x in c.handled ensures x in c.sent && c.floor < x <= c.offset {
        assert Taken(c, x);
      }
    }
  }

  // Across processes: an acknowledged update was handled by some process and is
  // never handled again; a restarted process replays only unacknowledged ones.
  lemma AtLeastOnceAcrossProcesses(chats: seq<Chat>, steps: seq<Step>, n: nat, id: int)
    requires IsRun(chats, steps) && n < |steps| && id in chats[n].sent && id <= chats[n].acked
    ensures id in chats[n].ever
    ensures !(steps[n].Handle? && chats[n].batch[0] == id)
    ensures steps[n].Restart? ==>
              chats[n + 1].floor == chats[n].acked && chats[n + 1].handled + chats[n + 1].batch == []
  {
    Reachable(chats, steps, n);
  }

  // ---- the code -----------------------------------------------------------

  // Ids only grow.
  predicate Later(more: set<int>, sent: set<int>) {
    (forall x | x in more :: x > 0) && forall x, y | x in more && y in sent :: y < x
  }

  lemma LaterIsNew(more: set<int>, sent: set<int>)
    requires Later(more, sent)
    ensures sent + more - sent == more
  {
    forall x | x in more ensures x !in sent {
      assert x in sent ==> x < x;
    }
  }

  // How one round of the loop goes: the context is over before the poll; the poll is
  // answered; it fails, after reaching the server or not, and `stopped` says whether
  // the context is over by the end of the wait.
  datatype Round = StoppedBefore | Answered | Failed(reached: bool, stopped: bool)

  predicate Stops(r: Round) { r.StoppedBefore? || (r.Failed? && r.stopped) }

  class Server {
    var sent: set<int>
    var acked: int
    var asked: seq<int>     // every offset requested
    var given: seq<int>     // every update answered, in order

    constructor ()
      ensures sent == {} && acked == 0 && asked == [] && given == []
    {
      sent, acked, asked, given := {}, 0, [], [];
    }

    // New updates may come in; the answer, if any, follows the protocol.
    method GetUpdates(requested: int, r: Round) returns (ok: bool, updates: seq<int>)
      modifies this
      ensures ok <==> r.Answered?
      ensures old(sent) <= sent && Later(sent - old(sent), old(sent))
      ensures acked == if r.Answered? || (r.Failed? && r.reached) then Max(old(acked), requested - 1) else old(acked)
      ensures ok ==> IsAnswer(updates, sent, acked, requested)
      ensures asked == old(asked) + [requested] && given == if ok then old(given) + updates else old(given)
    {
      assert Later({}, sent);
      var more: set<int> :| Later(more, sent);
      LaterIsNew(more, sent);
      sent := sent + more;
      asked := asked + [requested];
      updates := [];
      if r.Answered? || (r.Failed? && r.reached) {
        acked := Max(acked, requested - 1);
      }
      if !r.Answered? {
        return false, [];
      }
      assert IsAnswer([], sent, acked, requested);
      updates :| IsAnswer(updates, sent, acked, requested);
      given := given + updates;
      ok := true;
    }
  }

  class Bot {
    var handled: seq<int>
    ghost var ever: set<int>

    constructor ()
      ensures handled == [] && ever == {}
    {
      handled, ever := [], {};
    }

    // The updates of one answer, in order, or up to a crash before number crashAt.
    method HandleBatch(updates: seq<int>, start: int, crashAt: int, ghost c: Chat)
      returns (offset: int, crashed: bool, ghost c': Chat)
      requires Inv(c) && c.offset == start && c.batch == updates && c.handled == handled && c.ever == ever
      modifies this
      ensures crashed <==> 0 <= crashAt < |updates|
      ensures c' == c.(offset := offset, batch := c'.batch, handled := handled, ever := ever) && Inv(c')
      ensures old(handled) + updates == handled + c'.batch && (!crashed ==> c'.batch == []) && old(ever) <= ever
    {
      hide Inv;
      offset, crashed, c' := start, false, c;
      for i := 0 to |updates|
        invariant !(0 <= crashAt < i) && old(ever) <= ever && old(handled) + updates == handled + updates[i..]
        invariant c' == c.(offset := offset, batch := updates[i..], handled := handled, ever := ever) && Inv(c')
      {
        if i == crashAt {
          return offset, true, c';
        }
        InvKept(c', Handle);
        assert updates[i..] == [updates[i]] + updates[i + 1..];
        handled := handled + [updates[i]];
        ever := ever + {updates[i]};
        if updates[i] >= offset {
          offset := updates[i];
        }
        c' := c.(offset := offset, batch := updates[i + 1..], handled := handled, ever := ever);
      }
    }

    // One poll and what it brings; `over` when the context ended meanwhile.
    method OneRound(server: Server, r: Round, start: int, crashAt: int, ghost c: Chat)
      returns (offset: int, over: bool, crashed: bool, ghost c': Chat)
      requires !r.StoppedBefore? && Inv(c)
      requires c == Chat(server.sent, server.acked, c.floor, start, [], handled, ever)
      modifies this, server
      ensures Inv(c') && c' == Chat(server.sent, server.acked, c.floor, offset, c'.batch, handled, ever)
      ensures old(server.sent) <= server.sent && old(ever) <= ever
      ensures server.asked == old(server.asked) + [start + 1]
      ensures exists g :: server.given == old(server.given) + g && old(handled) + g == handled + c'.batch
      ensures !crashed ==> c'.batch == []
      ensures crashed ==> crashAt >= 0
      ensures !crashed ==> (over <==> Stops(r))
    {
      hide Inv, IsAnswer, Later;
      offset, over, crashed := start, false, false;
      ghost var given, before := server.given, handled;
      var ok, updates := server.GetUpdates(offset + 1, r);
      if !ok {
        PollFailed(c, server.sent, r.reached);
        c' := Chat(server.sent, server.acked, c.floor, offset, [], handled, ever);
        assert server.given == given + [] && before + [] == handled + c'.batch;
        over := r.stopped;
        return;
      }
      PollAnswered(c, server.sent, updates);
      offset, crashed, c' := HandleBatch(updates, start, crashAt,
        Chat(server.sent, server.acked, c.floor, start, updates, handled, ever));
      assert server.given == given + updates && before + updates == handled + c'.batch;
    }

    // One process: offset starts at 0. It may crash just before handling update
    // number crashAt of round crashRound. Otherwise it goes on through every error
    // until the context is over, and handles what it is given, in order.
    method Run(server: Server, rounds: seq<Round>, crashRound: int, crashAt: int)
      returns (offset: int, ghost floor: int, crashed: bool)
      requires Inv(Chat(server.sent, server.acked, server.acked, 0, [], [], ever))
      modifies this, server
      ensures floor == old(server.acked) && old(server.sent) <= server.sent && old(ever) <= ever
      ensures NoRepeats(handled)
      ensures !crashed ==> forall x :: x in handled <==> x in server.sent && floor < x <= offset
      ensures forall x | x in handled :: x > floor
      ensures Inv(Chat(server.sent, server.acked, server.acked, 0, [], [], ever))
      // it handles exactly the updates it is given, in order, up to a crash
      ensures old(server.given) + handled <= server.given && (!crashed ==> server.given == old(server.given) + handled)
      ensures crashed ==> 0 <= crashRound < |rounds| && crashAt >= 0
                          && |server.asked| == |old(server.asked)| + crashRound + 1
      // and it polls in every round until one of them stops it
      ensures old(server.asked) <= server.asked
      ensures !crashed ==>
                var n := |server.asked| - |old(server.asked)|;
                && n <= |rounds| && (forall k | 0 <= k < n - 1 :: !Stops(rounds[k]))
                && (n < |rounds| ==> rounds[n].StoppedBefore? || (n > 0 && Stops(rounds[n - 1])))
    {
      hide Inv, NoRepeats;
      handled := [];
      offset, floor, crashed := 0, server.acked, false;
      ghost var asked, given := server.asked, server.given;
      ghost var c := Chat(server.sent, server.acked, floor, offset, [], handled, ever);
      for round := 0 to |rounds|
        invariant c == Chat(server.sent, server.acked, floor, offset, [], handled, ever) && Inv(c)
        invariant old(server.sent) <= server.sent && old(ever) <= ever
        invariant asked <= server.asked && |server.asked| == |asked| + round && server.given == given + handled
        invariant forall k | 0 <= k < round :: !Stops(rounds[k])
      {
        if rounds[round].StoppedBefore? {
          EndOfProcess(c);
          return;
        }
        var over: bool;
        ghost var before := handled;
        offset, over, crashed, c :=
          OneRound(server, rounds[round], offset, if round == crashRound then crashAt else -1, c);
        GivenIsHandled(given, before, handled, c.batch, server.given);
        if crashed {
          Crashed(c);
          return;
        }
        if over {
          EndOfProcess(c);
          return;
        }
      }
      EndOfProcess(c);
    }
  }

  lemma GivenIsHandled(given: seq<int>, before: seq<int>, handled: seq<int>, batch: seq<int>, now: seq<int>)
    requires exists g :: now == given + before + g && before + g == handled + batch
    ensures given + handled <= now && (batch == [] ==> now == given + handled)
  {
    var g :| now == given + before + g && before + g == handled + batch;
    assert given + before + g == given + (before + g) == given + handled + batch;
  }

  lemma PollAnswered(c: Chat, sent: set<int>, updates: seq<int>)
    requires Inv(c) && c.batch == [] && c.sent <= sent && Later(sent - c.sent, c.sent)
    requires IsAnswer(updates, sent, Max(c.acked, c.offset), c.offset + 1)
    ensures Inv(c.(sent := sent, acked := Max(c.acked, c.offset), batch := updates))
  {
    hide Inv, IsAnswer, Later;
    ArrivalsKeep(c, sent);
    InvKept(c.(sent := sent), PollOk(updates));
  }

  lemma PollFailed(c: Chat, sent: set<int>, reached: bool)
    requires Inv(c) && c.batch == [] && c.sent <= sent && Later(sent - c.sent, c.sent)
    ensures Inv(c.(sent := sent, acked := if reached then Max(c.acked, c.offset) else c.acked))
  {
    hide Inv, Later;
    ArrivalsKeep(c, sent);
    InvKept(c.(sent := sent), PollError(reached));
  }

  lemma Crashed(c: Chat)
    requires Inv(c)
    ensures Inv(Chat(c.sent, c.acked, c.acked, 0, [], [], c.ever))
    ensures NoRepeats(c.handled) && forall x | x in c.handled :: x > c.floor
  {
    InvKept(c, Restart);
    Prefixed(c);
  }

  // A process that is over between two batches.
  lemma EndOfProcess(c: Chat)
    requires Inv(c) && c.batch == []
    ensures Inv(Chat(c.sent, c.acked, c.acked, 0, [], [], c.ever))
    ensures NoRepeats(c.handled) && forall x :: x in c.handled <==> x in c.sent && c.floor < x <= c.offset
  {
    InvKept(c, Restart);
    Prefixed(c);
    AckedIsHandled(c);
    HandledIsSent(c);
  }

  lemma HandledIsSent(c: Chat)
    requires Inv(c)
    ensures forall x | x in c.handled :: x in c.sent && x <= c.offset
  {
    assert forall x | x in c.handled :: Taken(c, x);
  }

  lemma Prefixed(c: Chat)
    requires Inv(c)
    ensures NoRepeats(c.handled) && forall x | x in c.handled :: x > c.floor
  {
    assert forall i | 0 <= i < |c.handled| :: (c.handled + c.batch)[i] == c.handled[i];
    assert forall x | x in c.handled :: Taken(c, x);
  }

  lemma ArrivalsKeep(c: Chat, sent: set<int>)
    requires Inv(c) && c.sent <= sent
    requires Later(sent - c.sent, c.sent)
    ensures Inv(c.(sent := sent))
  {
    var c' := c.(sent := sent);
    assert c'.handled + c'.batch == c.handled + c.batch;
    assert c.offset != 0 ==> c.offset in c.sent by { assert c.offset != 0 ==> Taken(c, c.offset); }
    forall x | x in sent && x !in c.sent
      ensures x > c.acked && x > c.offset && !Taken(c, x) && forall y | Taken(c, y) :: y < x
    {
      assert x in sent - c.sent;
    }
    forall x, y | x in c'.sent && x > c'.floor && Taken(c', y) && x <= y ensures Taken(c', x) {
      assert Taken(c, y);
      assert x in c.sent;
      assert Taken(c, x);
    }
    forall x | Taken(c', x) ensures x in c'.sent && x > c'.floor {
      assert Taken(c, x);
    }
  }
}
