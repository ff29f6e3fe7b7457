/** `WorldClock::advanceTime`: scale and accumulate time, advance every live
    registration once in list order, then compact if anything was removed.
    While an animation is advanced it may call back into the clock; those
    calls are given, per animation, as a list of `add`/`remove` requests. */
module ClockPass {
  import opened Options
  import opened Floats
  import opened Compaction
  import opened WorldClock

  /** A call an animation makes into the clock while it is being advanced. */
  datatype Op = AddCall(target: Option<Id>) | RemoveCall(target: Option<Id>)

  /** What happened during a pass, in order. */
  datatype Event =
    | Advanced(id: Id, dt: real)   // `animatable->advanceTime(dt)` was called
    | Called(op: Op)               // the animation being advanced made this call

  function Apply(c: Clock, op: Op): Clock {
    match op
    case AddCall(x) => Add(c, x)
    case RemoveCall(x) => Remove(c, x)
  }

  /** The clock calls recorded in a log, in order. */
  function Calls(log: seq<Event>): seq<Op>
    decreases |log|
  {
    if |log| == 0 then []
    else Calls(log[..|log| - 1]) + (if log[|log| - 1].Called? then [log[|log| - 1].op] else [])
  }

  /** The clock obtained by making the calls one after the other, with no pass
      running: the reference the pass is compared with. */
  function Replay(c: Clock, ops: seq<Op>): Clock
    decreases |ops|
  {
    if |ops| == 0 then c
    else Apply(Replay(c, ops[..|ops| - 1]), ops[|ops| - 1])
  }

  lemma CallsAppend(log: seq<Event>, e: Event)
    ensures e.Called? ==> Calls(log + [e]) == Calls(log) + [e.op]
    ensures !e.Called? ==> Calls(log + [e]) == Calls(log)
  {
    assert (log + [e])[..|log|] == log;
    assert Calls(log) + [] == Calls(log);
  }

  lemma ReplayAppend(c: Clock, ops: seq<Op>, op: Op)
    ensures Replay(c, ops + [op]) == Apply(Replay(c, ops), op)
  {
    assert (ops + [op])[..|ops|] == ops;
  }

  function RemovalOf(op: Op): Option<Id> {
    if op.RemoveCall? then op.target else None
  }

  /** The invariant of the visit loop after `i` of the `l` positions the list
      had at the start of the pass have been visited, starting from `c0` and reaching `c` with log `log`. */
  ghost predicate PassInv(c0: Clock, dt: real, l: nat, i: nat, c: Clock, log: seq<Event>)
  {
    && Bounds(c0, l, i, c)
    && c == Replay(c0, Calls(log))
    && OnlyTombstoned(c0, l, c, log)
    && Covered(c0, dt, i, log)
    && AdvancesInOrder(c0, dt, i, log)
    && RemovedGone(l, i, c, log)
    && NoAdvanceAfterRemove(log)
  }

  ghost predicate Bounds(c0: Clock, l: nat, i: nat, c: Clock) {
    l == |c0.list| && i <= l <= |c.list| && Valid(c0) && Valid(c)
  }

  /** Positions below `l` can only be tombstoned, and only by a remove call
      for the entry they held. */
  ghost predicate OnlyTombstoned(c0: Clock, l: nat, c: Clock, log: seq<Event>)
    requires l <= |c0.list| && l <= |c.list|
  {
    && (forall k :: 0 <= k < l ==> c.list[k] == c0.list[k] || c.list[k] == None)
    && (forall k :: 0 <= k < l && c.list[k] != c0.list[k] ==> Called(RemoveCall(c0.list[k])) in log)
  }

  /** Every visited entry of the starting list was advanced, or removed
      before its turn came. */
  ghost predicate Covered(c0: Clock, dt: real, i: nat, log: seq<Event>)
    requires i <= |c0.list|
  {
    forall k :: 0 <= k < i && c0.list[k].Some? ==>
      Advanced(c0.list[k].value, dt) in log || RemovedBeforeTurn(c0.list, k, log)
  }

  /** The entry at position `k` of the starting list `start` was removed by a
      call made while only animations registered before position `k` had been
      advanced, that is, before the pass reached `k`. */
  ghost predicate RemovedBeforeTurn(start: seq<Option<Id>>, k: nat, log: seq<Event>)
    requires k < |start|
  {
    exists j :: 0 <= j < |log| && log[j] == Called(RemoveCall(start[k])) && AdvancedBefore(start, k, log, j)
  }

  /** Every advance among the first `j` events is of an animation registered
      before position `k` of `start`. */
  ghost predicate AdvancedBefore(start: seq<Option<Id>>, k: nat, log: seq<Event>, j: nat)
    requires j <= |log|
  {
    forall m :: 0 <= m < j && log[m].Advanced? ==> IndexOf(start, Some(log[m].id)) < k
  }

  lemma RemovedBeforeTurnGrow(start: seq<Option<Id>>, k: nat, log: seq<Event>, more: seq<Event>)
    requires k < |start| && RemovedBeforeTurn(start, k, log)
    ensures RemovedBeforeTurn(start, k, log + more)
  {
    var j :| 0 <= j < |log| && log[j] == Called(RemoveCall(start[k])) && AdvancedBefore(start, k, log, j);
    assert (log + more)[j] == log[j];
    assert forall m :: 0 <= m < j ==> (log + more)[m] == log[m];
    assert AdvancedBefore(start, k, log + more, j);
  }

  /** Advances are of entries of the starting list already visited, all by
      the same delta, in list order. */
  ghost predicate AdvancesInOrder(c0: Clock, dt: real, i: nat, log: seq<Event>) {
    && (forall j :: 0 <= j < |log| && log[j].Advanced? ==>
          log[j].dt == dt && IndexOf(c0.list, Some(log[j].id)) < i)
    && (forall j, k :: 0 <= j < k < |log| && log[j].Advanced? && log[k].Advanced? ==>
          IndexOf(c0.list, Some(log[j].id)) < IndexOf(c0.list, Some(log[k].id)))
  }

  /** A removed animation no longer waits at an unvisited position. */
  ghost predicate RemovedGone(l: nat, i: nat, c: Clock, log: seq<Event>)
    requires i <= l <= |c.list|
  {
    forall j :: 0 <= j < |log| && log[j].Called? && RemovalOf(log[j].op).Some? ==>
      RemovalOf(log[j].op) !in c.list[i..l]
  }

  /** A removed animation is never advanced after its removal. */
  ghost predicate NoAdvanceAfterRemove(log: seq<Event>) {
    forall j, k :: 0 <= j < k < |log| && log[j].Called? && log[k].Advanced? ==>
      RemovalOf(log[j].op) != Some(log[k].id)
  }

  lemma PassStart(c0: Clock, dt: real)
    requires Valid(c0)
    ensures PassInv(c0, dt, |c0.list|, 0, c0, [])
  {
  }

  lemma RemovedGoneShift(l: nat, i: nat, c: Clock, log: seq<Event>)
    requires i < l <= |c.list| && RemovedGone(l, i, c, log)
    ensures RemovedGone(l, i + 1, c, log)
  {
    forall j | 0 <= j < |log| && log[j].Called? && RemovalOf(log[j].op).Some?
      ensures RemovalOf(log[j].op) !in c.list[i + 1..l]
    {
      assert c.list[i + 1..l] == c.list[i..l][1..];
    }
  }

  /** Visiting a tombstone changes nothing. */
  lemma StepSkip(c0: Clock, dt: real, l: nat, i: nat, c: Clock, log: seq<Event>)
    requires PassInv(c0, dt, l, i, c, log) && i < l && c.list[i].None?
    ensures PassInv(c0, dt, l, i + 1, c, log)
  {
    RemovedGoneShift(l, i, c, log);
    if c0.list[i].Some? {
      assert c.list[i] != c0.list[i];
      var j :| 0 <= j < |log| && log[j] == Called(RemoveCall(c0.list[i]));
      assert AdvancedBefore(c0.list, i, log, j);
      assert RemovedBeforeTurn(c0.list, i, log);
    }
  }

  /** Visiting a live entry advances it; it is still the entry the position
      held at the start of the pass. */
  lemma StepAdvance(c0: Clock, dt: real, l: nat, i: nat, c: Clock, log: seq<Event>)
    requires PassInv(c0, dt, l, i, c, log) && i < l && c.list[i].Some?
    ensures c.list[i] == c0.list[i]
    ensures PassInv(c0, dt, l, i + 1, c, log + [Advanced(c.list[i].value, dt)])
  {
    var e := Advanced(c.list[i].value, dt);
    var log' := log + [e];
    CallsAppend(log, e);
    AdvanceKeepsTombstoned(c0, l, c, log, e);
    AdvanceCovers(c0, dt, l, i, c, log);
    AdvanceOrdered(c0, dt, l, i, c, log);
    RemovedGoneShift(l, i, c, log);
    RemovedGoneGrow(l, i + 1, c, log, e);
    AdvanceNotRemoved(c0, dt, l, i, c, log);
  }

  lemma AdvanceKeepsTombstoned(c0: Clock, l: nat, c: Clock, log: seq<Event>, e: Event)
    requires l <= |c0.list| && l <= |c.list| && OnlyTombstoned(c0, l, c, log)
    ensures OnlyTombstoned(c0, l, c, log + [e])
  {
  }

  lemma AdvanceCovers(c0: Clock, dt: real, l: nat, i: nat, c: Clock, log: seq<Event>)
    requires Bounds(c0, l, i, c) && i < l && c.list[i].Some?
    requires OnlyTombstoned(c0, l, c, log) && Covered(c0, dt, i, log)
    ensures Covered(c0, dt, i + 1, log + [Advanced(c.list[i].value, dt)])
  {
    var log' := log + [Advanced(c.list[i].value, dt)];
    forall k | 0 <= k < i && c0.list[k].Some? && Advanced(c0.list[k].value, dt) !in log
      ensures RemovedBeforeTurn(c0.list, k, log')
    {
      RemovedBeforeTurnGrow(c0.list, k, log, [Advanced(c.list[i].value, dt)]);
    }
  }

  lemma AdvanceOrdered(c0: Clock, dt: real, l: nat, i: nat, c: Clock, log: seq<Event>)
    requires Bounds(c0, l, i, c) && i < l && c.list[i].Some?
    requires OnlyTombstoned(c0, l, c, log) && AdvancesInOrder(c0, dt, i, log)
    ensures AdvancesInOrder(c0, dt, i + 1, log + [Advanced(c.list[i].value, dt)])
  {
    IndexOfDistinct(c0.list, i);
    var log' := log + [Advanced(c.list[i].value, dt)];
    assert IndexOf(c0.list, Some(log'[|log|].id)) == i;
  }

  lemma RemovedGoneGrow(l: nat, i: nat, c: Clock, log: seq<Event>, e: Event)
    requires i <= l <= |c.list| && RemovedGone(l, i, c, log) && e.Advanced?
    ensures RemovedGone(l, i, c, log + [e])
  {
  }

  lemma AdvanceNotRemoved(c0: Clock, dt: real, l: nat, i: nat, c: Clock, log: seq<Event>)
    requires i < l <= |c.list| && c.list[i].Some?
    requires RemovedGone(l, i, c, log) && NoAdvanceAfterRemove(log)
    ensures NoAdvanceAfterRemove(log + [Advanced(c.list[i].value, dt)])
  {
    assert c.list[i] in c.list[i..l];
  }

  /** What a single call does to the list, in the terms the invariant needs. */
  lemma ApplyFacts(c: Clock, op: Op)
    requires Valid(c)
    ensures Valid(Apply(c, op))
    ensures |Apply(c, op).list| >= |c.list|
    ensures forall k :: 0 <= k < |c.list| ==>
      Apply(c, op).list[k] == c.list[k] || (Apply(c, op).list[k] == None && c.list[k] == RemovalOf(op))
    ensures RemovalOf(op).Some? ==> RemovalOf(op) !in Apply(c, op).list
  {
  }

  /** A call into the clock made during the pass keeps the invariant. */
  lemma StepCall(c0: Clock, dt: real, l: nat, i: nat, c: Clock, log: seq<Event>, op: Op)
    requires PassInv(c0, dt, l, i, c, log)
    ensures PassInv(c0, dt, l, i, Apply(c, op), log + [Called(op)])
  {
    var c' := Apply(c, op);
    ApplyFacts(c, op);
    CallsAppend(log, Called(op));
    ReplayAppend(c0, Calls(log), op);
    CallKeepsTombstoned(c0, l, c, c', log, op);
    CallCovers(c0, dt, i, log, op);
    CallOrdered(c0, dt, i, log, op);
    CallRemovedGone(l, i, c, c', log, op);
    CallNoAdvance(log, op);
  }

  lemma CallKeepsTombstoned(c0: Clock, l: nat, c: Clock, c': Clock, log: seq<Event>, op: Op)
    requires l <= |c0.list| && l <= |c.list| <= |c'.list| && OnlyTombstoned(c0, l, c, log)
    requires forall k :: 0 <= k < |c.list| ==>
      c'.list[k] == c.list[k] || (c'.list[k] == None && c.list[k] == RemovalOf(op))
    ensures OnlyTombstoned(c0, l, c', log + [Called(op)])
  {
    forall k | 0 <= k < l && c'.list[k] != c0.list[k]
      ensures Called(RemoveCall(c0.list[k])) in log + [Called(op)]
    {
      if c.list[k] == c0.list[k] {
        assert c0.list[k] == RemovalOf(op) && c0.list[k] != None;
        assert op == RemoveCall(c0.list[k]);
        assert (log + [Called(op)])[|log|] == Called(op);
      }
    }
  }

  lemma CallCovers(c0: Clock, dt: real, i: nat, log: seq<Event>, op: Op)
    requires i <= |c0.list| && Covered(c0, dt, i, log)
    ensures Covered(c0, dt, i, log + [Called(op)])
  {
    forall k | 0 <= k < i && c0.list[k].Some? && Advanced(c0.list[k].value, dt) !in log
      ensures RemovedBeforeTurn(c0.list, k, log + [Called(op)])
    {
      RemovedBeforeTurnGrow(c0.list, k, log, [Called(op)]);
    }
  }

  lemma CallOrdered(c0: Clock, dt: real, i: nat, log: seq<Event>, op: Op)
    requires AdvancesInOrder(c0, dt, i, log)
    ensures AdvancesInOrder(c0, dt, i, log + [Called(op)])
  {
    var log' := log + [Called(op)];
    assert forall j :: 0 <= j < |log| ==> log'[j] == log[j];
  }

  lemma CallRemovedGone(l: nat, i: nat, c: Clock, c': Clock, log: seq<Event>, op: Op)
    requires i <= l <= |c.list| <= |c'.list| && RemovedGone(l, i, c, log)
    requires forall k :: 0 <= k < |c.list| ==>
      c'.list[k] == c.list[k] || (c'.list[k] == None && c.list[k] == RemovalOf(op))
    requires RemovalOf(op).Some? ==> RemovalOf(op) !in c'.list
    ensures RemovedGone(l, i, c', log + [Called(op)])
  {
    var log' := log + [Called(op)];
    forall j | 0 <= j < |log'| && log'[j].Called? && RemovalOf(log'[j].op).Some?
      ensures RemovalOf(log'[j].op) !in c'.list[i..l]
    {
      var y := RemovalOf(log'[j].op);
      if j < |log| {
        assert y !in c.list[i..l];
      } else {
        assert y == RemovalOf(op);
      }
    }
  }

  lemma CallNoAdvance(log: seq<Event>, op: Op)
    requires NoAdvanceAfterRemove(log)
    ensures NoAdvanceAfterRemove(log + [Called(op)])
  {
    var log' := log + [Called(op)];
    assert forall j :: 0 <= j < |log| ==> log'[j] == log[j];
  }

  /** What a pass over the starting list `start` guarantees about the
      animations it advances: each advance is of a registered animation, by
      `dt`, in registration order, never after a removal of that animation;
      and every registered animation is advanced unless it was removed
      before its turn. */
  ghost predicate PassAdvances(start: seq<Option<Id>>, dt: real, log: seq<Event>) {
    && (forall j :: 0 <= j < |log| && log[j].Advanced? ==> Some(log[j].id) in start && log[j].dt == dt)
    && (forall j, k :: 0 <= j < k < |log| && log[j].Advanced? && log[k].Advanced? ==>
          IndexOf(start, Some(log[j].id)) < IndexOf(start, Some(log[k].id)))
    && (forall j, k :: 0 <= j < k < |log| && log[j].Called? && log[j].op.RemoveCall? && log[k].Advanced? ==>
          log[j].op.target != Some(log[k].id))
    && (forall k :: 0 <= k < |start| && start[k].Some? ==>
          Advanced(start[k].value, dt) in log || RemovedBeforeTurn(start, k, log))
  }

  /** The animations a log advances, in order. */
  function Advances(log: seq<Event>): seq<Id>
    decreases |log|
  {
    if |log| == 0 then []
    else Advances(log[..|log| - 1]) + (if log[|log| - 1].Advanced? then [log[|log| - 1].id] else [])
  }

  /** The log of a pass that advances `xs` in order, where each animation
      makes exactly its own calls, `effects` of it, right after its advance. */
  function Trace(xs: seq<Id>, dt: real, effects: Id -> seq<Op>): seq<Event>
    decreases |xs|
  {
    if |xs| == 0 then []
    else Trace(xs[..|xs| - 1], dt, effects) + [Advanced(xs[|xs| - 1], dt)] + CallEvents(effects(xs[|xs| - 1]))
  }

  /** `log` is the trace of the animations it advances: nothing but their
      advances and, after each, the calls that animation makes. */
  ghost predicate TraceOf(log: seq<Event>, dt: real, effects: Id -> seq<Op>) {
    log == Trace(Advances(log), dt, effects)
  }

  lemma {:induction false} AdvancesAppend(a: seq<Event>, b: seq<Event>)
    ensures Advances(a + b) == Advances(a) + Advances(b)
    decreases |b|
  {
    if |b| == 0 {
      assert a + b == a;
    } else {
      var b' := b[..|b| - 1];
      AdvancesAppend(a, b');
      assert (a + b)[..|a + b| - 1] == a + b';
      assert (a + b)[|a + b| - 1] == b[|b| - 1];
    }
  }

  lemma {:induction false} AdvancesOfCalls(ops: seq<Op>)
    ensures Advances(CallEvents(ops)) == []
    decreases |ops|
  {
    if |ops| > 0 {
      AdvancesOfCalls(ops[..|ops| - 1]);
      var r := CallEvents(ops);
      assert r[..|r| - 1] == CallEvents(ops[..|ops| - 1]);
    }
  }

  /** Advancing one more animation and logging its calls extends the trace. */
  lemma TraceStep(log: seq<Event>, x: Id, dt: real, effects: Id -> seq<Op>)
    requires TraceOf(log, dt, effects)
    ensures TraceOf(log + [Advanced(x, dt)] + CallEvents(effects(x)), dt, effects)
  {
    var log' := log + [Advanced(x, dt)] + CallEvents(effects(x));
    AdvancesAppend(log, [Advanced(x, dt)]);
    assert Advances([Advanced(x, dt)]) == [x] by {
      assert [Advanced(x, dt)][..0] == [];
    }
    AdvancesAppend(log + [Advanced(x, dt)], CallEvents(effects(x)));
    AdvancesOfCalls(effects(x));
    var xs := Advances(log) + [x];
    assert Advances(log') == xs;
    assert xs[..|xs| - 1] == Advances(log);
  }

  /** A pass in which no animation calls back into the clock advances every
      registered animation and replays no call. */
  lemma QuietPass(start: seq<Option<Id>>, dt: real, effects: Id -> seq<Op>, log: seq<Event>)
    requires forall x :: effects(x) == []
    requires TraceOf(log, dt, effects) && PassAdvances(start, dt, log)
    ensures Calls(log) == []
    ensures forall k :: 0 <= k < |start| && start[k].Some? ==> Advanced(start[k].value, dt) in log
  {
    QuietTrace(Advances(log), dt, effects);
    QuietCalls(log);
  }

  lemma {:induction false} QuietTrace(xs: seq<Id>, dt: real, effects: Id -> seq<Op>)
    requires forall x :: effects(x) == []
    ensures forall j :: 0 <= j < |Trace(xs, dt, effects)| ==> Trace(xs, dt, effects)[j].Advanced?
    decreases |xs|
  {
    if |xs| > 0 {
      QuietTrace(xs[..|xs| - 1], dt, effects);
      assert CallEvents(effects(xs[|xs| - 1])) == [];
    }
  }

  lemma {:induction false} QuietCalls(log: seq<Event>)
    requires forall j :: 0 <= j < |log| ==> log[j].Advanced?
    ensures Calls(log) == []
    decreases |log|
  {
    if |log| > 0 {
      QuietCalls(log[..|log| - 1]);
    }
  }

  /** The visit loop: positions `0 .. l-1`, where `l` is the length at the
      start; tombstones are skipped, live entries are advanced by `dt`, and
      every call an advanced animation makes is applied immediately. */
  method Visit(c0: Clock, dt: real, effects: Id -> seq<Op>) returns (c: Clock, log: seq<Event>)
    requires Valid(c0)
    ensures Valid(c) && c == Replay(c0, Calls(log))
    ensures c.time == c0.time && c.timeScale == c0.timeScale && c.playing == c0.playing
    ensures PassAdvances(c0.list, dt, log)
    ensures TraceOf(log, dt, effects)
  {
    c, log := VisitLoop(c0, dt, effects);
    PassOutcome(c0, dt, c, log);
  }

  method VisitLoop(c0: Clock, dt: real, effects: Id -> seq<Op>) returns (c: Clock, log: seq<Event>)
    requires Valid(c0)
    ensures PassInv(c0, dt, |c0.list|, |c0.list|, c, log)
    ensures TraceOf(log, dt, effects)
  {
    c, log := c0, [];
    var l := |c0.list|;
    var i := 0;
    PassStart(c0, dt);
    while i < l
      invariant PassInv(c0, dt, l, i, c, log)
      invariant TraceOf(log, dt, effects)
      decreases l - i
    {
      if c.list[i].Some? {
        var x := c.list[i].value;
        StepAdvance(c0, dt, l, i, c, log);
        TraceStep(log, x, dt, effects);
        log := log + [Advanced(x, dt)];
        c, log := Dispatch(c0, dt, l, i + 1, c, log, effects(x));
      } else {
        StepSkip(c0, dt, l, i, c, log);
      }
      i := i + 1;
    }
  }

  /** The calls the animation just advanced makes, applied in order. */
  method Dispatch(ghost c0: Clock, ghost dt: real, ghost l: nat, ghost i: nat, c: Clock, log: seq<Event>, ops: seq<Op>)
    returns (c': Clock, log': seq<Event>)
    requires PassInv(c0, dt, l, i, c, log)
    ensures PassInv(c0, dt, l, i, c', log')
    ensures log' == log + CallEvents(ops)
  {
    c', log' := c, log;
    var j := 0;
    while j < |ops|
      invariant j <= |ops|
      invariant PassInv(c0, dt, l, i, c', log')
      invariant log' == log + CallEvents(ops[..j])
    {
      StepCall(c0, dt, l, i, c', log', ops[j]);
      assert ops[..j + 1][..j] == ops[..j];
      c' := Apply(c', ops[j]);
      log' := log' + [Called(ops[j])];
      j := j + 1;
    }
    assert ops[..|ops|] == ops;
  }

  /** The log entries of the calls `ops`, in order. */
  function CallEvents(ops: seq<Op>): (r: seq<Event>)
    ensures |r| == |ops| && forall k :: 0 <= k < |ops| ==> r[k] == Called(ops[k])
    decreases |ops|
  {
    if |ops| == 0 then []
    else CallEvents(ops[..|ops| - 1]) + [Called(ops[|ops| - 1])]
  }

  /** One tick of the world clock. */
  method AdvanceTime(c: Clock, passed: Float, effects: Id -> seq<Op>) returns (c': Clock, log: seq<Event>)
    requires Valid(c)
    ensures Valid(c')
    // while stopped nothing happens
    ensures !c.playing ==> c' == c && log == []
    // time grows by the sanitised delta times the scale, even with no registrations
    ensures c.playing ==> c'.time == c.time + Delta(passed, c.timeScale)
    ensures c'.time >= c.time
    ensures c'.playing == c.playing && c'.timeScale == c.timeScale
    ensures c.playing && c.list == [] ==> c' == c.(time := c'.time) && log == []
    // after a pass over a non-empty list the list is compacted
    ensures c.playing && c.list != [] ==> !c'.dirty && None !in c'.list
    // the registrations are those of the calls made, replayed in order, compacted
    ensures c.playing ==> c'.list == Live(Replay(c, Calls(log)).list)
    // the registered animations are advanced by the scaled delta, once each, in
    // registration order, except those removed before their turn
    ensures c.playing ==> PassAdvances(c.list, Delta(passed, c.timeScale), log)
    // the log holds only those advances, each followed by that animation's own calls
    ensures TraceOf(log, Delta(passed, c.timeScale), effects)
  {
    if !c.playing {
      return c, [];
    }
    var dt := Delta(passed, c.timeScale);
    if |c.list| == 0 {
      return c.(time := c.time + dt), [];
    }
    // `WorldClock::advanceTime` moves the clock time forward before the
    // visit; the calls modelled here neither read nor write it, so it is
    // stored last.
    var c2;
    c2, log := Pass(c, dt, effects);
    c' := c2.(time := c.time + dt);
  }

  /** The visit pass followed by the compaction, on a non-empty list. */
  method Pass(c: Clock, dt: real, effects: Id -> seq<Op>) returns (c': Clock, log: seq<Event>)
    requires Valid(c)
    ensures Valid(c') && !c'.dirty && None !in c'.list
    ensures c'.list == Live(Replay(c, Calls(log)).list)
    ensures c'.time == c.time && c'.timeScale == c.timeScale && c'.playing == c.playing
    ensures PassAdvances(c.list, dt, log)
    ensures TraceOf(log, dt, effects)
  {
    var visited;
    visited, log := Visit(c, dt, effects);
    c' := CompactClock(visited);
  }

  /** The time a tick moves the clock by: the passed time, replaced by zero
      when negative or NaN, times the time scale. */
  function Delta(passed: Float, scale: real): (dt: real)
    requires scale >= 0.0
    ensures dt >= 0.0
    ensures scale == 1.0 ==> dt == OrIfInvalid(passed, 0.0)
    ensures !NonNegative(passed) ==> dt == 0.0
    ensures NonNegative(passed) ==> dt == passed.val * scale
  {
    var p := OrIfInvalid(passed, 0.0);
    assert p * scale >= 0.0;
    p * scale
  }

  /** The clean-up after the visit pass: when an entry was tombstoned, the
      list is compacted and the dirty flag cleared; otherwise nothing changes. */
  method CompactClock(c: Clock) returns (c': Clock)
    requires Valid(c)
    ensures Valid(c') && !c'.dirty && None !in c'.list
    ensures c'.list == Live(c.list)
    ensures forall x :: x in c'.list <==> x in c.list && x.Some?
    ensures c' == c.(list := c'.list, dirty := false)
    ensures !c.dirty ==> c' == c
  {
    if c.dirty {
      var compacted := Compact(c.list);
      LiveDistinct(c.list);
      c' := c.(list := compacted, dirty := false);
    } else {
      LiveIdentity(c.list);
      c' := c;
    }
    LiveMembership(c.list);
  }

  /** What the visit loop guarantees once every position of the starting list
      is visited. */
  lemma PassOutcome(c0: Clock, dt: real, c: Clock, log: seq<Event>)
    requires PassInv(c0, dt, |c0.list|, |c0.list|, c, log)
    ensures Valid(c) && c == Replay(c0, Calls(log))
    ensures c.time == c0.time && c.timeScale == c0.timeScale && c.playing == c0.playing
    ensures PassAdvances(c0.list, dt, log)
  {
    ReplayKeepsClock(c0, Calls(log));
    forall j, k | 0 <= j < k < |log| && log[j].Called? && log[j].op.RemoveCall? && log[k].Advanced?
      ensures log[j].op.target != Some(log[k].id)
    {
      assert RemovalOf(log[j].op) == log[j].op.target;
    }
  }

  /** Calls change only the list and the dirty flag. */
  lemma {:induction false} ReplayKeepsClock(c: Clock, ops: seq<Op>)
    ensures Replay(c, ops).time == c.time
    ensures Replay(c, ops).timeScale == c.timeScale
    ensures Replay(c, ops).playing == c.playing
    decreases |ops|
  {
    if |ops| > 0 {
      ReplayKeepsClock(c, ops[..|ops| - 1]);
    }
  }

  /** Replaying calls only touches the list and the dirty flag. */
  lemma {:induction false} ReplayTime(c: Clock, c1: Clock, ops: seq<Op>)
    requires c1 == c.(time := c1.time)
    ensures Replay(c1, ops).list == Replay(c, ops).list
    ensures Replay(c1, ops) == Replay(c, ops).(time := c1.time)
    decreases |ops|
  {
    if |ops| > 0 {
      ReplayTime(c, c1, ops[..|ops| - 1]);
    }
  }
}
