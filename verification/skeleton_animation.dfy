/** `MySkeletonAnimation`: the running flag and pose updates, the choice
    between clock-driven and self-scheduled time advancement, the slot to
    overlay-node bindings, and `draw`, which takes the split path whenever a
    node is bound. */
module SkeletonAnimation {
  import opened Options
  import WorldClock
  import opened DrawOrder
  import opened Batching

  /** The debug flags of the skeleton renderer, or what debug drawing
      actually drew: slot outlines and bones. */
  datatype Debug = Debug(slots: bool, bones: bool)

  /** The state of one animated skeleton that the model tracks.
      `scheduled` is the subscription to the per-frame scheduler,
      `slotNodes` is `_slotNodeMap`, `children` the nodes whose parent is this
      skeleton, `shown` the visible nodes among them, `pool` the size of
      `_splitDrawCommands`, and `updates` the deltas handed to the base
      class's pose update so far. */
  datatype Animation = Animation(
    running: bool,
    scheduled: bool,
    slotNodes: map<SlotId, NodeId>,
    children: set<NodeId>,
    shown: set<NodeId>,
    pool: nat,
    updates: seq<real>)

  /** Every bound overlay node is hidden outside its visit. */
  predicate OverlaysHidden(a: Animation) {
    forall s :: s in a.slotNodes ==> a.slotNodes[s] !in a.shown
  }

  /** A new skeleton: running, nothing bound, an empty command pool. Whether
      the base class subscribed it to the per-frame scheduler is a parameter. */
  function NewAnimation(scheduled: bool): (a: Animation)
    ensures a.running && a.scheduled == scheduled
    ensures |a.slotNodes| == 0 && a.pool == 0 && a.updates == []
    ensures OverlaysHidden(a)
  {
    Animation(true, scheduled, map[], {}, {}, 0, [])
  }

  // ---------------------------------------------------------------------------
  // Pose updates and the running flag.

  /** `update` and `advanceTime`, which do the same: nothing while paused,
      else one pose update by `dt`. */
  function Update(a: Animation, dt: real): (a': Animation)
    ensures !a.running ==> a' == a
    ensures a.running ==> a'.updates == a.updates + [dt] && a' == a.(updates := a'.updates)
  {
    if !a.running then a else a.(updates := a.updates + [dt])
  }

  function Pause(a: Animation): (a': Animation)
    ensures !a'.running && a' == a.(running := false)
  {
    a.(running := false)
  }

  function Resume(a: Animation): (a': Animation)
    ensures a'.running && a' == a.(running := true)
  {
    a.(running := true)
  }

  /** A paused skeleton ignores any number of updates, and resuming picks up
      with the next one; the scheduling mode is not touched either way. */
  lemma PauseFreezes(a: Animation, dts: seq<real>, dt: real)
    ensures UpdateAll(Pause(a), dts) == Pause(a)
    ensures Update(Resume(UpdateAll(Pause(a), dts)), dt).updates == a.updates + [dt]
    ensures Pause(a).scheduled == a.scheduled && Resume(a).scheduled == a.scheduled
  {
    PausedIgnores(Pause(a), dts);
  }

  function UpdateAll(a: Animation, dts: seq<real>): Animation
    decreases |dts|
  {
    if |dts| == 0 then a else UpdateAll(Update(a, dts[0]), dts[1..])
  }

  lemma {:induction false} PausedIgnores(a: Animation, dts: seq<real>)
    requires !a.running
    ensures UpdateAll(a, dts) == a
    decreases |dts|
  {
    if |dts| > 0 {
      PausedIgnores(Update(a, dts[0]), dts[1..]);
    }
  }

  // ---------------------------------------------------------------------------
  // Clock-driven or self-scheduled.

  /** The result of switching modes: the skeleton and the world clock. */
  datatype Switched = Switched(anim: Animation, clock: WorldClock.Clock)

  /** Exactly one source advances the skeleton: the world clock or the
      per-frame scheduler. */
  predicate ModeExclusive(a: Animation, clock: WorldClock.Clock, self: WorldClock.Id) {
    a.scheduled != WorldClock.Contains(clock, Some(self))
  }

  /** `setAdvanceTimeByClock(isClock)`: nothing if the clock membership
      already equals `isClock`; else join the clock and leave the scheduler,
      or leave the clock and join the scheduler. */
  function SetAdvanceTimeByClock(a: Animation, clock: WorldClock.Clock, self: WorldClock.Id, isClock: bool): (r: Switched)
    requires WorldClock.Valid(clock)
    ensures WorldClock.Valid(r.clock)
    ensures WorldClock.Contains(r.clock, Some(self)) == isClock
    ensures isClock == WorldClock.Contains(clock, Some(self)) ==> r == Switched(a, clock)
    ensures isClock != WorldClock.Contains(clock, Some(self)) ==>
      r.anim == a.(scheduled := !isClock) && ModeExclusive(r.anim, r.clock, self)
    ensures ModeExclusive(a, clock, self) ==> ModeExclusive(r.anim, r.clock, self)
  {
    if isClock == WorldClock.Contains(clock, Some(self)) then Switched(a, clock)
    else if isClock then Switched(a.(scheduled := false), WorldClock.Add(clock, Some(self)))
    else Switched(a.(scheduled := true), WorldClock.Remove(clock, Some(self)))
  }

  /** Switching twice to the same mode is the same as switching once. */
  lemma SetAdvanceTimeByClockIdempotent(a: Animation, clock: WorldClock.Clock, self: WorldClock.Id, isClock: bool)
    requires WorldClock.Valid(clock)
    ensures var r := SetAdvanceTimeByClock(a, clock, self, isClock);
      SetAdvanceTimeByClock(r.anim, r.clock, self, isClock) == r
  {
  }

  /** Only the skeleton's own registration changes: every other entity is
      registered with the clock afterwards exactly when it was before. */
  lemma SetAdvanceTimeByClockLocal(a: Animation, clock: WorldClock.Clock, self: WorldClock.Id, isClock: bool,
                                   other: WorldClock.Id)
    requires WorldClock.Valid(clock) && other != self
    ensures WorldClock.Contains(SetAdvanceTimeByClock(a, clock, self, isClock).clock, Some(other))
        == WorldClock.Contains(clock, Some(other))
  {
    var r := SetAdvanceTimeByClock(a, clock, self, isClock);
    if isClock != WorldClock.Contains(clock, Some(self)) && !isClock {
      if Some(other) in clock.list {
        var k :| 0 <= k < |clock.list| && clock.list[k] == Some(other);
        assert r.clock.list[k] == Some(other);
      }
      if Some(other) in r.clock.list {
        var k :| 0 <= k < |r.clock.list| && r.clock.list[k] == Some(other);
        assert clock.list[k] == Some(other);
      }
    }
  }

  // ---------------------------------------------------------------------------
  // Slot bindings.

  /** The skeleton's slot lookup by name: the first slot with that name. */
  function FindSlot(names: seq<string>, name: string): (r: Option<SlotId>)
    ensures r.None? <==> name !in names
    ensures r.Some? ==> r.value < |names| && names[r.value] == name &&
                        forall j :: 0 <= j < r.value ==> names[j] != name
    decreases |names|
  {
    if |names| == 0 then None
    else if names[0] == name then Some(0)
    else match FindSlot(names[1..], name)
      case None => None
      case Some(k) => Some(k + 1)
  }

  /** `getSlotNode`: the node bound to the named slot, if the slot exists
      and is bound. */
  function GetSlotNode(a: Animation, names: seq<string>, name: string): (r: Option<NodeId>)
    ensures r.Some? <==> FindSlot(names, name).Some? && FindSlot(names, name).value in a.slotNodes
    ensures r.Some? ==> r.value == a.slotNodes[FindSlot(names, name).value]
  {
    match FindSlot(names, name)
    case None => None
    case Some(s) => if s in a.slotNodes then Some(a.slotNodes[s]) else None
  }

  /** The skeleton after a call and the node the call returned. */
  datatype Bound = Bound(anim: Animation, node: Option<NodeId>)

  /** `bindSlotNode(name, node)`: nothing for an unknown slot; the existing
      node, with nothing changed, for a bound slot; else the given node (or
      `created`, standing for a fresh `Node::create()`) becomes a hidden
      child bound to the slot. */
  function BindSlotNode(a: Animation, names: seq<string>, name: string, node: Option<NodeId>, created: NodeId): (r: Bound)
    ensures FindSlot(names, name).None? ==> r == Bound(a, None)
    ensures FindSlot(names, name).Some? && FindSlot(names, name).value in a.slotNodes ==>
      r == Bound(a, Some(a.slotNodes[FindSlot(names, name).value]))
    ensures FindSlot(names, name).Some? && FindSlot(names, name).value !in a.slotNodes ==>
      var s := FindSlot(names, name).value;
      var n := if node.Some? then node.value else created;
      && r.node == Some(n)
      && r.anim.slotNodes == a.slotNodes[s := n]
      && r.anim.children == a.children + {n}
      && r.anim.shown == a.shown - {n}
      && r.anim == a.(slotNodes := r.anim.slotNodes, children := r.anim.children, shown := r.anim.shown)
  {
    match FindSlot(names, name)
    case None => Bound(a, None)
    case Some(s) =>
      if s in a.slotNodes then Bound(a, Some(a.slotNodes[s]))
      else
        var n := node.GetOr(created);
        Bound(a.(slotNodes := a.slotNodes[s := n], children := a.children + {n}, shown := a.shown - {n}), Some(n))
  }

  /** `unbindSlotNode(name)`: the binding stays; only the bound node stops
      being a child of the skeleton. */
  function UnbindSlotNode(a: Animation, names: seq<string>, name: string): (a': Animation)
    ensures a'.slotNodes == a.slotNodes && a'.shown == a.shown
    ensures GetSlotNode(a, names, name).None? ==> a' == a
    ensures GetSlotNode(a, names, name).Some? ==>
      a' == a.(children := a.children - {GetSlotNode(a, names, name).value})
  {
    match GetSlotNode(a, names, name)
    case None => a
    case Some(n) => if n in a.children then a.(children := a.children - {n}) else a
  }

  /** After a bind of a known slot, looking the slot up finds the node the
      bind returned. */
  lemma BindThenGet(a: Animation, names: seq<string>, name: string, node: Option<NodeId>, created: NodeId)
    requires name in names
    ensures var r := BindSlotNode(a, names, name, node, created);
      r.node.Some? && GetSlotNode(r.anim, names, name) == r.node
  {
  }

  /** Binding is idempotent: a second bind, with any node, returns the first
      bind's node and changes nothing. */
  lemma BindIdempotent(a: Animation, names: seq<string>, name: string, node: Option<NodeId>, created: NodeId,
                       node2: Option<NodeId>, created2: NodeId)
    ensures var r := BindSlotNode(a, names, name, node, created);
      BindSlotNode(r.anim, names, name, node2, created2) == r
  {
  }

  /** A bind touches no other slot's binding. */
  lemma BindLeavesOthers(a: Animation, names: seq<string>, name: string, node: Option<NodeId>, created: NodeId,
                         other: string)
    requires FindSlot(names, other) != FindSlot(names, name)
    ensures GetSlotNode(BindSlotNode(a, names, name, node, created).anim, names, other) == GetSlotNode(a, names, other)
  {
  }

  /** Unbinding does not unbind: lookups are unchanged, and binding again
      hands back the detached node without making it a child again. */
  lemma UnbindKeepsBinding(a: Animation, names: seq<string>, name: string, other: string,
                           node: Option<NodeId>, created: NodeId)
    ensures GetSlotNode(UnbindSlotNode(a, names, name), names, other) == GetSlotNode(a, names, other)
    ensures GetSlotNode(a, names, name).Some? ==>
      var a' := UnbindSlotNode(a, names, name);
      && GetSlotNode(a, names, name).value !in a'.children
      && BindSlotNode(a', names, name, node, created) == Bound(a', GetSlotNode(a, names, name))
  {
  }

  /** Binding and unbinding keep every bound node hidden. */
  lemma BindingKeepsOverlaysHidden(a: Animation, names: seq<string>, name: string, node: Option<NodeId>, created: NodeId)
    requires OverlaysHidden(a)
    ensures OverlaysHidden(BindSlotNode(a, names, name, node, created).anim)
    ensures OverlaysHidden(UnbindSlotNode(a, names, name))
  {
    var r := BindSlotNode(a, names, name, node, created);
    if FindSlot(names, name).Some? && FindSlot(names, name).value !in a.slotNodes {
      var s := FindSlot(names, name).value;
      forall t | t in r.anim.slotNodes ensures r.anim.slotNodes[t] !in r.anim.shown {
        if t != s {
          assert r.anim.slotNodes[t] == a.slotNodes[t];
        }
      }
    }
  }

  // ---------------------------------------------------------------------------
  // Drawing.

  /** A render command, or a visit, in the order `draw` queues them. */
  datatype Command =
    | Whole(ops: seq<BatchOp>, debug: Debug)                // `drawSkeleton`
    | Range(begin: nat, end: nat, command: nat, ops: seq<BatchOp>) // a pooled `drawSplitSlot`
    | Visit(node: NodeId)                                  // an overlay node's visit
    | DebugDraw(debug: Debug)                              // `drawDebug`

  datatype DrawResult = DrawResult(anim: Animation, commands: seq<Command>)

  /** The commands of the split path's ranges, each followed by its overlay
      visit. */
  function SplitCommands(order: seq<Slot>, steps: seq<Step>, start: nat): seq<Command>
    requires Partition(steps, start, |order|)
    decreases |steps|
  {
    if |steps| == 0 then []
    else
      var s := steps[0];
      [Range(s.begin, s.end, s.command, DrawSlots(order, s.begin, s.end))]
      + (match s.overlay case Some(n) => [Visit(n)] case None => [])
      + SplitCommands(order, steps[1..], s.end)
  }

  /** The overlay nodes the steps visit. */
  function Visited(steps: seq<Step>): set<NodeId> {
    set j | 0 <= j < |steps| && steps[j].overlay.Some? :: steps[j].overlay.value
  }

  /** `draw`, with the split path's debug test given as `splitDebug`. With
      nothing bound a single whole-skeleton command, which draws the debug
      parts the flags ask for; otherwise the split ranges and visits, then
      `drawDebug` if `splitDebug` holds. */
  function DrawWith(a: Animation, order: seq<Slot>, debug: Debug, splitDebug: bool): (r: DrawResult)
    ensures |a.slotNodes| == 0 ==> r == DrawResult(a, [Whole(DrawSlots(order, 0, |order|), debug)])
    ensures |a.slotNodes| > 0 ==>
      && (forall k :: 0 <= k < |r.commands| ==> !r.commands[k].Whole?)
      && r.anim.pool >= a.pool
      && r.anim == a.(pool := r.anim.pool, shown := r.anim.shown)
      && r.anim.shown <= a.shown
  {
    if |a.slotNodes| == 0 then
      // drawSkeleton draws slot outlines and bones as the flags ask
      DrawResult(a, [Whole(DrawSlots(order, 0, |order|), debug)])
    else
      var split := SplitDraw(order, a.slotNodes, a.pool);
      PoolNeverShrinks(order, a.slotNodes, a.pool);
      var cmds := SplitCommands(order, split.steps, 0);
      SplitCommandsHaveNoWhole(order, split.steps, 0);
      DrawResult(a.(pool := split.pool, shown := a.shown - Visited(split.steps)),
            cmds + if splitDebug then [DebugDraw(debug)] else [])
  }

  lemma {:induction false} SplitCommandsHaveNoWhole(order: seq<Slot>, steps: seq<Step>, start: nat)
    requires Partition(steps, start, |order|)
    ensures forall k :: 0 <= k < |SplitCommands(order, steps, start)| ==> !SplitCommands(order, steps, start)[k].Whole?
    decreases |steps|
  {
    if |steps| > 0 {
      SplitCommandsHaveNoWhole(order, steps[1..], steps[0].end);
    }
  }

  /** The debug test of the split path as the code should have it, the same
      as the whole-skeleton path's. */
  predicate SplitDebugGuard(debug: Debug) {
    debug.slots || debug.bones
  }

  /** The debug test of the split path as written: `_debugBones` twice. */
  predicate SplitDebugGuardAsWritten(debug: Debug) {
    debug.bones || debug.bones
  }

  /** `draw` with the corrected split-path debug test. */
  function Draw(a: Animation, order: seq<Slot>, debug: Debug): (r: DrawResult)
    ensures DebugShown(r.commands) == debug
    ensures |a.slotNodes| > 0 ==> r.anim.pool >= a.pool
  {
    DebugShownDraw(a, order, debug);
    DrawWith(a, order, debug, SplitDebugGuard(debug))
  }

  /** `draw` as written. */
  function DrawAsWritten(a: Animation, order: seq<Slot>, debug: Debug): (r: DrawResult)
    ensures |a.slotNodes| == 0 ==> r == Draw(a, order, debug)
    ensures DebugShown(r.commands).slots == (debug.slots && (|a.slotNodes| == 0 || debug.bones))
  {
    DebugShownDraw(a, order, debug);
    DebugShownDrawAsWritten(a, order, debug);
    DrawWith(a, order, debug, SplitDebugGuardAsWritten(debug))
  }

  function JoinDebug(x: Debug, y: Debug): Debug {
    Debug(x.slots || y.slots, x.bones || y.bones)
  }

  /** What the commands' debug drawing shows in total. */
  function DebugShown(cmds: seq<Command>): Debug
    decreases |cmds|
  {
    if |cmds| == 0 then Debug(false, false)
    else
      var here := match cmds[0]
        case Whole(_, d) => d
        case DebugDraw(d) => d
        case _ => Debug(false, false);
      JoinDebug(here, DebugShown(cmds[1..]))
  }

  lemma {:induction false} DebugShownAppend(x: seq<Command>, y: seq<Command>)
    ensures DebugShown(x + y) == JoinDebug(DebugShown(x), DebugShown(y))
    decreases |x|
  {
    if |x| == 0 {
      assert x + y == y;
    } else {
      assert (x + y)[1..] == x[1..] + y;
      DebugShownAppend(x[1..], y);
    }
  }

  lemma {:induction false} SplitCommandsNoDebug(order: seq<Slot>, steps: seq<Step>, start: nat)
    requires Partition(steps, start, |order|)
    ensures DebugShown(SplitCommands(order, steps, start)) == Debug(false, false)
    decreases |steps|
  {
    if |steps| > 0 {
      var s := steps[0];
      var head := [Range(s.begin, s.end, s.command, DrawSlots(order, s.begin, s.end))];
      var visit: seq<Command> := match s.overlay case Some(n) => [Visit(n)] case None => [];
      SplitCommandsNoDebug(order, steps[1..], s.end);
      DebugShownAppend(head + visit, SplitCommands(order, steps[1..], s.end));
      DebugShownAppend(head, visit);
      assert DebugShown(head) == JoinDebug(Debug(false, false), DebugShown([]));
      if s.overlay.Some? {
        assert DebugShown(visit) == JoinDebug(Debug(false, false), DebugShown(visit[1..]));
      }
    }
  }

  lemma DebugShownDraw(a: Animation, order: seq<Slot>, debug: Debug)
    ensures DebugShown(DrawWith(a, order, debug, SplitDebugGuard(debug)).commands) == debug
  {
    DebugShownSplit(a, order, debug, SplitDebugGuard(debug));
  }

  lemma DebugShownDrawAsWritten(a: Animation, order: seq<Slot>, debug: Debug)
    ensures DebugShown(DrawWith(a, order, debug, SplitDebugGuardAsWritten(debug)).commands).slots
         == (debug.slots && (|a.slotNodes| == 0 || debug.bones))
  {
    DebugShownSplit(a, order, debug, SplitDebugGuardAsWritten(debug));
  }

  lemma DebugShownSplit(a: Animation, order: seq<Slot>, debug: Debug, splitDebug: bool)
    ensures |a.slotNodes| == 0 ==> DebugShown(DrawWith(a, order, debug, splitDebug).commands) == debug
    ensures |a.slotNodes| > 0 ==>
      DebugShown(DrawWith(a, order, debug, splitDebug).commands) == if splitDebug then debug else Debug(false, false)
  {
    var cmds := DrawWith(a, order, debug, splitDebug).commands;
    if |a.slotNodes| == 0 {
      assert DebugShown(cmds) == JoinDebug(debug, DebugShown([]));
    } else {
      var steps := SplitDraw(order, a.slotNodes, a.pool).steps;
      var tail: seq<Command> := if splitDebug then [DebugDraw(debug)] else [];
      SplitCommandsNoDebug(order, steps, 0);
      DebugShownAppend(SplitCommands(order, steps, 0), tail);
      if splitDebug {
        assert DebugShown(tail) == JoinDebug(debug, DebugShown([]));
      }
    }
  }

  /** The split path's debug test reads `_debugBones` twice: with only slot
      debugging on and a node bound, no slot outline is drawn, although the
      whole-skeleton path draws them for the same flags. */
  lemma SplitDebugDropsSlotOutlines()
    ensures var a := NewAnimation(true).(slotNodes := map[0 := 7]);
      var order := [Slot(0, true, true, false)];
      && DebugShown(DrawAsWritten(a, order, Debug(true, false)).commands) == Debug(false, false)
      && DebugShown(Draw(a, order, Debug(true, false)).commands) == Debug(true, false)
      && DebugShown(DrawAsWritten(NewAnimation(true), order, Debug(true, false)).commands) == Debug(true, false)
  {
    var a := NewAnimation(true).(slotNodes := map[0 := 7]);
    var order := [Slot(0, true, true, false)];
    DebugShownSplit(a, order, Debug(true, false), SplitDebugGuardAsWritten(Debug(true, false)));
  }

  /** The draw-order positions the commands add to the batch, in order. */
  function SlotsDrawn(cmds: seq<Command>): seq<nat>
    decreases |cmds|
  {
    if |cmds| == 0 then []
    else
      var here := match cmds[0]
        case Whole(ops, _) => Added(ops)
        case Range(_, _, _, ops) => Added(ops)
        case _ => [];
      here + SlotsDrawn(cmds[1..])
  }

  lemma {:induction false} SlotsDrawnAppend(x: seq<Command>, y: seq<Command>)
    ensures SlotsDrawn(x + y) == SlotsDrawn(x) + SlotsDrawn(y)
    decreases |x|
  {
    if |x| == 0 {
      assert x + y == y;
    } else {
      assert (x + y)[1..] == x[1..] + y;
      SlotsDrawnAppend(x[1..], y);
    }
  }

  lemma {:induction false} SlotsDrawnSplit(order: seq<Slot>, steps: seq<Step>, start: nat)
    requires Partition(steps, start, |order|)
    ensures SlotsDrawn(SplitCommands(order, steps, start)) == RangesDrawn(order, steps, start)
    decreases |steps|
  {
    if |steps| > 0 {
      var s := steps[0];
      var head := [Range(s.begin, s.end, s.command, DrawSlots(order, s.begin, s.end))];
      var visit: seq<Command> := match s.overlay case Some(n) => [Visit(n)] case None => [];
      SlotsDrawnSplit(order, steps[1..], s.end);
      SlotsDrawnAppend(head + visit, SplitCommands(order, steps[1..], s.end));
      SlotsDrawnAppend(head, visit);
      assert SlotsDrawn(head) == Added(DrawSlots(order, s.begin, s.end)) + SlotsDrawn([]);
      if s.overlay.Some? {
        assert SlotsDrawn(visit) == [] + SlotsDrawn(visit[1..]);
      }
    }
  }

  /** Binding overlay nodes never changes what is drawn: on either path, and
      whatever the split path's debug test, the batch receives exactly the
      drawable slots, each once, in draw order. */
  lemma DrawDrawsEverySlot(a: Animation, order: seq<Slot>, debug: Debug, splitDebug: bool)
    ensures SlotsDrawn(DrawWith(a, order, debug, splitDebug).commands) == DrawableIn(order, 0, |order|)
  {
    if |a.slotNodes| == 0 {
      WholePathDrawsEverySlot(order, debug);
    } else {
      var steps := SplitDraw(order, a.slotNodes, a.pool).steps;
      var tail: seq<Command> := if splitDebug then [DebugDraw(debug)] else [];
      assert SlotsDrawn(tail) == [] by {
        if splitDebug {
          assert SlotsDrawn(tail) == [] + SlotsDrawn([]);
        }
      }
      SplitPathDrawsEverySlot(order, steps, tail);
    }
  }

  lemma WholePathDrawsEverySlot(order: seq<Slot>, debug: Debug)
    ensures SlotsDrawn([Whole(DrawSlots(order, 0, |order|), debug)]) == DrawableIn(order, 0, |order|)
  {
    assert SlotsDrawn([Whole(DrawSlots(order, 0, |order|), debug)]) == Added(DrawSlots(order, 0, |order|)) + SlotsDrawn([]);
    DrawsDrawable(order, 0, |order|);
  }

  lemma SplitPathDrawsEverySlot(order: seq<Slot>, steps: seq<Step>, tail: seq<Command>)
    requires Partition(steps, 0, |order|)
    requires SlotsDrawn(tail) == []
    ensures SlotsDrawn(SplitCommands(order, steps, 0) + tail) == DrawableIn(order, 0, |order|)
  {
    SlotsDrawnAppend(SplitCommands(order, steps, 0), tail);
    SlotsDrawnSplit(order, steps, 0);
    RangesDrawnCover(order, steps, 0);
  }

  /** Each visit comes right after a range command whose last slot is bound
      to the visited node. */
  ghost predicate VisitsFollowRanges(order: seq<Slot>, binds: map<SlotId, NodeId>, cmds: seq<Command>) {
    forall k :: 0 <= k < |cmds| && cmds[k].Visit? ==>
      && k > 0 && cmds[k - 1].Range?
      && 0 < cmds[k - 1].end <= |order|
      && order[cmds[k - 1].end - 1].id in binds
      && binds[order[cmds[k - 1].end - 1].id] == cmds[k].node
  }

  lemma {:induction false} SplitVisitsFollowRanges(order: seq<Slot>, binds: map<SlotId, NodeId>, steps: seq<Step>, start: nat)
    requires Partition(steps, start, |order|) && EndsClose(order, binds, steps)
    ensures VisitsFollowRanges(order, binds, SplitCommands(order, steps, start))
    ensures |SplitCommands(order, steps, start)| > 0 ==> SplitCommands(order, steps, start)[0].Range?
    decreases |steps|
  {
    if |steps| > 0 {
      var s := steps[0];
      var rest := SplitCommands(order, steps[1..], s.end);
      assert EndsClose(order, binds, steps[1..]) by {
        forall j | 0 <= j < |steps[1..]| ensures steps[1..][j] == steps[j + 1] { }
      }
      SplitVisitsFollowRanges(order, binds, steps[1..], s.end);
      var head: seq<Command> := [Range(s.begin, s.end, s.command, DrawSlots(order, s.begin, s.end))]
        + (match s.overlay case Some(n) => [Visit(n)] case None => []);
      assert head + rest == SplitCommands(order, steps, start);
      StepVisitFollowsRange(order, binds, s, head);
      VisitsAppend(order, binds, head, rest);
    }
  }

  /** On the split path every overlay visit directly follows the range that
      ends at the slot the node is bound to, whatever the debug test. */
  lemma DrawVisitsFollowRanges(a: Animation, order: seq<Slot>, debug: Debug, splitDebug: bool)
    requires |a.slotNodes| > 0
    ensures VisitsFollowRanges(order, a.slotNodes, DrawWith(a, order, debug, splitDebug).commands)
  {
    var steps := SplitDraw(order, a.slotNodes, a.pool).steps;
    var split := SplitCommands(order, steps, 0);
    SplitVisitsFollowRanges(order, a.slotNodes, steps, 0);
    var tail: seq<Command> := if splitDebug then [DebugDraw(debug)] else [];
    assert DrawWith(a, order, debug, splitDebug).commands == split + tail;
    VisitsAppend(order, a.slotNodes, split, tail);
  }

  lemma StepVisitFollowsRange(order: seq<Slot>, binds: map<SlotId, NodeId>, s: Step, head: seq<Command>)
    requires s.begin <= s.end <= |order| && 0 < s.end
    requires Closes(order, binds, s.end - 1) && s.overlay == Overlay(order, binds, s.end - 1)
    requires head == [Range(s.begin, s.end, s.command, DrawSlots(order, s.begin, s.end))]
      + (match s.overlay case Some(n) => [Visit(n)] case None => [])
    ensures VisitsFollowRanges(order, binds, head) && head[0].Range?
  {
  }

  lemma VisitsAppend(order: seq<Slot>, binds: map<SlotId, NodeId>, x: seq<Command>, y: seq<Command>)
    requires VisitsFollowRanges(order, binds, x) && VisitsFollowRanges(order, binds, y)
    requires |y| > 0 ==> !y[0].Visit?
    ensures VisitsFollowRanges(order, binds, x + y)
  {
    var cmds := x + y;
    forall k | 0 <= k < |cmds| && cmds[k].Visit?
      ensures && k > 0 && cmds[k - 1].Range?
              && 0 < cmds[k - 1].end <= |order|
              && order[cmds[k - 1].end - 1].id in binds
              && binds[order[cmds[k - 1].end - 1].id] == cmds[k].node
    {
      if k < |x| {
        assert cmds[k] == x[k];
        assert cmds[k - 1] == x[k - 1];
      } else {
        assert cmds[k] == y[k - |x|];
        assert cmds[k - 1] == y[k - 1 - |x|];
      }
    }
  }

  /** After a draw, whatever the debug test, every bound node is hidden
      again, and the visited ones are no longer shown. */
  lemma DrawKeepsOverlaysHidden(a: Animation, order: seq<Slot>, debug: Debug, splitDebug: bool)
    requires OverlaysHidden(a)
    ensures OverlaysHidden(DrawWith(a, order, debug, splitDebug).anim)
    ensures |a.slotNodes| > 0 ==>
      DrawWith(a, order, debug, splitDebug).anim.shown == a.shown - Visited(SplitDraw(order, a.slotNodes, a.pool).steps)
  {
  }
}
