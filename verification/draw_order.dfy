/** `MySkeletonAnimation::splitDraw`: the draw order is cut into contiguous
    ranges of slots, each drawn by one pooled command, with the overlay node
    bound to the slot that closes a range visited right after that range. */
module DrawOrder {
  import opened Options

  /** Index of a slot in the skeleton's slot array (its identity). */
  type SlotId = nat
  /** Identity of an overlay scene node. */
  type NodeId = nat

  /** One entry of the draw order, reduced to what drawing looks at. */
  datatype Slot = Slot(id: SlotId, hasAttachment: bool, hasTexture: bool, additive: bool)

  /** A contiguous range `[begin, end)` of the draw order drawn by pooled
      command number `command`, followed by a visit of `overlay` if any. */
  datatype Step = Step(begin: nat, end: nat, command: nat, overlay: Option<NodeId>)

  /** The steps of one split draw and the pool size afterwards. */
  datatype Split = Split(steps: seq<Step>, pool: nat)

  function Max(a: int, b: int): int {
    if a < b then b else a
  }

  /** Position `i` closes a range: it is the last slot, or its slot has an
      attachment and a bound node. */
  predicate Closes(order: seq<Slot>, binds: map<SlotId, NodeId>, i: nat)
    requires i < |order|
  {
    i == |order| - 1 || (order[i].hasAttachment && order[i].id in binds)
  }

  /** The node bound to the slot at position `i`, if any. */
  function Overlay(order: seq<Slot>, binds: map<SlotId, NodeId>, i: nat): Option<NodeId>
    requires i < |order|
  {
    if order[i].id in binds then Some(binds[order[i].id]) else None
  }

  /** The steps cut `[start, n)` into non-empty contiguous ranges, in draw
      order (no steps when `start == n`). */
  predicate Partition(steps: seq<Step>, start: nat, n: nat)
    decreases |steps|
  {
    if |steps| == 0 then start == n
    else steps[0].begin == start < steps[0].end <= n && Partition(steps[1..], steps[0].end, n)
  }

  /** Every range ends at a position that closes a range, and carries the
      node bound to that position's slot. */
  predicate EndsClose(order: seq<Slot>, binds: map<SlotId, NodeId>, steps: seq<Step>) {
    forall j :: 0 <= j < |steps| ==>
      && 0 < steps[j].end <= |order|
      && Closes(order, binds, steps[j].end - 1)
      && steps[j].overlay == Overlay(order, binds, steps[j].end - 1)
  }

  /** No position strictly inside a range closes a range. */
  predicate NoInnerClose(order: seq<Slot>, binds: map<SlotId, NodeId>, steps: seq<Step>) {
    forall j, k :: 0 <= j < |steps| && steps[j].begin <= k < steps[j].end - 1 && k < |order| ==>
      !Closes(order, binds, k)
  }

  /** The ranges use consecutive pooled commands starting at `first`. */
  predicate Numbered(steps: seq<Step>, first: int) {
    forall j :: 0 <= j < |steps| ==> steps[j].command == first + j
  }

  /** The loop of `splitDraw` from position `i` on. `slotIdx` is the start of
      the pending range, `commandSize` the pool size on entry, `useIdx` the
      next pooled command to reuse and `size` the current pool size. */
  function SplitFrom(order: seq<Slot>, binds: map<SlotId, NodeId>, commandSize: nat,
                     i: nat, slotIdx: nat, useIdx: nat, size: nat): Split
    requires i <= |order|
    decreases |order| - i
  {
    if i == |order| then Split([], size)
    else if !Closes(order, binds, i) then
      // the two `continue` tests: no attachment, or no bound node, and not last
      SplitFrom(order, binds, commandSize, i + 1, slotIdx, useIdx, size)
    else
      var reuse := useIdx < commandSize;
      var step := Step(slotIdx, i + 1, if reuse then useIdx else size, Overlay(order, binds, i));
      var rest := SplitFrom(order, binds, commandSize, i + 1, i + 1,
                            if reuse then useIdx + 1 else useIdx, if reuse then size else size + 1);
      Split([step] + rest.steps, rest.pool)
  }

  /** What the loop produces from position `i` on, given that no position
      between the pending start and `i` closed a range. */
  ghost predicate SplitFacts(order: seq<Slot>, binds: map<SlotId, NodeId>, commandSize: nat,
                             slotIdx: nat, useIdx: nat, size: nat, r: Split)
  {
    && Partition(r.steps, slotIdx, |order|)
    && EndsClose(order, binds, r.steps)
    && NoInnerClose(order, binds, r.steps)
    && Numbered(r.steps, useIdx + (size - commandSize))
    && r.pool == Max(size, useIdx + (size - commandSize) + |r.steps|)
  }

  ghost predicate LoopState(order: seq<Slot>, binds: map<SlotId, NodeId>, commandSize: nat,
                            i: nat, slotIdx: nat, useIdx: nat, size: nat)
  {
    && slotIdx <= i <= |order|
    && (slotIdx == i || i < |order|)
    && useIdx <= commandSize <= size
    && (size > commandSize ==> useIdx == commandSize)
    && (forall k :: slotIdx <= k < i ==> !Closes(order, binds, k))
  }

  lemma {:induction false} SplitFromFacts(order: seq<Slot>, binds: map<SlotId, NodeId>, commandSize: nat,
                                          i: nat, slotIdx: nat, useIdx: nat, size: nat)
    requires LoopState(order, binds, commandSize, i, slotIdx, useIdx, size)
    ensures SplitFacts(order, binds, commandSize, slotIdx, useIdx, size,
                       SplitFrom(order, binds, commandSize, i, slotIdx, useIdx, size))
    decreases |order| - i, 1
  {
    if i == |order| {
    } else if !Closes(order, binds, i) {
      SplitFromFacts(order, binds, commandSize, i + 1, slotIdx, useIdx, size);
    } else {
      SplitEmitFacts(order, binds, commandSize, i, slotIdx, useIdx, size);
    }
  }

  /** The step at a closing position, prepended to what follows it. */
  lemma {:induction false} SplitEmitFacts(order: seq<Slot>, binds: map<SlotId, NodeId>, commandSize: nat,
                                          i: nat, slotIdx: nat, useIdx: nat, size: nat)
    requires LoopState(order, binds, commandSize, i, slotIdx, useIdx, size)
    requires i < |order| && Closes(order, binds, i)
    ensures SplitFacts(order, binds, commandSize, slotIdx, useIdx, size,
                       SplitFrom(order, binds, commandSize, i, slotIdx, useIdx, size))
    decreases |order| - i, 0
  {
    var reuse := useIdx < commandSize;
    var useIdx' := if reuse then useIdx + 1 else useIdx;
    var size' := if reuse then size else size + 1;
    assert LoopState(order, binds, commandSize, i + 1, i + 1, useIdx', size');
    SplitFromFacts(order, binds, commandSize, i + 1, i + 1, useIdx', size');
    var rest := SplitFrom(order, binds, commandSize, i + 1, i + 1, useIdx', size');
    EmitCombine(order, binds, commandSize, i, slotIdx, useIdx, size, rest);
  }

  /** The facts for the range closed at `i`, given those for what follows. */
  lemma EmitCombine(order: seq<Slot>, binds: map<SlotId, NodeId>, commandSize: nat,
                    i: nat, slotIdx: nat, useIdx: nat, size: nat, rest: Split)
    requires LoopState(order, binds, commandSize, i, slotIdx, useIdx, size)
    requires i < |order| && Closes(order, binds, i)
    requires var reuse := useIdx < commandSize;
      SplitFacts(order, binds, commandSize, i + 1, if reuse then useIdx + 1 else useIdx,
                 if reuse then size else size + 1, rest)
    ensures var reuse := useIdx < commandSize;
      var step := Step(slotIdx, i + 1, if reuse then useIdx else size, Overlay(order, binds, i));
      SplitFacts(order, binds, commandSize, slotIdx, useIdx, size, Split([step] + rest.steps, rest.pool))
  {
    var reuse := useIdx < commandSize;
    var step := Step(slotIdx, i + 1, if reuse then useIdx else size, Overlay(order, binds, i));
    assert step.command == useIdx + (size - commandSize);
    SplitPrepend(order, binds, step, rest.steps, slotIdx, i + 1);
    PoolStep(commandSize, useIdx, size, |rest.steps|, rest.pool);
  }

  /** One emitted range: reusing keeps the pool size, allocating grows it by one. */
  lemma PoolStep(commandSize: nat, useIdx: nat, size: nat, later: nat, pool: nat)
    requires useIdx <= commandSize <= size
    requires size > commandSize ==> useIdx == commandSize
    requires useIdx < commandSize ==> pool == Max(size, useIdx + 1 + (size - commandSize) + later)
    requires useIdx >= commandSize ==> pool == Max(size + 1, useIdx + (size + 1 - commandSize) + later)
    ensures pool == Max(size, useIdx + (size - commandSize) + 1 + later)
  {
  }

  lemma SplitPrepend(order: seq<Slot>, binds: map<SlotId, NodeId>, step: Step, rest: seq<Step>,
                     start: nat, mid: nat)
    requires step.begin == start < step.end == mid <= |order|
    requires Closes(order, binds, mid - 1) && step.overlay == Overlay(order, binds, mid - 1)
    requires forall k :: start <= k < mid - 1 ==> !Closes(order, binds, k)
    requires Partition(rest, mid, |order|)
    requires EndsClose(order, binds, rest) && NoInnerClose(order, binds, rest)
    requires Numbered(rest, step.command + 1)
    ensures Partition([step] + rest, start, |order|)
    ensures EndsClose(order, binds, [step] + rest) && NoInnerClose(order, binds, [step] + rest)
    ensures Numbered([step] + rest, step.command)
  {
    var all := [step] + rest;
    assert all[1..] == rest;
    assert forall j :: 1 <= j < |all| ==> all[j] == rest[j - 1];
  }

  /** `splitDraw` over a draw order with a pool of `pool` commands: a
      partition of the draw order into ranges that end exactly at the closing
      positions, numbered from 0, and a pool of `max(pool, ranges)` commands. */
  function SplitDraw(order: seq<Slot>, binds: map<SlotId, NodeId>, pool: nat): (r: Split)
    ensures Partition(r.steps, 0, |order|)
    ensures EndsClose(order, binds, r.steps)
    ensures NoInnerClose(order, binds, r.steps)
    ensures Numbered(r.steps, 0)
    ensures r.pool == Max(pool, |r.steps|)
  {
    SplitFromFacts(order, binds, pool, 0, 0, 0, pool);
    SplitFrom(order, binds, pool, 0, 0, 0, pool)
  }

  /** Every position of a partitioned interval lies in exactly one range. */
  lemma {:induction false} PartitionLocate(steps: seq<Step>, start: nat, n: nat, k: nat) returns (j: nat)
    requires Partition(steps, start, n) && start <= k < n
    ensures j < |steps| && steps[j].begin <= k < steps[j].end
    ensures forall j' :: 0 <= j' < |steps| && steps[j'].begin <= k < steps[j'].end ==> j' == j
    decreases |steps|
  {
    var rest := steps[1..];
    if k < steps[0].end {
      j := 0;
      PartitionBounds(rest, steps[0].end, n);
      forall j' | 0 < j' < |steps| ensures steps[j'].begin >= steps[0].end {
        assert steps[j'] == rest[j' - 1];
      }
    } else {
      var j0 := PartitionLocate(rest, steps[0].end, n, k);
      j := j0 + 1;
    }
  }

  /** The flat reading of a partition: the first range starts at `start`,
      the last ends at `n`, each is non-empty, and each starts where the
      previous one ended. */
  lemma {:induction false} PartitionBounds(steps: seq<Step>, start: nat, n: nat)
    requires Partition(steps, start, n)
    ensures start <= n
    ensures |steps| > 0 ==> steps[0].begin == start && steps[|steps| - 1].end == n
    ensures forall j :: 0 <= j < |steps| ==> start <= steps[j].begin < steps[j].end <= n
    ensures forall j :: 0 <= j < |steps| - 1 ==> steps[j].end == steps[j + 1].begin
    decreases |steps|
  {
    if |steps| > 0 {
      var rest := steps[1..];
      PartitionBounds(rest, steps[0].end, n);
      assert forall j :: 1 <= j < |steps| ==> steps[j] == rest[j - 1];
    }
  }

  /** A position closes a range exactly when some emitted range ends there:
      ranges are cut at the closing positions and nowhere else. */
  lemma ClosesIffRangeEnd(order: seq<Slot>, binds: map<SlotId, NodeId>, pool: nat, k: nat)
    requires k < |order|
    ensures var steps := SplitDraw(order, binds, pool).steps;
      Closes(order, binds, k) <==> exists j :: 0 <= j < |steps| && steps[j].end == k + 1
  {
    var steps := SplitDraw(order, binds, pool).steps;
    var j := PartitionLocate(steps, 0, |order|, k);
    if Closes(order, binds, k) {
      assert steps[j].end == k + 1;
    }
  }

  /** A bound slot with an attachment ends a range, and its node is visited
      right after that range. */
  lemma BoundSlotVisited(order: seq<Slot>, binds: map<SlotId, NodeId>, pool: nat, k: nat) returns (j: nat)
    requires k < |order| && order[k].hasAttachment && order[k].id in binds
    ensures var steps := SplitDraw(order, binds, pool).steps;
      j < |steps| && steps[j].end == k + 1 && steps[j].overlay == Some(binds[order[k].id])
  {
    var steps := SplitDraw(order, binds, pool).steps;
    j := PartitionLocate(steps, 0, |order|, k);
    assert Closes(order, binds, k);
    assert steps[j].end == k + 1;
  }

  /** A bound slot without an attachment closes no range unless it is last,
      so its node is never visited. */
  lemma BoundWithoutAttachment(order: seq<Slot>, binds: map<SlotId, NodeId>, pool: nat, k: nat)
    requires k < |order| - 1 && order[k].id in binds && !order[k].hasAttachment
    ensures forall j :: 0 <= j < |SplitDraw(order, binds, pool).steps| ==>
      SplitDraw(order, binds, pool).steps[j].end != k + 1
  {
  }

  /** The pool never shrinks, and it holds a command for every range drawn. */
  lemma PoolNeverShrinks(order: seq<Slot>, binds: map<SlotId, NodeId>, pool: nat)
    ensures SplitDraw(order, binds, pool).pool >= pool
    ensures forall j :: 0 <= j < |SplitDraw(order, binds, pool).steps| ==>
      SplitDraw(order, binds, pool).steps[j].command < SplitDraw(order, binds, pool).pool
  {
  }

  /** Five slots, the third bound: two ranges `[0, 3)` and `[3, 5)` with the
      overlay visited between them. */
  lemma FiveSlotExample()
    ensures var order := [Slot(0, true, true, false), Slot(1, true, true, false), Slot(2, true, true, false),
                          Slot(3, true, true, false), Slot(4, true, true, false)];
      SplitDraw(order, map[2 := 9], 0).steps == [Step(0, 3, 0, Some(9)), Step(3, 5, 1, None)]
  {
    var order := [Slot(0, true, true, false), Slot(1, true, true, false), Slot(2, true, true, false),
                  Slot(3, true, true, false), Slot(4, true, true, false)];
    var binds := map[2 := 9];
    assert !Closes(order, binds, 0) && !Closes(order, binds, 1) && Closes(order, binds, 2);
    assert !Closes(order, binds, 3) && Closes(order, binds, 4);
  }
}
