/** `MySkeletonAnimation::drawSkeleton` and `drawSplitSlot`: the slots of a
    range of the draw order are fed to the triangle batch, with the batch
    flushed and the blend function switched whenever the additive flag changes.
    The drawing calls are reduced to the stream of batch operations. */
module Batching {
  import opened DrawOrder

  /** What the draw loop does to the batch and the GL blend state. */
  datatype BatchOp =
    | Flush                 // `_batch->flush()`
    | Blend(additive: bool) // `GL::blendFunc(...)` for additive or normal blending
    | Add(index: nat)       // `_batch->add(...)` for the slot at this draw-order position

  /** A slot is drawn when it has an attachment whose type yields a texture. */
  predicate Drawable(s: Slot) {
    s.hasAttachment && s.hasTexture
  }

  /** The `int additive` tracker of the loop: -1 before any slot, then 0 or 1. */
  function Flag(b: bool): int {
    if b then 1 else 0
  }

  /** The positions in `[begin, end)` whose slot is drawn, in draw order. */
  function DrawableIn(order: seq<Slot>, begin: nat, end: nat): (r: seq<nat>)
    requires begin <= end <= |order|
    ensures forall j :: 0 <= j < |r| ==> begin <= r[j] < end && Drawable(order[r[j]])
    ensures forall j, k :: 0 <= j < k < |r| ==> r[j] < r[k]
    ensures forall p :: begin <= p < end && Drawable(order[p]) ==> p in r
    decreases end - begin
  {
    if begin == end then []
    else (if Drawable(order[begin]) then [begin] else []) + DrawableIn(order, begin + 1, end)
  }

  /** The loop body of `drawSplitSlot` (and of `drawSkeleton`) from position
      `i`, with `additive` the blend mode last set; the final flush closes it. */
  function BatchFrom(order: seq<Slot>, i: nat, end: nat, additive: int): seq<BatchOp>
    requires i <= end <= |order|
    decreases end - i
  {
    if i == end then [Flush]
    else if !Drawable(order[i]) then BatchFrom(order, i + 1, end, additive)
    else if Flag(order[i].additive) != additive then
      [Flush, Blend(order[i].additive), Add(i)] + BatchFrom(order, i + 1, end, Flag(order[i].additive))
    else [Add(i)] + BatchFrom(order, i + 1, end, additive)
  }

  /** The batch operations of drawing the slots at `[begin, end)`; the loop
      starts with no blend mode set. `drawSkeleton` is this over the whole
      draw order. Each drawn slot is added under its own blend mode, and the
      blend function is only switched when the mode changes, right after a
      flush. */
  function DrawSlots(order: seq<Slot>, begin: nat, end: nat): (r: seq<BatchOp>)
    requires begin <= end <= |order|
    ensures |r| > 0 && r[|r| - 1] == Flush
    ensures BlendsTrack(order, r, -1)
    ensures FlushBeforeBlend(r)
  {
    BatchTracks(order, begin, end, -1);
    BatchFrom(order, begin, end, -1)
  }

  /** Replaying `ops` from blend mode `mode`: every added slot is drawn under
      its own additive flag, and every blend switch changes the mode. */
  predicate BlendsTrack(order: seq<Slot>, ops: seq<BatchOp>, mode: int)
    decreases |ops|
  {
    if |ops| == 0 then true
    else match ops[0]
      case Flush => BlendsTrack(order, ops[1..], mode)
      case Blend(a) => Flag(a) != mode && BlendsTrack(order, ops[1..], Flag(a))
      case Add(p) => p < |order| && Flag(order[p].additive) == mode && BlendsTrack(order, ops[1..], mode)
  }

  /** Every blend switch comes directly after a flush. */
  predicate FlushBeforeBlend(ops: seq<BatchOp>) {
    forall k :: 0 <= k < |ops| && ops[k].Blend? ==> k > 0 && ops[k - 1] == Flush
  }

  lemma FlushBeforeBlendAppend(pre: seq<BatchOp>, rest: seq<BatchOp>)
    requires FlushBeforeBlend(pre) && FlushBeforeBlend(rest)
    ensures FlushBeforeBlend(pre + rest)
  {
    var r := pre + rest;
    forall k | 0 <= k < |r| && r[k].Blend? ensures k > 0 && r[k - 1] == Flush {
      if k >= |pre| {
        assert r[k] == rest[k - |pre|];
        if k > |pre| {
          assert r[k - 1] == rest[k - 1 - |pre|];
        }
      }
    }
  }

  lemma {:induction false} BatchTracks(order: seq<Slot>, i: nat, end: nat, mode: int)
    requires i <= end <= |order|
    ensures var r := BatchFrom(order, i, end, mode);
      && |r| > 0 && r[|r| - 1] == Flush
      && BlendsTrack(order, r, mode)
      && FlushBeforeBlend(r)
    decreases end - i
  {
    if i < end && Drawable(order[i]) {
      var a := order[i].additive;
      if Flag(a) != mode {
        BatchSwitchTracks(order, i, end, mode);
      } else {
        var rest := BatchFrom(order, i + 1, end, mode);
        BatchTracks(order, i + 1, end, mode);
        var r := [Add(i)] + rest;
        assert r[1..] == rest;
        FlushBeforeBlendAppend([Add(i)], rest);
      }
    } else if i < end {
      BatchTracks(order, i + 1, end, mode);
    }
  }

  lemma {:induction false} BatchSwitchTracks(order: seq<Slot>, i: nat, end: nat, mode: int)
    requires i < end <= |order| && Drawable(order[i]) && Flag(order[i].additive) != mode
    ensures var r := BatchFrom(order, i, end, mode);
      && |r| > 0 && r[|r| - 1] == Flush
      && BlendsTrack(order, r, mode)
      && FlushBeforeBlend(r)
    decreases end - i, 0
  {
    var a := order[i].additive;
    var rest := BatchFrom(order, i + 1, end, Flag(a));
    BatchTracks(order, i + 1, end, Flag(a));
    var r := [Flush, Blend(a), Add(i)] + rest;
    assert r[1..] == [Blend(a), Add(i)] + rest;
    assert r[1..][1..] == [Add(i)] + rest;
    assert r[1..][1..][1..] == rest;
    assert FlushBeforeBlend([Flush, Blend(a), Add(i)]);
    FlushBeforeBlendAppend([Flush, Blend(a), Add(i)], rest);
  }

  // ---------------------------------------------------------------------------
  // Reference: the drawn slots grouped into maximal runs of equal blend mode.

  /** A drawn slot: its draw-order position and its additive flag. */
  datatype Item = Item(index: nat, additive: bool)

  /** The drawn slots of `[begin, end)` with their blend modes, in draw order. */
  function Drawn(order: seq<Slot>, begin: nat, end: nat): seq<Item>
    requires begin <= end <= |order|
    decreases end - begin
  {
    if begin == end then []
    else (if Drawable(order[begin]) then [Item(begin, order[begin].additive)] else []) + Drawn(order, begin + 1, end)
  }

  /** `Drawn` lists exactly the positions of `DrawableIn`, each with its
      slot's additive flag. */
  lemma {:induction false} DrawnMatches(order: seq<Slot>, begin: nat, end: nat)
    requires begin <= end <= |order|
    ensures var items := Drawn(order, begin, end);
      && |items| == |DrawableIn(order, begin, end)|
      && forall k :: 0 <= k < |items| ==>
           items[k].index == DrawableIn(order, begin, end)[k] &&
           items[k].additive == order[items[k].index].additive
    decreases end - begin
  {
    if begin < end {
      DrawnMatches(order, begin + 1, end);
      var items := Drawn(order, begin, end);
      var rest := Drawn(order, begin + 1, end);
      var ps := DrawableIn(order, begin, end);
      var ps' := DrawableIn(order, begin + 1, end);
      if Drawable(order[begin]) {
        assert items == [Item(begin, order[begin].additive)] + rest;
        assert ps == [begin] + ps';
        forall k | 0 < k < |items|
          ensures items[k].index == ps[k] && items[k].additive == order[items[k].index].additive
        {
          assert items[k] == rest[k - 1] && ps[k] == ps'[k - 1];
        }
      } else {
        assert items == rest && ps == ps';
      }
    }
  }

  /** A maximal run of consecutively drawn slots sharing a blend mode. */
  datatype Run = Run(additive: bool, items: seq<Item>)

  /** Groups drawn slots into maximal runs by additive flag. */
  function Runs(items: seq<Item>): seq<Run>
    decreases |items|
  {
    if |items| == 0 then []
    else
      var rest := Runs(items[1..]);
      var x := items[0];
      if |rest| > 0 && rest[0].additive == x.additive then [Run(x.additive, [x] + rest[0].items)] + rest[1..]
      else [Run(x.additive, [x])] + rest
  }

  function Flatten(rs: seq<Run>): seq<Item>
    decreases |rs|
  {
    if |rs| == 0 then [] else rs[0].items + Flatten(rs[1..])
  }

  /** A run holds at least one slot, and all its slots share its blend mode. */
  predicate Uniform(r: Run) {
    |r.items| > 0 && forall k :: 0 <= k < |r.items| ==> r.items[k].additive == r.additive
  }

  /** Grouping into runs loses and reorders nothing; every run is non-empty
      and uniform, and two adjacent runs differ in blend mode. */
  lemma {:induction false} RunsAreMaximal(items: seq<Item>)
    ensures var rs := Runs(items);
      && Flatten(rs) == items
      && (forall j :: 0 <= j < |rs| ==> Uniform(rs[j]))
      && (forall j :: 0 <= j < |rs| - 1 ==> rs[j].additive != rs[j + 1].additive)
  {
    RunsFlatten(items);
    RunsUniform(items);
    RunsAlternate(items);
  }

  lemma {:induction false} RunsFlatten(items: seq<Item>)
    ensures Flatten(Runs(items)) == items
    decreases |items|
  {
    if |items| > 0 {
      var rest := Runs(items[1..]);
      RunsFlatten(items[1..]);
      var x := items[0];
      assert items == [x] + items[1..];
      if |rest| > 0 && rest[0].additive == x.additive {
        var rs := [Run(x.additive, [x] + rest[0].items)] + rest[1..];
        assert Runs(items) == rs;
        assert Flatten(rest) == rest[0].items + Flatten(rest[1..]);
        assert rs[1..] == rest[1..];
      } else {
        var rs := [Run(x.additive, [x])] + rest;
        assert Runs(items) == rs;
        assert rs[1..] == rest;
      }
    }
  }

  lemma {:induction false} RunsUniform(items: seq<Item>)
    ensures forall j :: 0 <= j < |Runs(items)| ==> Uniform(Runs(items)[j])
    decreases |items|
  {
    if |items| > 0 {
      var rest := Runs(items[1..]);
      RunsUniform(items[1..]);
      var x := items[0];
      if |rest| > 0 && rest[0].additive == x.additive {
        var rs := [Run(x.additive, [x] + rest[0].items)] + rest[1..];
        assert Runs(items) == rs;
        assert Uniform(rest[0]);
        assert Uniform(rs[0]) by {
          forall k | 0 < k < |rs[0].items| ensures rs[0].items[k].additive == rs[0].additive {
            assert rs[0].items[k] == rest[0].items[k - 1];
          }
        }
        forall j | 0 < j < |rs| ensures Uniform(rs[j]) {
          assert rs[j] == rest[j];
        }
      } else {
        var rs := [Run(x.additive, [x])] + rest;
        assert Runs(items) == rs;
        forall j | 0 < j < |rs| ensures Uniform(rs[j]) {
          assert rs[j] == rest[j - 1];
        }
      }
    }
  }

  lemma {:induction false} RunsAlternate(items: seq<Item>)
    ensures |items| > 0 ==> |Runs(items)| > 0 && Runs(items)[0].additive == items[0].additive
    ensures var rs := Runs(items); forall j :: 0 <= j < |rs| - 1 ==> rs[j].additive != rs[j + 1].additive
    decreases |items|
  {
    if |items| > 0 {
      var rest := Runs(items[1..]);
      RunsAlternate(items[1..]);
      var x := items[0];
      if |rest| > 0 && rest[0].additive == x.additive {
        var rs := [Run(x.additive, [x] + rest[0].items)] + rest[1..];
        assert Runs(items) == rs;
        forall j | 0 <= j < |rs| - 1 ensures rs[j].additive != rs[j + 1].additive {
          assert rs[j + 1] == rest[j + 1];
          if j > 0 {
            assert rs[j] == rest[j];
          }
        }
      } else {
        var rs := [Run(x.additive, [x])] + rest;
        assert Runs(items) == rs;
        forall j | 0 <= j < |rs| - 1 ensures rs[j].additive != rs[j + 1].additive {
          assert rs[j + 1] == rest[j];
          if j > 0 {
            assert rs[j] == rest[j - 1];
          }
        }
      }
    }
  }

  function Adds(items: seq<Item>): seq<BatchOp>
    decreases |items|
  {
    if |items| == 0 then [] else [Add(items[0].index)] + Adds(items[1..])
  }

  /** The stream a batcher that flushes and switches blend mode once per
      maximal run would produce. */
  function Emit(rs: seq<Run>): seq<BatchOp>
    decreases |rs|
  {
    if |rs| == 0 then [Flush]
    else [Flush, Blend(rs[0].additive)] + Adds(rs[0].items) + Emit(rs[1..])
  }

  /** `Emit` of the runs, when the first run's mode may already be set. */
  function Continue(rs: seq<Run>, mode: int): seq<BatchOp> {
    if |rs| > 0 && Flag(rs[0].additive) == mode then Adds(rs[0].items) + Emit(rs[1..])
    else Emit(rs)
  }

  /** The runs of `[x] + items`, given the runs `rs` of `items`: `x` joins
      the first run when it shares its blend mode, else starts its own. */
  function Prepend(x: Item, rs: seq<Run>): seq<Run> {
    if |rs| > 0 && rs[0].additive == x.additive then [Run(x.additive, [x] + rs[0].items)] + rs[1..]
    else [Run(x.additive, [x])] + rs
  }

  lemma RunsCons(x: Item, items: seq<Item>)
    ensures Runs([x] + items) == Prepend(x, Runs(items))
  {
    assert ([x] + items)[1..] == items;
  }

  /** The loop step for one more drawn slot, in front of the runs of the
      rest: a flush and a blend switch when its mode differs from the mode
      set, then the slot itself. */
  lemma ContinueStep(x: Item, rs: seq<Run>, mode: int)
    ensures Continue(Prepend(x, rs), mode) ==
      if Flag(x.additive) != mode then [Flush, Blend(x.additive), Add(x.index)] + Continue(rs, Flag(x.additive))
      else [Add(x.index)] + Continue(rs, mode)
  {
    if |rs| > 0 && rs[0].additive == x.additive {
      JoinStep(x, rs, mode);
    } else {
      AloneStep(x, rs, mode);
    }
  }

  lemma JoinStep(x: Item, rs: seq<Run>, mode: int)
    requires |rs| > 0 && rs[0].additive == x.additive
    ensures Continue(Prepend(x, rs), mode) ==
      if Flag(x.additive) != mode then [Flush, Blend(x.additive), Add(x.index)] + Continue(rs, Flag(x.additive))
      else [Add(x.index)] + Continue(rs, mode)
  {
    var a := x.additive;
    var run := rs[0].items;
    var tail := Emit(rs[1..]);
    var rs2 := [Run(a, [x] + run)] + rs[1..];
    assert Prepend(x, rs) == rs2;
    assert rs2[0] == Run(a, [x] + run) && rs2[1..] == rs[1..];
    AddsCons(x, run);
    assert Continue(rs, Flag(a)) == Adds(run) + tail;
    var c := Continue(rs2, mode);
    if Flag(a) != mode {
      assert c == [Flush, Blend(a)] + Adds([x] + run) + tail;
    } else {
      assert c == Adds([x] + run) + tail;
    }
  }

  lemma AloneStep(x: Item, rs: seq<Run>, mode: int)
    requires |rs| == 0 || rs[0].additive != x.additive
    ensures Continue(Prepend(x, rs), mode) ==
      if Flag(x.additive) != mode then [Flush, Blend(x.additive), Add(x.index)] + Continue(rs, Flag(x.additive))
      else [Add(x.index)] + Continue(rs, mode)
  {
    var a := x.additive;
    var rs2 := [Run(a, [x])] + rs;
    assert Prepend(x, rs) == rs2;
    assert rs2[0] == Run(a, [x]) && rs2[1..] == rs;
    AddsCons(x, []);
    assert [x] + [] == [x];
    assert Adds([x]) == [Add(x.index)];
    assert Continue(rs, Flag(a)) == Emit(rs);
    var c := Continue(rs2, mode);
    if Flag(a) != mode {
      assert c == [Flush, Blend(a)] + Adds([x]) + Emit(rs);
      assert [Flush, Blend(a)] + [Add(x.index)] + Emit(rs) == [Flush, Blend(a), Add(x.index)] + Emit(rs);
    } else {
      assert c == Adds([x]) + Emit(rs);
    }
  }

  lemma AddsCons(x: Item, run: seq<Item>)
    ensures Adds([x] + run) == [Add(x.index)] + Adds(run)
  {
    assert ([x] + run)[1..] == run;
  }

  lemma {:induction false} BatchFromRuns(order: seq<Slot>, i: nat, end: nat, mode: int)
    requires i <= end <= |order|
    ensures BatchFrom(order, i, end, mode) == Continue(Runs(Drawn(order, i, end)), mode)
    decreases end - i
  {
    if i < end {
      BatchFromRuns(order, i + 1, end, mode);
      var rest := Drawn(order, i + 1, end);
      if Drawable(order[i]) {
        var x := Item(i, order[i].additive);
        BatchFromRuns(order, i + 1, end, Flag(x.additive));
        assert Drawn(order, i, end) == [x] + rest;
        RunsCons(x, rest);
        ContinueStep(x, Runs(rest), mode);
      } else {
        assert Drawn(order, i, end) == rest;
      }
    }
  }

  /** The draw loop equals the reference batcher: one flush and one blend
      switch per maximal run of equal blend mode, then a final flush. */
  lemma DrawSlotsByRuns(order: seq<Slot>, begin: nat, end: nat)
    requires begin <= end <= |order|
    ensures DrawSlots(order, begin, end) == Emit(Runs(Drawn(order, begin, end)))
  {
    BatchFromRuns(order, begin, end, -1);
  }

  // ---------------------------------------------------------------------------
  // Which slots end up in the batch.

  /** The draw-order positions added to the batch, in order. */
  function Added(ops: seq<BatchOp>): seq<nat>
    decreases |ops|
  {
    if |ops| == 0 then [] else (if ops[0].Add? then [ops[0].index] else []) + Added(ops[1..])
  }

  lemma {:induction false} AddedAppend(a: seq<BatchOp>, b: seq<BatchOp>)
    ensures Added(a + b) == Added(a) + Added(b)
    decreases |a|
  {
    if |a| > 0 {
      assert (a + b)[1..] == a[1..] + b;
      AddedAppend(a[1..], b);
    } else {
      assert a + b == b;
    }
  }

  lemma AddedHead(a: bool, i: nat)
    ensures Added([Flush, Blend(a), Add(i)]) == [i] && Added([Add(i)]) == [i]
  {
    assert [Add(i)][1..] == [];
    assert Added([Add(i)]) == [i] + Added([]);
    assert [Blend(a), Add(i)][1..] == [Add(i)];
    assert Added([Blend(a), Add(i)]) == [] + Added([Add(i)]);
    assert [Flush, Blend(a), Add(i)][1..] == [Blend(a), Add(i)];
    assert Added([Flush, Blend(a), Add(i)]) == [] + Added([Blend(a), Add(i)]);
  }

  lemma {:induction false} AddedBatchFrom(order: seq<Slot>, i: nat, end: nat, mode: int)
    requires i <= end <= |order|
    ensures Added(BatchFrom(order, i, end, mode)) == DrawableIn(order, i, end)
    decreases end - i
  {
    if i == end {
      assert Added([Flush]) == Added([Flush][1..]);
      assert [Flush][1..] == [];
    } else if Drawable(order[i]) {
      var a := order[i].additive;
      var m := if Flag(a) != mode then Flag(a) else mode;
      AddedBatchFrom(order, i + 1, end, m);
      var head := if Flag(a) != mode then [Flush, Blend(a), Add(i)] else [Add(i)];
      AddedAppend(head, BatchFrom(order, i + 1, end, m));
      AddedHead(a, i);
    } else {
      AddedBatchFrom(order, i + 1, end, mode);
    }
  }

  /** Exactly the drawable slots of the range are added to the batch, each
      once and in draw order. */
  lemma DrawsDrawable(order: seq<Slot>, begin: nat, end: nat)
    requires begin <= end <= |order|
    ensures Added(DrawSlots(order, begin, end)) == DrawableIn(order, begin, end)
  {
    AddedBatchFrom(order, begin, end, -1);
  }

  lemma {:induction false} DrawableInSplit(order: seq<Slot>, a: nat, b: nat, c: nat)
    requires a <= b <= c <= |order|
    ensures DrawableIn(order, a, c) == DrawableIn(order, a, b) + DrawableIn(order, b, c)
    decreases b - a
  {
    if a < b {
      DrawableInSplit(order, a + 1, b, c);
    }
  }

  /** The slots the split path adds to the batch: the ranges drawn one after
      the other. */
  function RangesDrawn(order: seq<Slot>, steps: seq<Step>, start: nat): seq<nat>
    requires Partition(steps, start, |order|)
    decreases |steps|
  {
    if |steps| == 0 then []
    else Added(DrawSlots(order, steps[0].begin, steps[0].end)) + RangesDrawn(order, steps[1..], steps[0].end)
  }

  lemma {:induction false} RangesDrawnCover(order: seq<Slot>, steps: seq<Step>, start: nat)
    requires Partition(steps, start, |order|)
    ensures RangesDrawn(order, steps, start) == DrawableIn(order, start, |order|)
    decreases |steps|
  {
    if |steps| > 0 {
      RangesDrawnCover(order, steps[1..], steps[0].end);
      DrawsDrawable(order, steps[0].begin, steps[0].end);
      DrawableInSplit(order, start, steps[0].end, |order|);
    }
  }

  /** Splitting the draw loses, repeats and reorders no slot: the ranges of
      `splitDraw`, drawn one after the other, add to the batch exactly the
      slots the whole-skeleton draw adds. */
  lemma SplitDrawsSameSlots(order: seq<Slot>, binds: map<SlotId, NodeId>, pool: nat)
    ensures RangesDrawn(order, SplitDraw(order, binds, pool).steps, 0) == Added(DrawSlots(order, 0, |order|))
  {
    RangesDrawnCover(order, SplitDraw(order, binds, pool).steps, 0);
    DrawsDrawable(order, 0, |order|);
  }

  // ---------------------------------------------------------------------------
  // Vertex colour.

  /** An RGBA colour with channels in `[0, 1]`. */
  datatype Color = Color(r: real, g: real, b: real, a: real)

  predicate Unit(x: real) {
    0.0 <= x <= 1.0
  }

  predicate UnitColor(c: Color) {
    Unit(c.r) && Unit(c.g) && Unit(c.b) && Unit(c.a)
  }

  /** A `Color4B`: four byte channels. */
  datatype Color4 = Color4(r: int, g: int, b: int, a: int)

  predicate IsByte(x: int) {
    0 <= x < 256
  }

  lemma UnitProduct(x: real, y: real)
    requires Unit(x) && Unit(y)
    ensures Unit(x * y)
  {
    assert 0.0 <= x * y;
    assert x * y <= x;
  }

  /** The product of three channels in `[0, 1]`. */
  function Product(x: real, y: real, z: real): (p: real)
    requires Unit(x) && Unit(y) && Unit(z)
    ensures Unit(p) && p == x * y * z
  {
    UnitProduct(x, y);
    UnitProduct(x * y, z);
    x * y * z
  }

  /** A channel in `[0, 1]` scaled by a multiplier of at most 255 and stored
      into a `GLubyte`, which truncates toward zero: it never exceeds the
      multiplier. */
  function Scale(x: real, m: real): (b: int)
    requires Unit(x) && 0.0 <= m <= 255.0
    ensures IsByte(b) && b <= m.Floor && b as real <= x * m < b as real + 1.0
  {
    ScaleBound(x, m);
    FloorMono(x * m, m);
    (x * m).Floor
  }

  lemma ScaleBound(x: real, m: real)
    requires Unit(x) && 0.0 <= m
    ensures 0.0 <= x * m <= m
  {
  }

  lemma FloorMono(y: real, m: real)
    requires 0.0 <= y <= m
    ensures 0 <= y.Floor <= m.Floor && y.Floor as real <= y < y.Floor as real + 1.0
  {
  }

  /** The vertex colour of a slot: skeleton tint times slot colour times
      attachment colour, with the colour channels scaled by the stored alpha
      byte under premultiplied alpha and by 255 otherwise. */
  function VertexColor(skeleton: Color, slot: Color, attachment: Color, premultiplied: bool): (c: Color4)
    requires UnitColor(skeleton) && UnitColor(slot) && UnitColor(attachment)
    ensures IsByte(c.r) && IsByte(c.g) && IsByte(c.b) && IsByte(c.a)
    ensures c.a as real <= Product(skeleton.a, slot.a, attachment.a) * 255.0 < c.a as real + 1.0
    ensures premultiplied ==> c.r <= c.a && c.g <= c.a && c.b <= c.a
    ensures var m := if premultiplied then c.a as real else 255.0;
      && c.r as real <= Product(skeleton.r, slot.r, attachment.r) * m < c.r as real + 1.0
      && c.g as real <= Product(skeleton.g, slot.g, attachment.g) * m < c.g as real + 1.0
      && c.b as real <= Product(skeleton.b, slot.b, attachment.b) * m < c.b as real + 1.0
  {
    var a := Scale(Product(skeleton.a, slot.a, attachment.a), 255.0);
    var multiplier := if premultiplied then a as real else 255.0;
    Color4(Scale(Product(skeleton.r, slot.r, attachment.r), multiplier),
           Scale(Product(skeleton.g, slot.g, attachment.g), multiplier),
           Scale(Product(skeleton.b, slot.b, attachment.b), multiplier),
           a)
  }
}
