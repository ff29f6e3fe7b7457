# Spine world clock and split skeleton drawing, in Dafny

This project models two parts of the cocos2d-x Spine runtime extension.

**The world clock** (`WorldClock`) drives skeleton animations. It keeps an ordered list of registered animations, a dirty flag, a play/stop flag, an accumulated time and a time scale.
- `remove` leaves a null tombstone in place.
- `advanceTime` walks the list by index over the length the list had at the start of the pass, skips tombstones, and advances every live animation by the scaled delta.
- If any entry was tombstoned, `advanceTime` then compacts the list stably in place.

An advanced animation may call `add` or `remove` on the clock while the pass runs. The model gives each animation an abstract list of such calls and records the pass as an event log. The log holds advances and calls, in the order they happened, and it is exactly the trace of the pass: each advance is followed by the calls of the animation just advanced and by nothing else.

**The skeleton** (`MySkeletonAnimation`) has three parts:
- A running flag and a choice between two time sources: the world clock or the per-frame scheduler.
- A map from slots to overlay nodes.
- `draw`. With nothing bound it draws the whole skeleton with one command. Otherwise it takes the split path (`splitDraw`), which cuts the draw order into contiguous ranges. Each range is drawn by a pooled command, and the node bound to the slot that ends the range is visited after it. The command pool only grows.

Within a range, the drawable slots go to a triangle batch. The batch is flushed, and the blend function switched, whenever the additive-blending flag changes.

Modules, one file each:
- `Options`: the `Option` type.
- `Floats`: a float as a real number or NaN.
- `Compaction`: the live entries of a tombstoned list, and the in-place compaction loop.
- `WorldClock`: the clock state and its operations.
- `ClockPass`: the re-entrant visit pass and `advanceTime`.
- `DrawOrder`: `splitDraw` as a pure function.
- `Batching`: the batch operations of `drawSplitSlot` and `drawSkeleton`, and the vertex colour.
- `SkeletonAnimation`: the skeleton state, the time-source switch, the slot bindings and `draw`.

Paths below are relative to the repository root. `isAdvaceTimeByClock` (MySkeletonAnimation.cpp:131-133) is `WorldClock.Contains` applied to the skeleton.

## Model

| member | source | states |
|---|---|---|
| Floats.OrIfInvalid | spine-cocos2dx/3/src/spine/WorldClock.cpp:97-107 | a negative or NaN value is replaced by the fallback and any other value is kept, so the result is never negative when the fallback is not |
| WorldClock.New | spine-cocos2dx/3/src/spine/WorldClock.cpp:35-42 | a new clock is valid, empty, clean, playing, at time 0, with the time scale sanitised to 1 when negative or NaN |
| WorldClock.DefaultScale | spine-cocos2dx/3/src/spine/WorldClock.h:31 | the default constructor arguments give time scale 1 and time 0 |
| WorldClock.SetTimeScale | spine-cocos2dx/3/src/spine/WorldClock.cpp:25-33 | stores the value when it is a non-negative number, and 1 for a negative or NaN value; nothing else changes |
| WorldClock.IndexOf | spine-cocos2dx/3/src/spine/WorldClock.cpp:66 | `std::find`: the first position holding the value, or the length when there is none |
| WorldClock.IndexOfDistinct | spine-cocos2dx/3/src/spine/WorldClock.cpp:66-70 | in a list of distinct entries, the search for an entry finds its own position |
| WorldClock.Contains | spine-cocos2dx/3/src/spine/WorldClock.cpp:48-52 | true exactly when the value is in the list |
| WorldClock.Add | spine-cocos2dx/3/src/spine/WorldClock.cpp:54-60 | a null or present value changes nothing; otherwise the value is appended at the end; live entries stay distinct |
| WorldClock.AddIdempotent | spine-cocos2dx/3/src/spine/WorldClock.cpp:54-60 | adding twice is adding once |
| WorldClock.Remove | spine-cocos2dx/3/src/spine/WorldClock.cpp:62-73 | a null or absent value changes nothing; otherwise the entry becomes a tombstone in place, the length is kept, the dirty flag is set, and the value is no longer contained |
| WorldClock.RemoveIdempotent | spine-cocos2dx/3/src/spine/WorldClock.cpp:62-73 | removing twice is removing once |
| WorldClock.ReAddMovesToEnd | spine-cocos2dx/3/src/spine/WorldClock.cpp:54-73 | removing and re-adding an animation leaves its tombstone and appends it at the end |
| WorldClock.RemoveAll | spine-cocos2dx/3/src/spine/WorldClock.cpp:75-78 | empties the list; the dirty flag, time, scale and play state are untouched |
| WorldClock.Play | spine-cocos2dx/3/src/spine/WorldClock.cpp:80-83 | only sets the play flag |
| WorldClock.Stop | spine-cocos2dx/3/src/spine/WorldClock.cpp:85-88 | only clears the play flag |
| Compaction.LiveMembership | spine-cocos2dx/3/src/spine/WorldClock.cpp:125-145 | compaction keeps every live entry, adds none and leaves no tombstone |
| Compaction.LiveIdentity | spine-cocos2dx/3/src/spine/WorldClock.cpp:129-143 | a list without tombstones comes out of compaction unchanged |
| Compaction.LiveIdempotent | spine-cocos2dx/3/src/spine/WorldClock.cpp:125-145 | compacting twice is compacting once |
| Compaction.LiveDistinct | spine-cocos2dx/3/src/spine/WorldClock.cpp:125-145 | compaction keeps distinct registrations distinct |
| Compaction.LiveStable | spine-cocos2dx/3/src/spine/WorldClock.cpp:129-141 | compaction is stable: each live entry lands at the number of live entries before it, and live entries keep their relative order |
| Compaction.Compact | spine-cocos2dx/3/src/spine/WorldClock.cpp:127-143 | the in-place move-down loop followed by the truncation yields exactly the live entries in their original order |
| ClockPass.ReplayKeepsClock | spine-cocos2dx/3/src/spine/WorldClock.cpp:54-78 | calls made during a pass change only the list and the dirty flag, never time, scale or play state |
| ClockPass.Dispatch | spine-cocos2dx/3/src/spine/WorldClock.cpp:121 | the calls of the animation just advanced are applied in order, are logged in that order, and keep the pass invariant |
| ClockPass.VisitLoop | spine-cocos2dx/3/src/spine/WorldClock.cpp:117-123 | the index loop over the starting length keeps the pass invariant to its end, and its log is exactly the trace of the animations it advanced, each followed by its own calls |
| ClockPass.PassOutcome | spine-cocos2dx/3/src/spine/WorldClock.cpp:117-123 | after the loop: the clock is the start clock with the logged calls replayed; each advance is of an animation registered at the start, by the same delta, in registration order, and never after that animation's removal; every animation registered at the start is advanced unless a call made before its turn removed it |
| ClockPass.Visit | spine-cocos2dx/3/src/spine/WorldClock.cpp:117-123 | the visit pass, with the guarantees listed for PassOutcome; the log is exactly the trace of the advanced animations, each followed by its own calls |
| ClockPass.AdvanceTime | spine-cocos2dx/3/src/spine/WorldClock.cpp:90-146 | while stopped nothing changes and nothing is advanced; time grows by the sanitised delta times the scale, also when the list is empty (which returns early); the final list is the live part of the replayed list with the dirty flag cleared; the advances meet the PassOutcome guarantees and the log is exactly the trace of the advanced animations with their calls; validity is kept |
| ClockPass.Delta | spine-cocos2dx/3/src/spine/WorldClock.cpp:97-110 | the tick delta is never negative: a negative or NaN passed time counts as zero, a valid one is multiplied by the scale |
| ClockPass.Pass | spine-cocos2dx/3/src/spine/WorldClock.cpp:117-145 | the visit followed by the clean-up: the final list is the live part of the replayed list, with no tombstone and the dirty flag cleared, the advances meet the PassOutcome guarantees, and the log is exactly the trace of the advanced animations, each followed by its own calls |
| ClockPass.TraceStep | spine-cocos2dx/3/src/spine/WorldClock.cpp:117-122 | advancing one more animation and then logging the calls it makes extends the trace |
| ClockPass.QuietPass | spine-cocos2dx/3/src/spine/WorldClock.cpp:117-123 | when no animation calls back into the clock, a pass replays no call and advances every animation registered at the start |
| ClockPass.ReplayTime | spine-cocos2dx/3/src/spine/WorldClock.cpp:108-121 | the calls replayed during a pass give the same list and flag whatever the clock time is, so moving the time before or after the visit makes no difference to them |
| ClockPass.CompactClock | spine-cocos2dx/3/src/spine/WorldClock.cpp:125-145 | a dirty list is compacted to its live entries and the flag cleared; a clean clock is left as it is; time, scale and play state never change |
| DrawOrder.SplitDraw | spine-cocos2dx/3/src/spine/MySkeletonAnimation.cpp:155-196 | the ranges partition the draw order from 0 to its end; each ends at a closing slot (the last one, or one with an attachment and a bound node) and carries that slot's node; no slot inside a range closes one; the commands are numbered 0, 1, ...; the pool becomes the larger of its old size and the number of ranges |
| DrawOrder.PartitionLocate | spine-cocos2dx/3/src/spine/MySkeletonAnimation.cpp:158-178 | every slot position lies in exactly one range |
| DrawOrder.PartitionBounds | spine-cocos2dx/3/src/spine/MySkeletonAnimation.cpp:158-178 | the first range starts at 0, the last ends at the slot count, each range is non-empty, and each starts where the previous ended |
| DrawOrder.ClosesIffRangeEnd | spine-cocos2dx/3/src/spine/MySkeletonAnimation.cpp:162-165 | a position ends a range if and only if it is the last slot or its slot has an attachment and a bound node |
| DrawOrder.BoundSlotVisited | spine-cocos2dx/3/src/spine/MySkeletonAnimation.cpp:176-192 | a bound slot with an attachment ends a range, and its node is the one visited right after that range |
| DrawOrder.BoundWithoutAttachment | spine-cocos2dx/3/src/spine/MySkeletonAnimation.cpp:162-165 | a bound slot without an attachment that is not last ends no range, so its node is not visited |
| DrawOrder.PoolNeverShrinks | spine-cocos2dx/3/src/spine/MySkeletonAnimation.cpp:156-174 | the pool never shrinks and holds a command for every range |
| DrawOrder.FiveSlotExample | spine-cocos2dx/3/src/spine/MySkeletonAnimation.cpp:155-196 | five slots with the third bound give ranges [0,3) with command 0 and the node visited, then [3,5) with command 1 |
| Batching.DrawableIn | spine-cocos2dx/3/src/spine/MySkeletonAnimation.cpp:349-398 | the drawn positions of a range are exactly its slots with an attachment and a texture, in increasing order |
| Batching.DrawSlots | spine-cocos2dx/3/src/spine/MySkeletonAnimation.cpp:342-412 | the batch stream ends with a flush; every added slot is drawn under its own blend mode; every blend switch changes the mode and comes right after a flush |
| Batching.RunsAreMaximal | spine-cocos2dx/3/src/spine/MySkeletonAnimation.cpp:398-403 | grouping drawn slots into runs loses and reorders nothing; runs are non-empty and uniform in blend mode, and adjacent runs differ |
| Batching.RunsFlatten | spine-cocos2dx/3/src/spine/MySkeletonAnimation.cpp:398-403 | concatenating the runs gives back the drawn slots |
| Batching.RunsUniform | spine-cocos2dx/3/src/spine/MySkeletonAnimation.cpp:398-403 | each run is non-empty and all its slots share its blend mode |
| Batching.RunsAlternate | spine-cocos2dx/3/src/spine/MySkeletonAnimation.cpp:398-403 | the first run has the first slot's mode and adjacent runs differ in blend mode |
| Batching.BatchFromRuns | spine-cocos2dx/3/src/spine/MySkeletonAnimation.cpp:349-412 | the loop from any position and any current mode equals the run-based batcher continued from that mode |
| Batching.DrawSlotsByRuns | spine-cocos2dx/3/src/spine/MySkeletonAnimation.cpp:342-412 | drawing a range equals the reference: one flush and one blend switch per maximal run of equal blend mode, the first before the first drawn slot, then a final flush |
| Batching.DrawsDrawable | spine-cocos2dx/3/src/spine/MySkeletonAnimation.cpp:349-411 | the slots added to the batch are exactly the drawable slots of the range, each once, in draw order |
| Batching.SplitDrawsSameSlots | spine-cocos2dx/3/src/spine/MySkeletonAnimation.cpp:176-178 | the ranges of the split path, drawn one after another, add the same slots in the same order as the whole-skeleton draw |
| Batching.VertexColor | spine-cocos2dx/3/src/spine/MySkeletonAnimation.cpp:404-408 | every channel is a byte; alpha is the truncated product of the alphas times 255; each colour channel is the truncated product of the colours times the stored alpha byte (premultiplied) or 255, so premultiplied channels never exceed alpha |
| SkeletonAnimation.NewAnimation | spine-cocos2dx/3/src/spine/MySkeletonAnimation.cpp:65-84 | a new skeleton runs, has nothing bound and an empty command pool |
| SkeletonAnimation.Update | spine-cocos2dx/3/src/spine/MySkeletonAnimation.cpp:100-114 | `update` and `advanceTime` do nothing while paused, else hand the delta to the pose update and change nothing else |
| SkeletonAnimation.Pause | spine-cocos2dx/3/src/spine/MySkeletonAnimation.cpp:135-137 | only clears the running flag |
| SkeletonAnimation.Resume | spine-cocos2dx/3/src/spine/MySkeletonAnimation.cpp:138-140 | only sets the running flag |
| SkeletonAnimation.PauseFreezes | spine-cocos2dx/3/src/spine/MySkeletonAnimation.cpp:100-143 | a paused skeleton ignores any sequence of updates; after resuming, the next update, with any delta, takes effect; the time source is untouched |
| SkeletonAnimation.SetAdvanceTimeByClock | spine-cocos2dx/3/src/spine/MySkeletonAnimation.cpp:116-129 | afterwards clock membership equals the request; a call that asks for the current mode changes nothing; a switch leaves exactly one time source active, and that property is kept |
| SkeletonAnimation.SetAdvanceTimeByClockIdempotent | spine-cocos2dx/3/src/spine/MySkeletonAnimation.cpp:116-129 | switching twice to the same mode is switching once |
| SkeletonAnimation.SetAdvanceTimeByClockLocal | spine-cocos2dx/3/src/spine/MySkeletonAnimation.cpp:116-129 | every other animation's clock membership is unchanged |
| SkeletonAnimation.FindSlot | spine-cocos2dx/3/src/spine/MySkeletonAnimation.cpp:485 | the slot lookup by name finds the first slot with that name, and none exactly when no slot has it |
| SkeletonAnimation.GetSlotNode | spine-cocos2dx/3/src/spine/MySkeletonAnimation.cpp:484-493 | a node exactly when the slot exists and is bound, and then the bound node |
| SkeletonAnimation.BindSlotNode | spine-cocos2dx/3/src/spine/MySkeletonAnimation.cpp:494-511 | an unknown slot gives no node and no change; a bound slot gives its node and no change; otherwise the given or a freshly created node becomes a hidden child bound to the slot, and nothing else changes |
| SkeletonAnimation.UnbindSlotNode | spine-cocos2dx/3/src/spine/MySkeletonAnimation.cpp:512-523 | the map is unchanged; only the bound node stops being a child |
| SkeletonAnimation.BindThenGet | spine-cocos2dx/3/src/spine/MySkeletonAnimation.cpp:484-511 | after binding a known slot, looking it up returns the node the bind returned |
| SkeletonAnimation.BindIdempotent | spine-cocos2dx/3/src/spine/MySkeletonAnimation.cpp:494-511 | a second bind, with any node, returns the first bind's node and changes nothing |
| SkeletonAnimation.BindLeavesOthers | spine-cocos2dx/3/src/spine/MySkeletonAnimation.cpp:494-511 | binding one slot leaves every other slot's lookup unchanged |
| SkeletonAnimation.UnbindKeepsBinding | spine-cocos2dx/3/src/spine/MySkeletonAnimation.cpp:494-523 | unbinding changes no lookup; the node is detached, and binding the slot again returns the detached node without making it a child again |
| SkeletonAnimation.BindingKeepsOverlaysHidden | spine-cocos2dx/3/src/spine/MySkeletonAnimation.cpp:494-523 | binding and unbinding keep every bound node hidden |
| SkeletonAnimation.DrawWith | spine-cocos2dx/3/src/spine/MySkeletonAnimation.cpp:145-153 | with an empty map, one whole-skeleton command and no state change; with a non-empty map, no whole-skeleton command, a pool that does not shrink and fewer shown nodes |
| SkeletonAnimation.Draw | spine-cocos2dx/3/src/spine/MySkeletonAnimation.cpp:145-153 | with the corrected split-path debug test, debug drawing shows exactly what the flags ask for on both paths |
| SkeletonAnimation.DrawAsWritten | spine-cocos2dx/3/src/spine/MySkeletonAnimation.cpp:198-202 | as written, slot outlines are drawn only if slot debugging is on and either nothing is bound or bone debugging is on too |
| SkeletonAnimation.SplitDebugDropsSlotOutlines | spine-cocos2dx/3/src/spine/MySkeletonAnimation.cpp:198-202 | with only slot debugging on and one node bound, the split path as written draws no slot outline, while the corrected one and the whole path do |
| SkeletonAnimation.DrawDrawsEverySlot | spine-cocos2dx/3/src/spine/MySkeletonAnimation.cpp:145-196 | for any split-path debug test, so for both the corrected and the as-written draw: on either path the batch receives exactly the drawable slots of the draw order, each once, in order |
| SkeletonAnimation.DrawVisitsFollowRanges | spine-cocos2dx/3/src/spine/MySkeletonAnimation.cpp:175-192 | for any split-path debug test: on the split path every overlay visit comes directly after the range command ending at the slot the node is bound to |
| SkeletonAnimation.DrawKeepsOverlaysHidden | spine-cocos2dx/3/src/spine/MySkeletonAnimation.cpp:191-193 | for any split-path debug test: after a draw every bound node is hidden, and the visited ones are no longer shown |

## Left out

- GL and renderer calls are not modelled: `GL::blendFunc`, `getGLProgramState()->apply`, `renderer->addCommand` and `Director` matrix pushes. Commands are the sequence of `Command` values that `draw` queues. Blend switches and flushes are `BatchOp` values.
- The batch internals, texture lookup (`getTexture`) and world-vertex computation are foreign code. A slot is reduced to whether it has an attachment, whether that attachment yields a texture, and its additive flag.
- The debug drawing (`drawDebug` and the debug block of `drawSkeleton`) only emits immediate-mode primitives. It is reduced to which parts it draws: slot outlines and bones.
- The node transform, opacity and colour writes at MySkeletonAnimation.cpp:184-188 are plain float assignments and are left out.
- Floats.OrIfInvalid: floats are real numbers or NaN. Infinities and rounding are not modelled, and neither is the float accumulation of time.
- ClockPass.AdvanceTime: the calls an animation makes during a pass are limited to `add` and `remove`. `removeAll`, `play`, `stop` and `setTimeScale` during a pass are left out. `removeAll` there would shrink the vector under the running index, which the C++ code does not guard against.
- ClockPass.AdvanceTime: what an animation does besides clock calls is not modelled; an advance is an event in the log.
- ClockPass.AdvanceTime: the C++ code adds the scaled delta to the time before the visit; the model stores it after the visit. The `add` and `remove` calls modelled here do not depend on the time (ReplayTime). A `getTime()` made by an animation during the pass, which would see the new time, is not modelled.
- SkeletonAnimation.SetAdvanceTimeByClock: requires the clock invariant (distinct registrations, no tombstone when clean), which every clock operation keeps. `scheduleUpdate`/`unscheduleUpdate` are the `scheduled` flag.
- SkeletonAnimation.Update: the base class pose update (`SkeletonAnimation::update`) is foreign code, so an update records its delta. `retain`/`release` are left out.
- SkeletonAnimation.UnbindSlotNode: "the parent is this skeleton" is membership in `children`. `addChild`/`removeFromParent` are reduced to that set, and the visibility of nodes to the `shown` set.
- SkeletonAnimation.DrawKeepsOverlaysHidden: that a node is visible during its own visit is not stated; only the hidden state afterwards is.
- The singleton `getInstance`, `getTime`/`getTimeScale` and the file-loading factory are left out. They are allocation and plain reads.
- The destructors are left out. `~MySkeletonAnimation` (MySkeletonAnimation.cpp:86-98) deregisters the skeleton, with a `remove` on the clock when it is clock-driven or `unscheduleUpdate` otherwise, and frees the command pool. `~WorldClock` (WorldClock.cpp:43-46) clears the list. The `remove` of `~MySkeletonAnimation` is the clock's `Remove`, which the calls made during a pass may include; the freeing of the objects is not modelled.
- `_nodeSlotMap` (MySkeletonAnimation.h:82) is never filled; the code only clears it in the destructor (MySkeletonAnimation.cpp:93). It is not part of the state.
- `hasBone`, `hasAnimation`, `getBoneWorldPos` and `getInnerBoundingBox` are thin lookups into foreign code and are left out.
- SkeletonAnimation.FindSlot: `findSlot` is the runtime's own lookup, not part of this model. It is modelled as the first slot with the given name, and a slot is identified by its index.

## Findings

| source | as written | input that shows it | evidently intended | confidence | as-written member | corrected member |
|---|---|---|---|---|---|---|
| spine-cocos2dx/3/src/spine/MySkeletonAnimation.cpp:198 | the split path queues `drawDebug` under `_debugBones \|\| _debugBones`, so `_debugSlots` alone never draws slot outlines when a node is bound | `_debugSlots` true, `_debugBones` false, one node bound: `drawDebug`, which tests `_debugSlots` itself (line 420), is never queued | `_debugSlots \|\| _debugBones`, the test of the whole-skeleton path at line 287 | high; not executed | SkeletonAnimation.DrawAsWritten, SkeletonAnimation.SplitDebugDropsSlotOutlines | SkeletonAnimation.Draw |
