/** The world clock: a process-wide time source that owns an ordered list of
    weak references to registered animations. Removal leaves a tombstone;
    compaction happens only at the end of an `advanceTime` pass. */
module WorldClock {
  import opened Options
  import opened Floats
  import opened Compaction

  /** Identity (address) of a registered animation. */
  type Id = nat

  datatype Clock = Clock(
    list: seq<Option<Id>>,   // registration order; None is a tombstone
    dirty: bool,             // a tombstone may be present
    playing: bool,
    time: real,
    timeScale: real)

  /** What every reachable clock satisfies: no animation is registered twice,
      tombstones exist only while the dirty flag is set, the scale is not
      negative and time has not gone below its start. */
  predicate Valid(c: Clock) {
    && Distinct(c.list)
    && (!c.dirty ==> None !in c.list)
    && c.timeScale >= 0.0
    && c.time >= 0.0
  }

  /** Position of the first entry equal to `x`, or `|s|` when there is none
      (the linear search `std::find`). */
  function IndexOf(s: seq<Option<Id>>, x: Option<Id>): (k: nat)
    ensures k <= |s|
    ensures k < |s| ==> s[k] == x
    ensures forall j :: 0 <= j < k ==> s[j] != x
  {
    if |s| == 0 then 0
    else if s[0] == x then 0
    else 1 + IndexOf(s[1..], x)
  }

  /** In a list without duplicate live entries, a live entry is found where it is. */
  lemma IndexOfDistinct(s: seq<Option<Id>>, k: nat)
    requires Distinct(s) && k < |s| && s[k].Some?
    ensures IndexOf(s, s[k]) == k
  {
  }

  /** The constructor: time starts at 0 whatever is passed (the argument is
      ignored), the clock is playing, and the scale goes through `SetTimeScale`. */
  function New(time: Float, timeScale: Float): (c: Clock)
    ensures Valid(c)
    ensures c.list == [] && !c.dirty && c.playing && c.time == 0.0
    ensures c.timeScale == OrIfInvalid(timeScale, 1.0)
  {
    SetTimeScale(Clock([], false, true, 0.0, 1.0), timeScale)
  }

  /** The singleton is built with the default arguments, so its scale is 1. */
  lemma DefaultScale()
    ensures New(Num(-1.0), Num(1.0)).timeScale == 1.0
    ensures New(Num(-1.0), Num(1.0)).time == 0.0
  {
  }

  /** A negative or NaN scale is replaced by 1; any other value is stored. */
  function SetTimeScale(c: Clock, v: Float): (c': Clock)
    ensures c'.timeScale >= 0.0
    ensures NonNegative(v) ==> c'.timeScale == v.val
    ensures !NonNegative(v) ==> c'.timeScale == 1.0
    ensures c' == c.(timeScale := c'.timeScale)
    ensures Valid(c) ==> Valid(c')
  {
    c.(timeScale := OrIfInvalid(v, 1.0))
  }

  /** Identity-based membership; `Contains(c, None)` asks for a tombstone. */
  function Contains(c: Clock, x: Option<Id>): (b: bool)
    ensures b <==> x in c.list
  {
    IndexOf(c.list, x) < |c.list|
  }

  /** Registration: null and already registered animations are ignored,
      anything else is appended at the end. */
  function Add(c: Clock, x: Option<Id>): (c': Clock)
    ensures x.None? || x in c.list ==> c' == c
    ensures x.Some? && x !in c.list ==> c' == c.(list := c.list + [x])
    ensures x.Some? ==> Contains(c', x)
    ensures Valid(c) ==> Valid(c')
  {
    if x.Some? && !Contains(c, x) then c.(list := c.list + [x]) else c
  }

  /** Adding twice is adding once. */
  lemma AddIdempotent(c: Clock, x: Option<Id>)
    ensures Add(Add(c, x), x) == Add(c, x)
  {
  }

  /** Deregistration: the first matching entry becomes a tombstone and the
      clock becomes dirty; the list keeps its length and nothing moves. */
  function Remove(c: Clock, x: Option<Id>): (c': Clock)
    ensures |c'.list| == |c.list|
    ensures x.None? || x !in c.list ==> c' == c
    ensures x.Some? && x in c.list ==> c'.dirty
    ensures forall k :: 0 <= k < |c.list| && c.list[k] != x ==> c'.list[k] == c.list[k]
    ensures forall k :: 0 <= k < |c.list| && c'.list[k] != c.list[k] ==> c'.list[k] == None
    ensures Valid(c) && x.Some? ==> !Contains(c', x)
    ensures c'.playing == c.playing && c'.time == c.time && c'.timeScale == c.timeScale
    ensures Valid(c) ==> Valid(c')
  {
    if x.None? then c
    else
      var k := IndexOf(c.list, x);
      if k < |c.list| then c.(list := c.list[k := None], dirty := true) else c
  }

  /** Removing twice is removing once. */
  lemma RemoveIdempotent(c: Clock, x: Option<Id>)
    requires Valid(c)
    ensures Remove(Remove(c, x), x) == Remove(c, x)
  {
  }

  /** Re-registering a removed animation puts it at the end: it loses its
      place in the advance order and its old position stays a tombstone. */
  lemma ReAddMovesToEnd(c: Clock, x: Id)
    requires Valid(c) && Some(x) in c.list
    ensures Add(Remove(c, Some(x)), Some(x)).list
         == c.list[IndexOf(c.list, Some(x)) := None] + [Some(x)]
  {
  }

  /** Clears the list; the dirty flag, time and scale are left alone. */
  function RemoveAll(c: Clock): (c': Clock)
    ensures c'.list == []
    ensures forall x :: !Contains(c', x)
    ensures c'.dirty == c.dirty && c'.playing == c.playing
    ensures c'.time == c.time && c'.timeScale == c.timeScale
    ensures Valid(c) ==> Valid(c')
  {
    c.(list := [])
  }

  function Play(c: Clock): (c': Clock)
    ensures c'.playing
    ensures c' == c.(playing := true)
    ensures Valid(c) ==> Valid(c')
  {
    c.(playing := true)
  }

  function Stop(c: Clock): (c': Clock)
    ensures !c'.playing
    ensures c' == c.(playing := false)
    ensures Valid(c) ==> Valid(c')
  {
    c.(playing := false)
  }
}
