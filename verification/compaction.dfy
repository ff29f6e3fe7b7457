/** The tombstone list of the world clock: registrations are `Some(id)`,
    removed registrations are `None` until the list is compacted. */
module Compaction {
  import opened Options

  /** No live entry occurs twice. Tombstones may repeat. */
  predicate Distinct<T(==)>(s: seq<Option<T>>) {
    forall a, b :: 0 <= a < b < |s| && s[a].Some? ==> s[a] != s[b]
  }

  /** The live entries of `s` in their original order: the reference meaning
      of compaction. */
  function Live<T>(s: seq<Option<T>>): seq<Option<T>>
    decreases |s|
  {
    if |s| == 0 then []
    else Live(s[..|s| - 1]) + (if s[|s| - 1].Some? then [s[|s| - 1]] else [])
  }

  /** Position that entry `k` of `s` takes after compaction. */
  function Rank<T>(s: seq<Option<T>>, k: nat): nat
    requires k <= |s|
  {
    |Live(s[..k])|
  }

  /** Compaction keeps exactly the live entries: nothing live is lost, no
      tombstone survives. */
  lemma {:induction false} LiveMembership<T>(s: seq<Option<T>>)
    ensures None !in Live(s)
    ensures forall x :: x in Live(s) <==> x in s && x.Some?
    decreases |s|
  {
    if |s| > 0 {
      LiveMembership(s[..|s| - 1]);
      assert s == s[..|s| - 1] + [s[|s| - 1]];
    }
  }

  /** A list without tombstones is left as it is. */
  lemma {:induction false} LiveIdentity<T>(s: seq<Option<T>>)
    requires None !in s
    ensures Live(s) == s
    decreases |s|
  {
    if |s| > 0 {
      assert s[..|s| - 1] + [s[|s| - 1]] == s;
      LiveIdentity(s[..|s| - 1]);
    }
  }

  /** Compaction is idempotent. */
  lemma LiveIdempotent<T>(s: seq<Option<T>>)
    ensures Live(Live(s)) == Live(s)
  {
    LiveMembership(s);
    LiveIdentity(Live(s));
  }

  /** Compaction of a list with distinct live entries keeps them distinct. */
  lemma {:induction false} LiveDistinct<T>(s: seq<Option<T>>)
    requires Distinct(s)
    ensures Distinct(Live(s))
    decreases |s|
  {
    if |s| > 0 {
      var init := s[..|s| - 1];
      assert Distinct(init);
      LiveDistinct(init);
      if s[|s| - 1].Some? {
        LiveMembership(init);
        assert s[|s| - 1] !in init;
      }
    }
  }

  /** Compaction is stable: entry `k`, when live, lands at its rank, and live
      entries keep their relative order. */
  lemma {:induction false} LiveStable<T>(s: seq<Option<T>>)
    ensures forall k :: 0 <= k < |s| && s[k].Some? ==> Rank(s, k) < |Live(s)| && Live(s)[Rank(s, k)] == s[k]
    ensures forall a, b :: 0 <= a < b < |s| && s[a].Some? ==> Rank(s, a) < Rank(s, b)
    decreases |s|
  {
    if |s| > 0 {
      var n := |s| - 1;
      var init := s[..n];
      LiveStable(init);
      forall k | 0 <= k < n
        ensures Rank(s, k) == Rank(init, k)
      {
        assert s[..k] == init[..k];
      }
      assert s[..n] == init;
      if s[n].Some? {
        assert Live(s) == Live(init) + [s[n]];
      }
      forall a, b | 0 <= a < b < |s| && s[a].Some?
        ensures Rank(s, a) < Rank(s, b)
      {
        RankGrows(s, a, b);
      }
    }
  }

  /** Ranks never decrease, and a live entry raises the rank after it. */
  lemma {:induction false} RankGrows<T>(s: seq<Option<T>>, a: nat, b: nat)
    requires a < b <= |s| && s[a].Some?
    ensures Rank(s, a) < Rank(s, b)
    decreases b - a
  {
    assert s[..a + 1][..a] == s[..a];
    assert Rank(s, a + 1) == Rank(s, a) + 1;
    if a + 1 < b {
      RankMonotone(s, a + 1, b);
    }
  }

  lemma {:induction false} RankMonotone<T>(s: seq<Option<T>>, a: nat, b: nat)
    requires a <= b <= |s|
    ensures Rank(s, a) <= Rank(s, b)
    decreases b - a
  {
    if a < b {
      RankMonotone(s, a, b - 1);
      assert s[..b][..b - 1] == s[..b - 1];
    }
  }

  /** The compaction pass of the clock: walk the list once, move every live
      entry down to the next free position, leave a tombstone where it came
      from, then truncate after the last moved entry. */
  method Compact<T>(s: seq<Option<T>>) returns (r: seq<Option<T>>)
    ensures r == Live(s)
  {
    var t := s;
    var cur := 0;
    var i := 0;
    while i < |t|
      invariant |t| == |s|
      invariant cur <= i <= |s|
      invariant t[..cur] == Live(s[..i])
      invariant forall k :: cur <= k < i ==> t[k] == None
      invariant t[i..] == s[i..]
    {
      assert s[..i + 1][..i] == s[..i];
      assert t[i] == s[i];
      if t[i].Some? {
        if cur != i {
          t := t[cur := t[i]][i := None];
        }
        cur := cur + 1;
      }
      i := i + 1;
    }
    assert s[..i] == s;
    r := t[..cur];
  }
}
