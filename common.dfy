/** Shared building blocks: failure-compatible wrappers, rounding as Ruby's
    Float#round does it, and small facts about sequences of day numbers. */
module Common {

  datatype Option<T> = None | Some(value: T)

  /** A computation that either yields a value or raises (Ruby's `raise`,
      or a method called on nil). */
  datatype Result<T> = Ok(value: T) | Err(message: string)

  function Abs(x: real): real {
    if x < 0.0 then -x else x
  }

  function Max(a: int, b: int): int {
    if a < b then b else a
  }

  function Min(a: int, b: int): int {
    if a < b then a else b
  }

  /** Float#round with no digits: to the nearest integer, halves away from zero. */
  function Round(x: real): (r: int)
    ensures -0.5 <= r as real - x <= 0.5
    ensures r as real - x == 0.5 ==> x > 0.0
    ensures x - r as real == 0.5 ==> x < 0.0
  {
    if x >= 0.0 then (x + 0.5).Floor else -((-x + 0.5).Floor)
  }

  /** Rounding an integral value gives it back. */
  lemma RoundIntegral(n: int)
    ensures Round(n as real) == n
  {
  }

  predicate StrictlyAscending(s: seq<int>) {
    forall i, j :: 0 <= i < j < |s| ==> s[i] < s[j]
  }

  predicate Distinct(s: seq<int>) {
    forall i, j :: 0 <= i < j < |s| ==> s[i] != s[j]
  }

  /** `keys.min` of a non-empty key list. */
  function SeqMin(s: seq<int>): (r: int)
    requires |s| > 0
    ensures r in s && forall x :: x in s ==> r <= x
  {
    SeqHasMin(s);
    var m :| m in s && forall x :: x in s ==> m <= x;
    m
  }

  /** `keys.max` of a non-empty key list. */
  function SeqMax(s: seq<int>): (r: int)
    requires |s| > 0
    ensures r in s && forall x :: x in s ==> x <= r
  {
    SeqHasMax(s);
    var m :| m in s && forall x :: x in s ==> x <= m;
    m
  }

  lemma SeqHasMin(s: seq<int>)
    requires |s| > 0
    ensures exists m :: m in s && forall x :: x in s ==> m <= x
  {
    var m := SeqMinWitness(s);
  }

  lemma SeqHasMax(s: seq<int>)
    requires |s| > 0
    ensures exists m :: m in s && forall x :: x in s ==> x <= m
  {
    var m := SeqMaxWitness(s);
  }

  /** The minimum of a non-empty list, found element by element. */
  lemma {:induction false} SeqMinWitness(s: seq<int>) returns (m: int)
    requires |s| > 0
    ensures m in s && forall x :: x in s ==> m <= x
  {
    assert forall x :: x in s ==> x == s[0] || x in s[1..];
    if |s| == 1 {
      m := s[0];
    } else {
      var r := SeqMinWitness(s[1..]);
      m := if s[0] <= r then s[0] else r;
    }
  }

  /** The maximum of a non-empty list, found element by element. */
  lemma {:induction false} SeqMaxWitness(s: seq<int>) returns (m: int)
    requires |s| > 0
    ensures m in s && forall x :: x in s ==> x <= m
  {
    assert forall x :: x in s ==> x == s[0] || x in s[1..];
    if |s| == 1 {
      m := s[0];
    } else {
      var r := SeqMaxWitness(s[1..]);
      m := if s[0] >= r then s[0] else r;
    }
  }

  /** Updating a merged map updates its right-hand part. */
  lemma MergeUpdate<K, V>(m0: map<K, V>, s: map<K, V>, k: K, v: V)
    ensures (m0 + s)[k := v] == m0 + s[k := v]
  {
  }

  /** An element below all others is the minimum. */
  lemma SeqMinIs(s: seq<int>, m: int)
    requires m in s && forall x :: x in s ==> m <= x
    ensures SeqMin(s) == m
  {
    var r := SeqMin(s);
    assert r <= m && m <= r;
  }

  /** An element above all others is the maximum. */
  lemma SeqMaxIs(s: seq<int>, m: int)
    requires m in s && forall x :: x in s ==> x <= m
    ensures SeqMax(s) == m
  {
    var r := SeqMax(s);
    assert m <= r && r <= m;
  }

  /** An ascending list starts at its minimum and ends at its maximum. */
  lemma AscendingEnds(s: seq<int>)
    requires StrictlyAscending(s) && |s| > 0
    ensures SeqMin(s) == s[0] && SeqMax(s) == s[|s| - 1]
  {
    forall x | x in s ensures s[0] <= x <= s[|s| - 1] {
      var i :| 0 <= i < |s| && s[i] == x;
    }
    SeqMinIs(s, s[0]);
    SeqMaxIs(s, s[|s| - 1]);
  }

  /** A prefix of an ascending list is ascending, and an ascending list's
      last element does not occur before it. */
  lemma AscendingPrefix(s: seq<int>, n: int)
    requires StrictlyAscending(s) && 0 < n <= |s|
    ensures StrictlyAscending(s[..n - 1]) && s[n - 1] !in s[..n - 1]
  {
    var p := s[..n - 1];
    forall i, j | 0 <= i < j < |p| ensures p[i] < p[j] {
      assert p[i] == s[i] && p[j] == s[j];
    }
    forall i | 0 <= i < |p| ensures p[i] != s[n - 1] {
      assert p[i] == s[i];
    }
  }

  /** The largest element of a non-empty finite set of integers. */
  function SetMax(s: set<int>): (r: int)
    requires s != {}
    ensures r in s && forall x :: x in s ==> x <= r
  {
    SetHasMax(s);
    var m :| m in s && forall x :: x in s ==> x <= m;
    m
  }

  lemma SetHasElement(s: set<int>)
    requires s != {}
    ensures exists y :: y in s
  {
    if forall y :: y !in s { assert false; }
  }

  lemma SetHasMax(s: set<int>)
    requires s != {}
    ensures exists m :: m in s && forall x :: x in s ==> x <= m
  {
    var m := SetMaxWitness(s);
  }

  /** The maximum of a non-empty set, found by taking out one element at a time. */
  lemma {:induction false} SetMaxWitness(s: set<int>) returns (m: int)
    requires s != {}
    ensures m in s && forall x :: x in s ==> x <= m
  {
    SetHasElement(s);
    var y :| y in s;
    var rest := s - {y};
    assert forall x :: x in s ==> x == y || x in rest;
    if rest == {} {
      m := y;
    } else {
      var r := SetMaxWitness(rest);
      m := if y <= r then r else y;
    }
  }

  /** The ascending list lo, lo+1, ..., hi-1 (empty when hi <= lo). */
  function Range(lo: int, hi: int): (r: seq<int>)
    decreases hi - lo
    ensures |r| == if hi <= lo then 0 else hi - lo
    ensures forall i :: 0 <= i < |r| ==> r[i] == lo + i
    ensures forall x :: x in r <==> lo <= x < hi
  {
    if hi <= lo then []
    else
      var r := [lo] + Range(lo + 1, hi);
      forall x | lo <= x < hi ensures x in r {
        assert r[x - lo] == x;
      }
      r
  }

  /** Range grows at its upper end. */
  lemma RangeSnoc(lo: int, hi: int)
    requires lo <= hi
    ensures Range(lo, hi + 1) == Range(lo, hi) + [hi]
  {
    var r, r' := Range(lo, hi + 1), Range(lo, hi) + [hi];
    assert |r| == |r'|;
    forall i | 0 <= i < |r| ensures r[i] == r'[i] {
      if i < hi - lo {
        assert r'[i] == Range(lo, hi)[i];
      }
    }
  }

  /** A list extended by a growing Range grows by one element at its end. */
  lemma AppendRangeSnoc(s: seq<int>, lo: int, hi: int)
    requires lo <= hi
    ensures s + Range(lo, hi + 1) == (s + Range(lo, hi)) + [hi]
  {
    RangeSnoc(lo, hi);
    assert s + (Range(lo, hi) + [hi]) == (s + Range(lo, hi)) + [hi];
  }
}
