/** The streak counter of `stats` in lib/nom/nom.rb: over the days from
    `first` to the day before `last_real`, a streakable statistic is true or
    false on each day; the loop tracks the current run of true days and the
    longest run that a false day has ended. */
module Streaks {
  import opened Common

  /** Days i..j-1 are all true. */
  predicate AllTrue(days: seq<bool>, i: int, j: int)
    requires 0 <= i <= j <= |days|
  {
    forall k :: i <= k < j ==> days[k]
  }

  /** Days i..j-1 are a maximal run of true days that day j, a false day,
      ends. A run may be empty (j == i). */
  predicate ClosedRun(days: seq<bool>, i: int, j: int) {
    0 <= i <= j < |days| && !days[j] && (i == 0 || !days[i - 1]) && AllTrue(days, i, j)
  }

  /** The number of true days at the end of the list. */
  function TrailingRun(days: seq<bool>): (n: nat)
    ensures n <= |days|
  {
    if days == [] || !days[|days| - 1] then 0 else TrailingRun(days[..|days| - 1]) + 1
  }

  /** The last n days are true and the day before them, if any, is false. */
  lemma {:induction false} TrailingRunIs(days: seq<bool>)
    ensures var n := TrailingRun(days);
      AllTrue(days, |days| - n, |days|) && (|days| - n == 0 || !days[|days| - n - 1])
  {
    if days != [] && days[|days| - 1] {
      var p := days[..|days| - 1];
      TrailingRunIs(p);
      var n := TrailingRun(p);
      forall k | |days| - n - 1 <= k < |days| ensures days[k] {
        if k < |days| - 1 {
          assert days[k] == p[k];
        }
      }
      if |p| - n > 0 {
        assert days[|p| - n - 1] == p[|p| - n - 1];
      }
    }
  }

  /** What the loop knows after k days: the current streak is the trailing
      run of true days and started where it says; no closed run seen is
      longer than `longest`; the recorded longest run is a closed run of
      that length, and no earlier closed run is as long; the start is nil
      exactly when the longest streak is 0. */
  ghost predicate StreakInv(days: seq<bool>, first: int, k: int, streak: nat, start: Option<int>,
                            longest: nat, longestStart: Option<int>)
  {
    && 0 <= k <= |days|
    && streak == TrailingRun(days[..k])
    && (streak > 0 ==> start == Some(first + k - streak))
    && (forall i, j :: ClosedRun(days, i, j) && j < k ==> j - i <= longest)
    && (longestStart.None? <==> longest == 0)
    && (longest > 0 ==> Longest(days, longestStart.value - first, longest, k))
  }

  /** Days i..i+n-1 are a closed run, ended before day k, and every closed
      run that starts before it is shorter. */
  ghost predicate Longest(days: seq<bool>, i: int, n: nat, k: int) {
    && ClosedRun(days, i, i + n) && i + n < k
    && forall i', j' :: ClosedRun(days, i', j') && i' < i ==> j' - i' < n
  }

  /** The streak loop: over the days first, first+1, ..., it returns the
      current streak and its start and the longest streak and its start.
      An ongoing streak never counts as the longest, and of two equally long
      streaks the earlier is kept. */
  method CountStreaks(days: seq<bool>, first: int)
    returns (streak: nat, start: Option<int>, longest: nat, longestStart: Option<int>)
    ensures streak == TrailingRun(days)
    ensures streak > 0 ==> start == Some(first + |days| - streak)
    ensures forall i, j :: ClosedRun(days, i, j) ==> j - i <= longest
    ensures longestStart.None? <==> longest == 0
    ensures longest > 0 ==> Longest(days, longestStart.value - first, longest, |days|)
  {
    streak, start, longest, longestStart := 0, None, 0, None;
    var k := 0;
    while k < |days|
      invariant StreakInv(days, first, k, streak, start, longest, longestStart)
    {
      if days[k] {
        StreakOn(days, first, k, streak, start, longest, longestStart);
        if streak == 0 {
          start := Some(first + k);
        }
        streak := streak + 1;
      } else {
        StreakOff(days, first, k, streak, start, longest, longestStart);
        if streak > longest {
          longest := streak;
          longestStart := start;
        }
        streak := 0;
      }
      k := k + 1;
    }
    assert days[..k] == days;
  }

  /** A true day extends the current streak. */
  lemma StreakOn(days: seq<bool>, first: int, k: int, streak: nat, start: Option<int>,
                 longest: nat, longestStart: Option<int>)
    requires StreakInv(days, first, k, streak, start, longest, longestStart) && k < |days| && days[k]
    ensures StreakInv(days, first, k + 1, streak + 1, if streak == 0 then Some(first + k) else start,
                      longest, longestStart)
  {
    assert days[..k + 1][..k] == days[..k];
    forall i, j | ClosedRun(days, i, j) && j < k + 1 ensures j - i <= longest {
      assert j != k;
    }
  }

  /** A false day ends the current streak, which becomes the longest when
      it is strictly longer. */
  lemma StreakOff(days: seq<bool>, first: int, k: int, streak: nat, start: Option<int>,
                  longest: nat, longestStart: Option<int>)
    requires StreakInv(days, first, k, streak, start, longest, longestStart) && k < |days| && !days[k]
    ensures StreakInv(days, first, k + 1, 0, start,
                      if streak > longest then streak else longest,
                      if streak > longest then start else longestStart)
  {
    var p := days[..k];
    assert days[..k + 1][..k] == p;
    TrailingRunIs(p);
    var s := k - streak;
    forall m | s <= m < k ensures days[m] {
      assert days[m] == p[m];
    }
    if s > 0 {
      assert days[s - 1] == p[s - 1];
    }
    assert ClosedRun(days, s, k);
    forall i | ClosedRun(days, i, k) ensures i == s {
      RunStartUnique(days, i, s, k);
    }
    var l := if streak > longest then streak else longest;
    forall i, j | ClosedRun(days, i, j) && j < k + 1 ensures j - i <= l {
      if j == k {
        assert i == s;
      }
    }
    if streak > longest {
      assert forall i', j' :: ClosedRun(days, i', j') && i' < s ==> j' - i' < streak;
    } else if longest > 0 {
      var ls := longestStart.value - first;
      assert forall i', j' :: ClosedRun(days, i', j') && i' < ls ==> j' - i' < longest;
    }
  }

  /** Two maximal runs ending at the same day start at the same day. */
  lemma RunStartUnique(days: seq<bool>, i: int, s: int, k: int)
    requires ClosedRun(days, i, k) && ClosedRun(days, s, k)
    ensures i == s
  {
  }
}
