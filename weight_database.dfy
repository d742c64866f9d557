/** The weight series of lib/nom/weight_database.rb: the three parallel
    hashes `@weights`, `@interpolated` and `@moving_averages`, keyed by day
    number, and the in-place passes over them. `order` is the key order of
    the `@weights` hash (Ruby hashes iterate in insertion order), which
    `interpolate_gaps!` and `find_gap` walk. */
module WeightDb {
  import opened Common
  import opened Series
  import opened WeightLoops

  /** A pair of consecutive weight dates, as find_gap returns it. */
  datatype Gap = Gap(earlier: int, later: int)

  /** From position i on, consecutive keys are at most `days` apart. */
  predicate NarrowFrom(s: seq<int>, i: nat, days: int) {
    forall j :: i <= j < |s| - 1 ==> s[j + 1] - s[j] <= days
  }

  /** A position of x in s. */
  function IndexOf(s: seq<int>, x: int): (i: nat)
    requires x in s
    ensures i < |s| && s[i] == x
  {
    if s[0] == x then 0 else 1 + IndexOf(s[1..], x)
  }

  /** The weights dated `date` or later (what `truncate` keeps). */
  function DropBefore(w: map<int, real>, date: int): (r: map<int, real>)
    ensures forall k :: k in r <==> k in w && k >= date
    ensures forall k :: k in r ==> r[k] == w[k]
  {
    map k | k in w && k >= date :: w[k]
  }

  /** The keys of s that are >= date, in their order. */
  function KeepFrom(s: seq<int>, date: int): (r: seq<int>)
    ensures forall x :: x in r <==> x in s && x >= date
  {
    if s == [] then []
    else
      assert forall x :: x in s <==> x == s[0] || x in s[1..];
      if s[0] >= date then [s[0]] + KeepFrom(s[1..], date) else KeepFrom(s[1..], date)
  }

  lemma {:induction false} KeepFromDistinct(s: seq<int>, date: int)
    requires Distinct(s)
    ensures Distinct(KeepFrom(s, date))
  {
    if s != [] {
      var rest := KeepFrom(s[1..], date);
      assert Distinct(s[1..]);
      KeepFromDistinct(s[1..], date);
      if s[0] >= date {
        var r := [s[0]] + rest;
        assert s[0] !in s[1..];
        forall i, j | 0 <= i < j < |r| ensures r[i] != r[j] {
          if i == 0 {
            assert r[j] in rest;
          } else {
            assert r[i] == rest[i - 1] && r[j] == rest[j - 1];
          }
        }
      }
    }
  }

  /** The hashes of a weight database agree with one another: `order`
      lists the weight dates once each; every weight date has a flag; flags
      of dates that `truncate` dropped lie before every remaining date;
      while weights exist some flag is false (a real observation); moving
      averages never lie beyond the last weight date. */
  ghost predicate Coherent(w: map<int, real>, order: seq<int>, f: map<int, bool>, ma: map<int, real>) {
    && Distinct(order) && KeysIn(order, w)
    && (forall k :: k in w <==> k in order)
    && (forall k :: k in w ==> k in f)
    && (|order| > 0 ==>
          && (forall k :: k in f && k !in w ==> k < SeqMin(order))
          && (exists k :: k in f && !f[k])
          && (forall k :: k in ma ==> k <= SeqMax(order)))
  }

  class WeightDatabase {
    var weights: map<int, real>
    var order: seq<int>
    var interpolated: map<int, bool>
    var movingAverages: map<int, real>

    /** The hashes agree with one another (see Coherent). */
    ghost predicate Valid()
      reads this
    {
      Coherent(weights, order, interpolated, movingAverages)
    }

    /** `empty?`: no weight dates. */
    predicate Empty()
      reads this
    {
      |order| == 0
    }

    /** Reading the log: each line sets the date's weight (a repeated date
        keeps its first position and takes the later weight) and marks it
        real. */
    constructor (obs: seq<Observation>)
      ensures Valid()
      ensures weights == LoadedWeights(obs)
      ensures forall i :: 0 <= i < |obs| && LastOccurrence(obs, i, |obs|) ==> weights[obs[i].date] == obs[i].weight
      ensures order == LoadedOrder(obs)
      ensures StrictlyAscending(DatesOf(obs)) ==> order == DatesOf(obs)
      ensures forall k :: k in interpolated <==> k in weights
      ensures forall k :: k in interpolated ==> !interpolated[k]
      ensures movingAverages == map[]
    {
      var w, keys, flags := Load(obs);
      weights, order, interpolated, movingAverages := w, keys, flags, map[];
      LoadedCoherent(obs, flags);
      if StrictlyAscending(DatesOf(obs)) {
        LoadedOrderAscending(obs);
      }
      new;
      LoadedLastAll(obs);
    }

    /** `first`: the earliest weight date. */
    function First(): (r: int)
      reads this
      requires Valid() && !Empty()
      ensures r in weights && forall k :: k in weights ==> r <= k
    {
      SeqMin(order)
    }

    /** `last`: the latest weight date. */
    function Last(): (r: int)
      reads this
      requires Valid() && !Empty()
      ensures r in weights && forall k :: k in weights ==> k <= r
    {
      SeqMax(order)
    }

    /** `last_real`: the latest date flagged as not interpolated (nil when
        there is none). */
    function LastReal(): Option<int>
      reads this
    {
      LatestReal(interpolated)
    }

    /** `real?`: the date has a weight that is not flagged interpolated. */
    predicate IsReal(date: int)
      reads this
    {
      date in weights && !(date in interpolated && interpolated[date])
    }

    /** A real date is a weight date whose flag is false; it has a stored
        weight, and no real date lies after `last_real`. */
    lemma IsRealFacts(date: int)
      requires Valid()
      ensures IsReal(date) <==> date in weights && !interpolated[date]
      ensures IsReal(date) ==> At(date).Some?
      ensures IsReal(date) ==> LastReal().Some? && date <= LastReal().value
    {
    }

    /** `at`: the stored weight, nil when the date has none. */
    function At(date: int): (r: Option<real>)
      reads this
      ensures r.Some? <==> date in weights
      ensures r.Some? ==> r.value == weights[date]
    {
      if date in weights then Some(weights[date]) else None
    }

    /** `moving_average_at`: the smoothed level, nil when there is none. */
    function MovingAverageAt(date: int): (r: Option<real>)
      reads this
      ensures r.Some? <==> date in movingAverages
      ensures r.Some? ==> r.value == movingAverages[date]
    {
      if date in movingAverages then Some(movingAverages[date]) else None
    }

    /** Every date from first to last has a weight. */
    ghost predicate Contiguous()
      reads this
      requires Valid()
    {
      !Empty() && forall d :: First() <= d <= Last() ==> d in weights
    }

    /** `rate_at`: after the last real date the stored (predicted) weight is
        dampened, up to it the smoothed level. A missing value or a missing
        last real date raises in Ruby and is None here. */
    function RateAt(date: int, goal: real, rate: real): (r: Option<real>)
      reads this
      ensures r.Some? <==> (LastReal().Some? &&
                              if date > LastReal().value then date in weights else date in movingAverages)
      ensures r.Some? && date > LastReal().value ==> r.value == Dampened(weights[date], goal, rate)
      ensures r.Some? && date <= LastReal().value ==> r.value == Dampened(movingAverages[date], goal, rate)
    {
      match LastReal()
      case None => None
      case Some(lastReal) =>
        if date > lastReal then
          if date in weights then Some(Dampened(weights[date], goal, rate)) else None
        else
          if date in movingAverages then Some(Dampened(movingAverages[date], goal, rate)) else None
    }

    /** `find_gap(days)`: walking the keys from the end, the first consecutive
        pair more than `days` apart, returned as (earlier, later). */
    function FindGap(days: int): (r: Option<Gap>)
      reads this
      ensures r.Some? ==> exists i :: 0 <= i < |order| - 1 && order[i] == r.value.earlier && order[i + 1] == r.value.later
                            && r.value.later - r.value.earlier > days && NarrowFrom(order, i + 1, days)
      ensures r.None? ==> NarrowFrom(order, 0, days)
    {
      GapIn(order, days)
    }

    /** With ascending keys, find_gap's pair is the latest gap in time: no
        later pair of consecutive weight dates is more than `days` apart. */
    lemma FindGapIsLatest(days: int)
      requires Valid() && StrictlyAscending(order)
      ensures var r := FindGap(days);
        && (r.Some? ==> Consecutive(weights, r.value.earlier, r.value.later) && r.value.later - r.value.earlier > days)
        && (r.Some? ==> forall k, k2 :: Consecutive(weights, k, k2) && r.value.later <= k ==> k2 - k <= days)
        && (r.None? ==> forall k, k2 :: Consecutive(weights, k, k2) ==> k2 - k <= days)
    {
      GapInIsLatest(order, weights, days);
    }

    /** `interpolate_gaps!`: every date strictly between two consecutive
        weight dates gets the value on the line through them and is flagged
        interpolated. */
    method InterpolateGaps()
      requires Valid() && StrictlyAscending(order)
      modifies this`weights, this`interpolated, this`order
      ensures Valid()
      ensures weights == FillGaps(old(weights), old(order))
      ensures interpolated == MarkGaps(old(interpolated), old(order))
      ensures order == old(order) + GapSeq(old(order))
      ensures !Empty() ==> Contiguous()
    {
      ghost var w0, i0, keys := weights, interpolated, order;
      var w, f, o := FillAllGaps(weights, interpolated, order);
      weights, interpolated, order := w, f, o;
      InterpolationKeepsCoherent(w0, keys, i0, movingAverages);
      NoHoleAfterGaps(w0, keys);
    }

    /** Once the gaps of an ascending key list are filled, every date from
        first to last has a weight. */
    lemma NoHoleAfterGaps(w0: map<int, real>, keys: seq<int>)
      requires Valid() && StrictlyAscending(keys) && KeysIn(keys, w0)
      requires weights == FillGaps(w0, keys) && order == keys + GapSeq(keys)
      ensures !Empty() ==> Contiguous()
    {
      if |keys| > 0 {
        AppendGaps(keys);
        FillGapsContiguous(w0, keys);
        assert First() == keys[0] && Last() == keys[|keys| - 1];
      } else {
        assert GapSeq(keys) == [];
      }
    }

    /** `precompute_moving_average!`: the smoothed level for every date from
        first to last, by Holt's recurrence; other stored levels stay. */
    method PrecomputeMovingAverage(alpha: real, beta: real, goal: real, rate: real)
      requires Valid() && !Empty() && Contiguous()
      modifies this`movingAverages
      ensures Valid()
      ensures movingAverages == old(movingAverages) + SmoothedLevels(weights, First(), Last(), alpha, beta, goal, rate)
      ensures forall k :: k in movingAverages <==> k in old(movingAverages) || First() <= k <= Last()
      ensures movingAverages[First()] == weights[First()]
    {
      var first, last := First(), Last();
      var m := SmoothRange(weights, movingAverages, first, last, alpha, beta, goal, rate);
      LevelsDone(movingAverages, weights, first, last, alpha, beta, goal, rate);
      movingAverages := m;
    }

    /** `predict_weights!`: starting at the old last date, count the dates
        within 0.1 of the goal; until the count reaches `tail`, append the
        next date with the predicted step from the smoothed level (or, where
        there is none, the stored weight) of the day before, flagged
        interpolated. Terminates for a weekly rate in (0, 7] and a positive
        tail. */
    method PredictWeights(rate: real, goal: real, tail: int)
      requires Valid() && !Empty()
      requires 0.0 < rate <= 7.0 && tail >= 1
      modifies this`weights, this`interpolated, this`order
      ensures Valid() && !Empty()
      ensures Forecast(weights, interpolated, order) ==
                PredictFrom(old(weights), old(interpolated), old(order), movingAverages, old(Last()), Last(), goal, rate)
      ensures StopsAt(weights, goal, old(Last()), Last(), tail)
      ensures forall k :: k in weights <==> k in old(weights) || old(Last()) < k <= Last()
      ensures forall d :: old(Last()) < d <= Last() ==> !IsReal(d)
      ensures LastReal() == old(LastReal())
    {
      ghost var w0, o0, i0 := weights, order, interpolated;
      var d0 := Last();
      FlagsBeforeLast(d0);
      var w, f, o, d := Predict(weights, interpolated, order, movingAverages, d0, rate, goal, tail);
      weights, interpolated, order := w, f, o;
      PredictionFacts(w0, o0, i0, d0, d, goal, rate);
      assert Last() == d;
    }

    /** Flags and moving averages lie no later than the last weight date. */
    lemma FlagsBeforeLast(d0: int)
      requires Valid() && !Empty() && d0 == Last()
      ensures d0 in weights && forall k :: k in weights ==> k <= d0
      ensures forall k :: k in interpolated ==> k <= d0
      ensures forall k :: k in movingAverages ==> k <= d0
    {
      forall k | k in interpolated ensures k <= d0 {
        if k !in weights {
          assert k < SeqMin(order) <= d0;
        }
      }
    }

    /** The facts PredictWeights' contract draws from its loop. */
    lemma PredictionFacts(w0: map<int, real>, o0: seq<int>, i0: map<int, bool>, d0: int, d: int, goal: real, rate: real)
      requires Coherent(w0, o0, i0, movingAverages) && |o0| > 0 && d0 == SeqMax(o0) && d0 <= d
      requires forall k :: k in i0 ==> k <= d0
      requires Forecast(weights, interpolated, order) == PredictFrom(w0, i0, o0, movingAverages, d0, d, goal, rate)
      ensures Valid() && !Empty() && Last() == d
      ensures forall k :: k in weights <==> k in w0 || d0 < k <= d
      ensures forall k :: d0 < k <= d ==> !IsReal(k)
      ensures LatestReal(interpolated) == LatestReal(i0)
    {
      ForecastCoherent(w0, o0, i0, movingAverages, d0, d, goal, rate);
    }

    /** `truncate(date)`: drop every weight dated before `date`. The flags
        and moving averages are left as they are. */
    method Truncate(date: int)
      requires Valid()
      modifies this`weights, this`order
      ensures Valid()
      ensures weights == DropBefore(old(weights), date)
      ensures order == KeepFrom(old(order), date)
      ensures forall k :: k < date ==> !IsReal(k)
      ensures forall k :: k >= date ==> IsReal(k) == old(IsReal(k))
    {
      ghost var w0, o0 := weights, order;
      weights := DropBefore(weights, date);
      order := KeepFrom(order, date);
      TruncationKeepsCoherent(w0, o0, interpolated, movingAverages, date);
    }
  }

  /** Dropping the weights before a date keeps the hashes coherent: the
      dropped dates now have a flag and no weight, and lie before every
      remaining date. */
  lemma TruncationKeepsCoherent(w0: map<int, real>, o0: seq<int>, f: map<int, bool>, ma: map<int, real>, date: int)
    requires Coherent(w0, o0, f, ma)
    ensures Coherent(DropBefore(w0, date), KeepFrom(o0, date), f, ma)
  {
    var w, o := DropBefore(w0, date), KeepFrom(o0, date);
    KeepFromDistinct(o0, date);
    assert KeysIn(o, w) by {
      forall i | 0 <= i < |o| ensures o[i] in w {
        assert o[i] in o;
      }
    }
    assert forall k :: k in w <==> k in o;
    assert forall k :: k in w ==> k in f;
    if |o| > 0 {
      assert o[0] in o;
      var top := SeqMax(o0);
      assert top in o;
      SeqMaxIs(o, top);
      forall k | k in f && k !in w ensures k < SeqMin(o) {
        assert SeqMin(o) in o0 && SeqMin(o) >= date;
      }
      assert exists k :: k in f && !f[k];
      assert forall k :: k in ma ==> k <= SeqMax(o);
    }
  }

  /** k and k2 are weight dates with no weight date between them. */
  ghost predicate Consecutive(w: map<int, real>, k: int, k2: int) {
    k in w && k2 in w && k < k2 && forall m :: m in w ==> m <= k || m >= k2
  }

  /** Consecutive weight dates sit side by side in an ascending key list. */
  lemma ConsecutiveIndex(order: seq<int>, w: map<int, real>, k: int, k2: int) returns (i: nat)
    requires StrictlyAscending(order) && (forall x :: x in w <==> x in order) && Consecutive(w, k, k2)
    ensures i + 1 < |order| && order[i] == k && order[i + 1] == k2
  {
    i := IndexOf(order, k);
    var i2 := IndexOf(order, k2);
    assert i < i2;
    assert order[i + 1] in w;
  }

  /** Neighbours in an ascending key list are consecutive weight dates. */
  lemma PairIsConsecutive(order: seq<int>, w: map<int, real>, i: nat)
    requires StrictlyAscending(order) && (forall x :: x in w <==> x in order) && i + 1 < |order|
    ensures Consecutive(w, order[i], order[i + 1])
  {
    forall k | k in w ensures k <= order[i] || k >= order[i + 1] {
      var j := IndexOf(order, k);
    }
  }

  /** When the keys from position i on are at most `days` apart, so is
      every pair of consecutive weight dates from order[i] on. */
  lemma NarrowAfter(order: seq<int>, w: map<int, real>, i: nat, days: int)
    requires StrictlyAscending(order) && (forall x :: x in w <==> x in order)
    requires i < |order| && NarrowFrom(order, i, days)
    ensures forall k, k2 :: Consecutive(w, k, k2) && order[i] <= k ==> k2 - k <= days
  {
    forall k, k2 | Consecutive(w, k, k2) && order[i] <= k ensures k2 - k <= days {
      var j := ConsecutiveIndex(order, w, k, k2);
      assert order[i] <= order[j];
    }
  }

  /** find_gap on a key list: the pair at the latest position where
      consecutive keys are more than `days` apart. */
  function GapIn(order: seq<int>, days: int): (r: Option<Gap>)
    ensures r.Some? ==> exists i :: 0 <= i < |order| - 1 && order[i] == r.value.earlier && order[i + 1] == r.value.later
                          && r.value.later - r.value.earlier > days && NarrowFrom(order, i + 1, days)
    ensures r.None? ==> NarrowFrom(order, 0, days)
  {
    var g := LatestGapIndex(order, days);
    if g.None? then None else Some(Gap(order[g.value], order[g.value + 1]))
  }

  /** The gap find_gap picks in an ascending key list is a pair of
      consecutive weight dates, and no later such pair is wider than days;
      when it finds none, no pair is. */
  lemma GapInIsLatest(order: seq<int>, w: map<int, real>, days: int)
    requires StrictlyAscending(order) && forall x :: x in w <==> x in order
    ensures var r := GapIn(order, days);
      && (r.Some? ==> Consecutive(w, r.value.earlier, r.value.later) && r.value.later - r.value.earlier > days)
      && (r.Some? ==> forall k, k2 :: Consecutive(w, k, k2) && r.value.later <= k ==> k2 - k <= days)
      && (r.None? ==> forall k, k2 :: Consecutive(w, k, k2) ==> k2 - k <= days)
  {
    var g := LatestGapIndex(order, days);
    if g.Some? {
      PairIsConsecutive(order, w, g.value);
      NarrowAfter(order, w, g.value + 1, days);
    } else if |order| > 0 {
      NarrowAfter(order, w, 0, days);
      AscendingEnds(order);
    }
  }

  /** The hashes right after reading the log are coherent. */
  lemma LoadedCoherent(obs: seq<Observation>, flags: map<int, bool>)
    requires forall k :: k in flags <==> k in LoadedWeights(obs)
    requires forall k :: k in flags ==> !flags[k]
    ensures Coherent(LoadedWeights(obs), LoadedOrder(obs), flags, map[])
  {
    var w, keys := LoadedWeights(obs), LoadedOrder(obs);
    LoadedOrderFacts(obs);
    assert KeysIn(keys, w) by {
      forall i | 0 <= i < |keys| ensures keys[i] in w {
        assert keys[i] in keys;
      }
    }
    if |keys| > 0 {
      assert keys[0] in keys;
      assert keys[0] in flags;
    }
  }

  /** Every date takes the weight of its last line. */
  lemma LoadedLastAll(obs: seq<Observation>)
    ensures forall i :: 0 <= i < |obs| && LastOccurrence(obs, i, |obs|) ==>
              obs[i].date in LoadedWeights(obs) && LoadedWeights(obs)[obs[i].date] == obs[i].weight
  {
    forall i | 0 <= i < |obs| && LastOccurrence(obs, i, |obs|)
      ensures obs[i].date in LoadedWeights(obs) && LoadedWeights(obs)[obs[i].date] == obs[i].weight
    {
      LoadedLast(obs, i);
    }
  }

  /** interpolate_gaps! keeps the hashes coherent, keeps the first and last
      date, and leaves no date between them without a weight. */
  lemma InterpolationKeepsCoherent(w0: map<int, real>, keys: seq<int>, i0: map<int, bool>, ma: map<int, real>)
    requires Coherent(w0, keys, i0, ma) && StrictlyAscending(keys)
    ensures Coherent(FillGaps(w0, keys), keys + GapSeq(keys), MarkGaps(i0, keys), ma)
    ensures |keys| > 0 ==> SeqMin(keys + GapSeq(keys)) == keys[0] && SeqMax(keys + GapSeq(keys)) == keys[|keys| - 1]
    ensures |keys| > 0 ==> forall d :: keys[0] <= d <= keys[|keys| - 1] ==> d in FillGaps(w0, keys)
  {
    var w, o, f := FillGaps(w0, keys), keys + GapSeq(keys), MarkGaps(i0, keys);
    FillGapsDomain(w0, keys);
    MarkGapsFlags(i0, keys);
    if |keys| > 0 {
      AscendingEnds(keys);
      GapsAvoidFlags(w0, keys, i0);
      AppendGaps(keys);
      FillGapsContiguous(w0, keys);
      var k :| k in i0 && !i0[k];
      assert k in f && !f[k];
    }
  }

  /** The stored levels cover first..last and start with the first weight. */
  lemma LevelsDone(m0: map<int, real>, w: map<int, real>, first: int, last: int, alpha: real, beta: real, goal: real, rate: real)
    requires first <= last && first in w
    ensures var m := m0 + SmoothedLevels(w, first, last, alpha, beta, goal, rate);
      && (forall k :: k in m <==> k in m0 || first <= k <= last)
      && m[first] == w[first]
  {
    SmoothedLevelsFacts(w, first, last, alpha, beta, goal, rate);
  }

  /** No added date already has a flag: flags without a weight lie before
      the first key, added dates after it. */
  lemma GapsAvoidFlags(w0: map<int, real>, keys: seq<int>, i0: map<int, bool>)
    requires StrictlyAscending(keys) && |keys| > 0
    requires forall k :: k in w0 <==> k in keys
    requires forall k :: k in i0 && k !in w0 ==> k < keys[0]
    ensures forall x :: x in i0 ==> x !in GapSeq(keys)
  {
    GapSeqInside(keys);
  }

  /** The key list after interpolation: still duplicate-free, with the same
      first and last date. */
  lemma AppendGaps(keys: seq<int>)
    requires StrictlyAscending(keys) && |keys| > 0
    ensures Distinct(keys + GapSeq(keys))
    ensures SeqMin(keys + GapSeq(keys)) == keys[0]
    ensures SeqMax(keys + GapSeq(keys)) == keys[|keys| - 1]
  {
    AppendGapsDistinct(keys);
    AppendGapsBounds(keys);
    var o := keys + GapSeq(keys);
    assert o[0] == keys[0] && o[|keys| - 1] == keys[|keys| - 1];
    SeqMinIs(o, keys[0]);
    SeqMaxIs(o, keys[|keys| - 1]);
  }

  /** Every key and every added date lies between the first and last key. */
  lemma AppendGapsBounds(keys: seq<int>)
    requires StrictlyAscending(keys) && |keys| > 0
    ensures forall x :: x in keys + GapSeq(keys) ==> keys[0] <= x <= keys[|keys| - 1]
  {
    var g := GapSeq(keys);
    GapSeqInside(keys);
    forall x | x in keys + g ensures keys[0] <= x <= keys[|keys| - 1] {
      if x in keys {
        var i := IndexOf(keys, x);
        assert keys[0] <= keys[i] <= keys[|keys| - 1];
      }
    }
  }

  lemma AppendGapsDistinct(keys: seq<int>)
    requires StrictlyAscending(keys) && |keys| > 0
    ensures Distinct(keys + GapSeq(keys))
  {
    var g := GapSeq(keys);
    var o := keys + g;
    GapSeqInside(keys);
    forall i, j | 0 <= i < j < |o| ensures o[i] != o[j] {
      if j < |keys| {
        assert o[i] == keys[i] && o[j] == keys[j];
      } else if i < |keys| {
        assert o[j] == g[j - |keys|] && g[j - |keys|] in g;
        assert o[i] == keys[i] && keys[i] in keys;
      } else {
        assert o[i] == g[i - |keys|] && o[j] == g[j - |keys|];
      }
    }
  }

  /** Each date between consecutive keys receives its interpolated value. */
  lemma GapValues(w0: map<int, real>, keys: seq<int>)
    requires StrictlyAscending(keys) && KeysIn(keys, w0)
    requires forall k :: k in w0 <==> k in keys
    ensures forall i, d :: 0 <= i < |keys| - 1 && keys[i] < d < keys[i + 1] ==>
              d in FillGaps(w0, keys) && d in GapSeq(keys) &&
              FillGaps(w0, keys)[d] == Lerp(w0[keys[i]], w0[keys[i + 1]], keys[i], keys[i + 1], d)
  {
    assert NoStrayKeys(w0, keys);
    forall i, d | 0 <= i < |keys| - 1 && keys[i] < d < keys[i + 1]
      ensures d in FillGaps(w0, keys) && d in GapSeq(keys) &&
              FillGaps(w0, keys)[d] == Lerp(w0[keys[i]], w0[keys[i + 1]], keys[i], keys[i + 1], d)
    {
      FillGapsValue(w0, keys, i, d);
      FillGapsDomain(w0, keys);
      NotAKey(keys, i, d);
    }
  }

  /** Appending the dates after the last one keeps the key order
      duplicate-free and its first date, and makes d the last. */
  lemma OrderExtended(o0: seq<int>, d0: int, d: int)
    requires Distinct(o0) && |o0| > 0 && d0 == SeqMax(o0) && d0 <= d
    ensures var o := o0 + Range(d0 + 1, d + 1);
      && Distinct(o) && SeqMin(o) == SeqMin(o0) && SeqMax(o) == d
      && forall x :: x in o <==> x in o0 || d0 < x <= d
  {
    var r := Range(d0 + 1, d + 1);
    var o := o0 + r;
    forall i, j | 0 <= i < j < |o| ensures o[i] != o[j] {
      if j < |o0| {
        assert o[i] == o0[i] && o[j] == o0[j];
      } else if i < |o0| {
        assert o[i] == o0[i] && o0[i] in o0;
        assert o[j] == r[j - |o0|];
      } else {
        assert o[i] == r[i - |o0|] && o[j] == r[j - |o0|];
      }
    }
    forall x | x in o ensures SeqMin(o0) <= x <= d {
      if x !in o0 {
        assert x in r;
      }
    }
    SeqMinIs(o, SeqMin(o0));
    if d > d0 {
      assert o[|o| - 1] == d;
    } else {
      assert d0 in o;
    }
    SeqMaxIs(o, d);
  }

  /** The hashes predict_weights! leaves behind: still coherent, last at d,
      the new dates flagged interpolated, the latest real date unchanged. */
  lemma ForecastCoherent(w0: map<int, real>, o0: seq<int>, i0: map<int, bool>, ma: map<int, real>,
                         d0: int, d: int, goal: real, rate: real)
    requires Coherent(w0, o0, i0, ma) && |o0| > 0 && d0 == SeqMax(o0) && d0 <= d
    requires forall k :: k in i0 ==> k <= d0
    ensures var s := PredictFrom(w0, i0, o0, ma, d0, d, goal, rate);
      && Coherent(s.weights, s.order, s.flags, ma) && |s.order| > 0 && SeqMax(s.order) == d
      && (forall k :: k in s.weights <==> k in w0 || d0 < k <= d)
      && (forall k :: d0 < k <= d ==> k in s.flags && s.flags[k])
      && LatestReal(s.flags) == LatestReal(i0)
  {
    var s := PredictFrom(w0, i0, o0, ma, d0, d, goal, rate);
    ForecastKeys(w0, o0, i0, ma, d0, d, goal, rate);
    ForecastFlags(w0, o0, i0, ma, d0, d, goal, rate);
    var k :| k in i0 && !i0[k];
    assert k in s.flags && !s.flags[k];
  }

  /** The weight dates and the key order after predict_weights! are the old
      ones plus d0+1..d, the order still duplicate-free. */
  lemma ForecastKeys(w0: map<int, real>, o0: seq<int>, i0: map<int, bool>, ma: map<int, real>,
                     d0: int, d: int, goal: real, rate: real)
    requires Coherent(w0, o0, i0, ma) && |o0| > 0 && d0 == SeqMax(o0) && d0 <= d
    ensures var s := PredictFrom(w0, i0, o0, ma, d0, d, goal, rate);
      && (forall k :: k in s.weights <==> k in w0 || d0 < k <= d)
      && (forall k :: k in s.order <==> k in w0 || d0 < k <= d)
      && Distinct(s.order) && KeysIn(s.order, s.weights) && |s.order| > 0
      && SeqMin(s.order) == SeqMin(o0) && SeqMax(s.order) == d
  {
    assert d0 in o0;
    PredictedWeights(w0, i0, o0, ma, d0, d, goal, rate);
    PredictedOrder(w0, i0, o0, ma, d0, d, goal, rate);
    OrderExtended(o0, d0, d);
  }

  /** The flags after predict_weights!: the new dates are set, the old flags
      stay, so the latest real date does not move. */
  lemma ForecastFlags(w0: map<int, real>, o0: seq<int>, i0: map<int, bool>, ma: map<int, real>,
                      d0: int, d: int, goal: real, rate: real)
    requires d0 <= d && forall k :: k in i0 ==> k <= d0
    ensures var f := PredictFrom(w0, i0, o0, ma, d0, d, goal, rate).flags;
      && (forall k :: k in f <==> k in i0 || d0 < k <= d)
      && (forall k :: k in f ==> f[k] == (d0 < k <= d || i0[k]))
      && LatestReal(f) == LatestReal(i0)
  {
    PredictedFlags(w0, i0, o0, ma, d0, d, goal, rate);
    MarkSpanFacts(i0, d0, d + 1);
    RealFlagsKept(i0, d0, d);
  }

  /** The latest date whose flag is false, None when every flag is set. */
  function LatestReal(f: map<int, bool>): (r: Option<int>)
    ensures r.Some? ==> r.value in f && !f[r.value]
    ensures r.Some? ==> forall k :: k in f && !f[k] ==> k <= r.value
    ensures r.None? ==> forall k :: k in f ==> f[k]
  {
    var s := set k | k in f && !f[k];
    assert forall k :: k in f && !f[k] ==> k in s;
    if s == {} then None else Some(SetMax(s))
  }

  /** Flagging the dates after d0 keeps the latest real date when every
      earlier flag lies at or before d0. */
  lemma RealFlagsKept(f0: map<int, bool>, d0: int, d: int)
    requires forall k :: k in f0 ==> k <= d0
    ensures LatestReal(MarkSpan(f0, d0, d + 1)) == LatestReal(f0)
  {
    var f := MarkSpan(f0, d0, d + 1);
    MarkSpanFacts(f0, d0, d + 1);
    var s0 := set k | k in f0 && !f0[k];
    var s := set k | k in f && !f[k];
    assert s == s0 by {
      forall k ensures k in s <==> k in s0 {
        if k in f0 {
          assert f[k] == f0[k];
        }
      }
    }
  }

}
