/** The loops of lib/nom/weight_database.rb, run on the values of the
    database's hashes: reading the log, filling gaps, smoothing and
    predicting. Each is proved against a function of its inputs; the class
    in WeightDb assigns the results to its fields. */
module WeightLoops {
  import opened Common
  import opened Series

  /** One parsed line of the weight log. */
  datatype Observation = Observation(date: int, weight: real)

  function DatesOf(obs: seq<Observation>): (r: seq<int>)
    ensures |r| == |obs| && forall i :: 0 <= i < |obs| ==> r[i] == obs[i].date
  {
    if obs == [] then [] else [obs[0].date] + DatesOf(obs[1..])
  }

  /** The weights after reading obs line by line: a later line for a date
      overrides an earlier one. */
  function LoadedWeights(obs: seq<Observation>): (w: map<int, real>)
    ensures forall k :: k in w <==> k in DatesOf(obs)
  {
    if obs == [] then map[]
    else
      var init, last := obs[..|obs| - 1], obs[|obs| - 1];
      assert DatesOf(obs) == DatesOf(init) + [last.date];
      LoadedWeights(init)[last.date := last.weight]
  }

  /** A date takes the weight of its last line. */
  lemma {:induction false} LoadedLast(obs: seq<Observation>, i: int)
    requires 0 <= i < |obs| && LastOccurrence(obs, i, |obs|)
    ensures obs[i].date in LoadedWeights(obs) && LoadedWeights(obs)[obs[i].date] == obs[i].weight
  {
    var init := obs[..|obs| - 1];
    assert DatesOf(obs)[i] == obs[i].date;
    if i < |obs| - 1 {
      assert LastOccurrence(init, i, |init|) by {
        forall l | i < l < |init| ensures init[l].date != init[i].date {
          assert init[l] == obs[l] && init[i] == obs[i];
        }
      }
      LoadedLast(init, i);
      assert obs[|obs| - 1].date != obs[i].date;
    }
  }

  /** No observation after position j and before position i has j's date. */
  predicate LastOccurrence(obs: seq<Observation>, j: int, i: int)
    requires 0 <= j < i <= |obs|
  {
    forall l :: j < l < i ==> obs[l].date != obs[j].date
  }

  /** A date strictly between two consecutive ascending keys is no key. */
  lemma NotAKey(keys: seq<int>, i: int, d: int)
    requires StrictlyAscending(keys) && 0 <= i < |keys| - 1 && keys[i] < d < keys[i + 1]
    ensures d !in keys
  {
    forall j | 0 <= j < |keys| ensures keys[j] != d {
      if j <= i {
        assert keys[j] <= keys[i];
      } else {
        assert keys[j] >= keys[i + 1];
      }
    }
  }

  lemma AppendAssoc(a: seq<int>, b: seq<int>, c: seq<int>)
    ensures (a + b) + c == a + (b + c)
  {
  }

  /** The key order of the weights hash after reading obs: each date at
      the position of its first line. */
  function LoadedOrder(obs: seq<Observation>): seq<int>
  {
    if obs == [] then []
    else
      var o, last := LoadedOrder(obs[..|obs| - 1]), obs[|obs| - 1].date;
      if last in o then o else o + [last]
  }

  /** The key order lists each date of the log exactly once. */
  lemma {:induction false} LoadedOrderFacts(obs: seq<Observation>)
    ensures Distinct(LoadedOrder(obs))
    ensures forall k :: k in LoadedOrder(obs) <==> k in DatesOf(obs)
  {
    if obs != [] {
      var init := obs[..|obs| - 1];
      var o, last := LoadedOrder(init), obs[|obs| - 1].date;
      LoadedOrderFacts(init);
      assert DatesOf(obs) == DatesOf(init) + [last];
      if last !in o {
        var o' := o + [last];
        forall a, b | 0 <= a < b < |o'| ensures o'[a] != o'[b] {
          if b == |o| {
            assert o'[a] == o[a] && o[a] in o;
          } else {
            assert o'[a] == o[a] && o'[b] == o[b];
          }
        }
      }
    }
  }

  /** A log in ascending date order gives exactly its dates as key order. */
  lemma {:induction false} LoadedOrderAscending(obs: seq<Observation>)
    requires StrictlyAscending(DatesOf(obs))
    ensures LoadedOrder(obs) == DatesOf(obs)
  {
    if obs != [] {
      var n := |obs| - 1;
      var init, dates := obs[..n], DatesOf(obs);
      DatesOfPrefix(obs, n);
      AscendingPrefix(dates, |obs|);
      LoadedOrderAscending(init);
      assert dates == dates[..n] + [dates[n]];
    }
  }

  /** The dates of a prefix of the log are a prefix of its dates. */
  lemma DatesOfPrefix(obs: seq<Observation>, i: int)
    requires 0 <= i <= |obs|
    ensures DatesOf(obs[..i]) == DatesOf(obs)[..i]
  {
    var p, q := DatesOf(obs[..i]), DatesOf(obs)[..i];
    assert |p| == |q|;
    forall j | 0 <= j < i ensures p[j] == q[j] {
      assert obs[..i][j] == obs[j];
    }
  }

  /** Reading one more line overrides that line's date and, when the date
      is new, appends it to the key order. */
  lemma LoadStep(obs: seq<Observation>, i: int)
    requires 0 <= i < |obs|
    ensures LoadedWeights(obs[..i + 1]) == LoadedWeights(obs[..i])[obs[i].date := obs[i].weight]
    ensures LoadedOrder(obs[..i + 1]) ==
              if obs[i].date in LoadedWeights(obs[..i]) then LoadedOrder(obs[..i])
              else LoadedOrder(obs[..i]) + [obs[i].date]
  {
    assert obs[..i + 1][..i] == obs[..i] && obs[..i + 1][i] == obs[i];
    LoadedOrderFacts(obs[..i]);
  }

  /** Every weight date, and nothing else, is flagged as a real observation. */
  ghost predicate AllReal(flags: map<int, bool>, w: map<int, real>) {
    (forall k :: k in flags <==> k in w) && forall k :: k in flags ==> !flags[k]
  }

  /** Recording one more observation keeps every flag real. */
  lemma AllRealStep(flags: map<int, bool>, w: map<int, real>, d: int, x: real)
    requires AllReal(flags, w)
    ensures AllReal(flags[d := false], w[d := x])
  {
  }

  /** The constructor's loop over the log lines. */
  method Load(obs: seq<Observation>) returns (w: map<int, real>, keys: seq<int>, flags: map<int, bool>)
    ensures w == LoadedWeights(obs) && keys == LoadedOrder(obs)
    ensures AllReal(flags, w)
  {
    w, keys, flags := map[], [], map[];
    var i := 0;
    while i < |obs|
      invariant 0 <= i <= |obs|
      invariant w == LoadedWeights(obs[..i]) && keys == LoadedOrder(obs[..i])
      invariant AllReal(flags, w)
    {
      var o := obs[i];
      LoadStep(obs, i);
      AllRealStep(flags, w, o.date, o.weight);
      // a new date joins the end of the hash's key order
      keys := if o.date in w then keys else keys + [o.date];
      w, flags, i := w[o.date := o.weight], flags[o.date := false], i + 1;
    }
    assert obs[..|obs|] == obs;
  }

  /** The outer loop of interpolate_gaps!: each consecutive pair of keys,
      in key order, has the dates between them filled. */
  method FillAllGaps(w0: map<int, real>, f0: map<int, bool>, keys: seq<int>)
      returns (w: map<int, real>, f: map<int, bool>, o: seq<int>)
    requires StrictlyAscending(keys) && forall k :: k in w0 <==> k in keys
    ensures w == FillGaps(w0, keys) && f == MarkGaps(f0, keys) && o == keys + GapSeq(keys)
  {
    w, f, o := w0, f0, keys;
    var i := 0;
    GapsStart(w0, f0, keys);
    while i + 1 < |keys|
      invariant GapsLeft(w0, f0, keys, i, w, f, o)
    {
      GapsAdvance(w0, f0, keys, i, w, f, o);
      w, f, o := FillOneSpan(w, f, o, keys[i], keys[i + 1]);
      i := i + 1;
    }
    GapsDone(w0, f0, keys, i, w, f, o);
  }

  /** The inner loop of interpolate_gaps!: fill the dates strictly between
      consecutive weight dates a and b, flag them interpolated and append
      the new ones to the key order. */
  method FillOneSpan(w0: map<int, real>, f0: map<int, bool>, o0: seq<int>, a: int, b: int)
      returns (w: map<int, real>, f: map<int, bool>, o: seq<int>)
    requires a in w0 && b in w0 && a < b
    requires forall x :: a < x < b ==> x !in w0
    ensures w == FillSpan(w0, a, b)
    ensures f == MarkSpan(f0, a, b)
    ensures o == o0 + Range(a + 1, b)
  {
    w, f, o := w0, f0, o0;
    var d := a + 1;
    while d <= b - 1
      invariant a + 1 <= d <= b
      invariant w == FillSpanTo(w0, a, b, d)
      invariant f == MarkSpan(f0, a, d)
      invariant o == o0 + Range(a + 1, d)
    {
      SpanAdvance(w0, f0, o0, a, b, d, w, f, o);
      if d !in w {
        o := o + [d];
      }
      w := w[d := Lerp(w[a], w[b], a, b, d)];
      f := f[d := true];
      d := d + 1;
    }
  }

  /** The loop of precompute_moving_average!: seed the level at `first`,
      then for each following date store the new level and carry the
      trend. */
  method SmoothRange(w: map<int, real>, m0: map<int, real>, first: int, last: int,
                            alpha: real, beta: real, goal: real, rate: real) returns (m: map<int, real>)
    requires first <= last && forall k :: first <= k <= last ==> k in w
    ensures m == m0 + SmoothedLevels(w, first, last, alpha, beta, goal, rate)
  {
    var trend := Dampened(w[first], goal, rate) / 7.0;
    LevelsStart(m0, w, first, alpha, beta, goal, rate);
    m := m0[first := w[first]];
    var d := first + 1;
    while d <= last
      invariant first + 1 <= d <= last + 1
      invariant m == m0 + SmoothedLevels(w, first, d - 1, alpha, beta, goal, rate)
      invariant d - 1 in m && Holt(w, first, d - 1, alpha, beta, goal, rate) == Smoothed(m[d - 1], trend)
    {
      // the level and trend updates of one day
      var next := HoltStep(Smoothed(m[d - 1], trend), w[d], alpha, beta);
      LevelsAdvance(m0, w, first, d, m, trend, alpha, beta, goal, rate);
      m := m[d := next.level];
      trend := next.trend;
      d := d + 1;
    }
  }

  /** The loop of predict_weights!: d runs from the last date on; each
      date within 0.1 of the goal lowers the tail counter, and until it
      reaches 0 the next date is appended with the predicted step. */
  method Predict(w0: map<int, real>, f0: map<int, bool>, o0: seq<int>, ma: map<int, real>, d0: int,
                        rate: real, goal: real, tail: int)
      returns (w: map<int, real>, f: map<int, bool>, o: seq<int>, d: int)
    requires d0 in w0 && (forall k :: k in w0 ==> k <= d0) && (forall k :: k in ma ==> k <= d0)
    requires 0.0 < rate <= 7.0 && tail >= 1
    ensures Forecast(w, f, o) == PredictFrom(w0, f0, o0, ma, d0, d, goal, rate)
    ensures StopsAt(w, goal, d0, d, tail)
  {
    w, f, o, d := w0, f0, o0, d0;
    // the tail counter drops on each date within 0.1 of the goal
    var t := if Abs(w[d] - goal) < 0.1 then tail - 1 else tail;
    while t != 0
      invariant d0 <= d
      invariant Forecast(w, f, o) == PredictFrom(w0, f0, o0, ma, d0, d, goal, rate)
      invariant forall k :: d0 <= k <= d ==> k in w
      invariant 0 <= t == tail - NearCount(w, goal, d0, d)
      invariant t == 0 ==> Abs(w[d] - goal) < 0.1
      decreases if d == d0 then 1 else 0, Remaining(w[d], goal, rate), t
    {
      var next := PredictStep(if d in ma then ma[d] else w[d], goal, rate);
      PredictAdvance(w0, f0, o0, ma, d0, goal, rate, w, f, o, d);
      w, f, o, d := w[d + 1 := next], f[d + 1 := true], o + [d + 1], d + 1;
      t := if Abs(next - goal) < 0.1 then t - 1 else t;
    }
    PredictDone(w, goal, d0, d, tail);
  }

  /** When the tail counter reaches 0 the loop stops at the first date
      where the near-goal count reaches tail. */
  lemma PredictDone(w: map<int, real>, goal: real, d0: int, d: int, tail: int)
    requires d0 <= d && forall k :: d0 <= k <= d ==> k in w
    requires NearCount(w, goal, d0, d) == tail && Abs(w[d] - goal) < 0.1
    ensures StopsAt(w, goal, d0, d, tail)
  {
    if d > d0 {
      assert NearCount(w, goal, d0, d - 1) == tail - 1;
      forall e | d0 <= e < d ensures NearCount(w, goal, d0, e) < tail {
        NearCountMono(w, goal, d0, e, d - 1);
      }
    }
  }

  /** One pass of predict_weights!'s loop: the appended date extends the
      forecast by one day, the near-goal count by that date's share, and
      after the first pass brings the weight closer to the goal. */
  lemma PredictAdvance(w0: map<int, real>, f0: map<int, bool>, o0: seq<int>, ma: map<int, real>, d0: int,
                       goal: real, rate: real, w: map<int, real>, f: map<int, bool>, o: seq<int>, d: int)
    requires d0 <= d && 0.0 < rate <= 7.0 && forall k :: k in ma ==> k <= d0
    requires Forecast(w, f, o) == PredictFrom(w0, f0, o0, ma, d0, d, goal, rate)
    requires forall k :: d0 <= k <= d ==> k in w
    ensures var next := PredictStep(if d in ma then ma[d] else w[d], goal, rate);
      && Forecast(w[d + 1 := next], f[d + 1 := true], o + [d + 1]) == PredictFrom(w0, f0, o0, ma, d0, d + 1, goal, rate)
      && NearCount(w[d + 1 := next], goal, d0, d + 1) ==
           NearCount(w, goal, d0, d) + (if Abs(next - goal) < 0.1 then 1 else 0)
      && (d > d0 ==> Remaining(next, goal, rate) < Remaining(w[d], goal, rate) || Abs(next - goal) < 0.1)
  {
    var next := PredictStep(if d in ma then ma[d] else w[d], goal, rate);
    PredictFromStep(w0, f0, o0, ma, d0, d, goal, rate);
    NearCountStep(w, w[d + 1 := next], goal, d0, d);
    if d > d0 {
      StepMeasure(w[d], goal, rate);
    }
  }

  /** One step of interpolate_gaps!'s inner loop moves each of its three
      hashes one date further. */
  lemma SpanAdvance(w0: map<int, real>, f0: map<int, bool>, o0: seq<int>, a: int, b: int, d: int,
                    w: map<int, real>, f: map<int, bool>, o: seq<int>)
    requires a in w0 && b in w0 && a < d < b
    requires forall x :: a < x < b ==> x !in w0
    requires w == FillSpanTo(w0, a, b, d) && f == MarkSpan(f0, a, d) && o == o0 + Range(a + 1, d)
    ensures d !in w && a in w && b in w
    ensures w[d := Lerp(w[a], w[b], a, b, d)] == FillSpanTo(w0, a, b, d + 1)
    ensures f[d := true] == MarkSpan(f0, a, d + 1)
    ensures o + [d] == o0 + Range(a + 1, d + 1)
  {
    FillSpanToFacts(w0, a, b, d);
    AppendRangeSnoc(o0, a + 1, d);
  }

  /** The state of interpolate_gaps!'s outer loop before the pair at
      position i: what remains of the walk over keys[i..] from the current
      hashes gives the same result as the whole walk from the original ones,
      and no date after keys[i] has been added yet. */
  ghost predicate GapsLeft(w0: map<int, real>, f0: map<int, bool>, keys: seq<int>, i: int,
                           w: map<int, real>, f: map<int, bool>, o: seq<int>)
  {
    && StrictlyAscending(keys) && KeysIn(keys, w0)
    && 0 <= i <= |keys| && (|keys| > 0 ==> i < |keys|)
    && StrictlyAscending(keys[i..]) && KeysIn(keys[i..], w)
    && FillGaps(w, keys[i..]) == FillGaps(w0, keys)
    && MarkGaps(f, keys[i..]) == MarkGaps(f0, keys)
    && o + GapSeq(keys[i..]) == keys + GapSeq(keys)
    && (|keys| > 0 ==> forall x :: x in w && x > keys[i] ==> x in w0)
  }

  /** Before the first pair nothing has been filled. */
  lemma GapsStart(w0: map<int, real>, f0: map<int, bool>, keys: seq<int>)
    requires StrictlyAscending(keys) && forall k :: k in w0 <==> k in keys
    ensures GapsLeft(w0, f0, keys, 0, w0, f0, keys)
  {
    assert keys[0..] == keys;
    assert KeysIn(keys, w0) by {
      forall i | 0 <= i < |keys| ensures keys[i] in w0 {
        assert keys[i] in keys;
      }
    }
  }

  /** One pass of interpolate_gaps!'s outer loop: the pair (keys[i],
      keys[i+1]) has no weight date between them, and filling it moves the
      loop state to the next pair. */
  lemma GapsAdvance(w0: map<int, real>, f0: map<int, bool>, keys: seq<int>, i: int,
                    w: map<int, real>, f: map<int, bool>, o: seq<int>)
    requires GapsLeft(w0, f0, keys, i, w, f, o) && i + 1 < |keys|
    requires forall k :: k in w0 <==> k in keys
    ensures keys[i] in w && keys[i + 1] in w && keys[i] < keys[i + 1]
    ensures forall x :: keys[i] < x < keys[i + 1] ==> x !in w
    ensures GapsLeft(w0, f0, keys, i + 1, FillSpan(w, keys[i], keys[i + 1]), MarkSpan(f, keys[i], keys[i + 1]),
                     o + Range(keys[i] + 1, keys[i + 1]))
  {
    var a, b := keys[i], keys[i + 1];
    FillGapsStep(w, keys, i);
    MarkGapsStep(f, keys, i);
    GapSeqUnfold(keys, i);
    AppendAssoc(o, Range(a + 1, b), GapSeq(keys[i + 1..]));
    forall x | a < x < b ensures x !in w {
      NotAKey(keys, i, x);
    }
    FillSpanFacts(w, a, b);
  }

  /** When interpolate_gaps!'s outer loop stops, no work remains. */
  lemma GapsDone(w0: map<int, real>, f0: map<int, bool>, keys: seq<int>, i: int,
                 w: map<int, real>, f: map<int, bool>, o: seq<int>)
    requires GapsLeft(w0, f0, keys, i, w, f, o) && i + 1 >= |keys|
    ensures w == FillGaps(w0, keys) && f == MarkGaps(f0, keys) && o == keys + GapSeq(keys)
  {
    if |keys| > 0 {
      assert keys[i..] == [keys[|keys| - 1]];
    } else {
      assert keys[i..] == [];
    }
    assert o + [] == o;
  }

  /** precompute_moving_average! seeds the level at `first` with the weight. */
  lemma LevelsStart(m0: map<int, real>, w: map<int, real>, first: int, alpha: real, beta: real, goal: real, rate: real)
    requires first in w
    ensures m0[first := w[first]] == m0 + SmoothedLevels(w, first, first, alpha, beta, goal, rate)
    ensures Holt(w, first, first, alpha, beta, goal, rate) == Smoothed(w[first], Dampened(w[first], goal, rate) / 7.0)
  {
    assert SmoothedLevels(w, first, first - 1, alpha, beta, goal, rate) == map[];
    MergeUpdate(m0, map[], first, w[first]);
    assert m0 + map[] == m0;
  }

  /** One day of precompute_moving_average! extends the stored levels by
      the next value of the recurrence. */
  lemma LevelsAdvance(m0: map<int, real>, w: map<int, real>, first: int, d: int, m: map<int, real>, trend: real,
                      alpha: real, beta: real, goal: real, rate: real)
    requires first < d && d in w
    requires m == m0 + SmoothedLevels(w, first, d - 1, alpha, beta, goal, rate)
    requires d - 1 in m && Holt(w, first, d - 1, alpha, beta, goal, rate) == Smoothed(m[d - 1], trend)
    ensures var next := HoltStep(Smoothed(m[d - 1], trend), w[d], alpha, beta);
      && m[d := next.level] == m0 + SmoothedLevels(w, first, d, alpha, beta, goal, rate)
      && Holt(w, first, d, alpha, beta, goal, rate) == Smoothed(next.level, next.trend)
  {
    var next := HoltStep(Smoothed(m[d - 1], trend), w[d], alpha, beta);
    MergeUpdate(m0, SmoothedLevels(w, first, d - 1, alpha, beta, goal, rate), d, next.level);
  }
}
