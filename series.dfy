/** The arithmetic of the weight series (lib/nom/weight_database.rb) stated
    as functions of values: the rate-dampening rule, linear gap filling, the
    level/trend smoother and the predictor's step. The class WeightDatabase
    in module WeightDb is proved against these definitions. */
module Series {
  import opened Common

  // ---------------------------------------------------------------------
  // Rate dampening (dampened_rate)
  // ---------------------------------------------------------------------

  /** The signed rate towards `goal`: full `rate` while the distance exceeds
      one unit, proportionally less inside that band. */
  function Dampened(weight: real, goal: real, rate: real): real {
    var diff := goal - weight;
    if Abs(diff) > 1.0 then diff / Abs(diff) * rate else diff * rate
  }

  /** The dampened rate is zero at the goal, the full rate (in size) at
      least one unit away, proportionally less inside that band, never
      larger than the rate, and points towards the goal. */
  lemma DampenedFacts(weight: real, goal: real, rate: real)
    ensures var r := Dampened(weight, goal, rate);
      && (weight == goal ==> r == 0.0)
      && (goal - weight > 1.0 ==> r == rate)
      && (goal - weight < -1.0 ==> r == -rate)
      && (Abs(goal - weight) <= 1.0 ==> r == (goal - weight) * rate)
      && (Abs(goal - weight) >= 1.0 ==> Abs(r) == Abs(rate))
      && (Abs(goal - weight) <= 1.0 ==> Abs(r) == Abs(goal - weight) * Abs(rate))
      && (rate >= 0.0 ==> Abs(r) <= rate)
      && (rate > 0.0 ==> (r > 0.0 <==> goal > weight) && (r < 0.0 <==> goal < weight))
  {
    var diff := goal - weight;
    var r := Dampened(weight, goal, rate);
    if Abs(diff) > 1.0 {
      DampenedFar(diff, rate);
      assert r == if diff > 0.0 then rate else -rate;
    } else {
      DampenedNear(diff, rate);
      assert r == diff * rate;
    }
  }

  /** Outside the band the dampened rate is the rate with the sign of diff. */
  lemma DampenedFar(diff: real, rate: real)
    requires Abs(diff) > 1.0
    ensures diff / Abs(diff) * rate == if diff > 0.0 then rate else -rate
  {
    if diff > 0.0 {
      OverSelf(diff);
    } else {
      OverSelf(-diff);
    }
  }

  /** Inside the band the dampened rate is diff * rate, with the size and
      sign that product has. */
  lemma DampenedNear(diff: real, rate: real)
    requires Abs(diff) <= 1.0
    ensures Abs(diff) >= 1.0 ==> Abs(diff * rate) == Abs(rate)
    ensures Abs(diff * rate) == Abs(diff) * Abs(rate)
    ensures rate >= 0.0 ==> Abs(diff * rate) <= rate
    ensures rate > 0.0 ==> (diff * rate > 0.0 <==> diff > 0.0) && (diff * rate < 0.0 <==> diff < 0.0)
  {
    AbsOfProduct(diff, rate);
    ScaledBelow(diff, rate);
  }

  /** A positive number divided by itself, and its negation divided by it. */
  lemma OverSelf(x: real)
    requires x > 0.0
    ensures x / x == 1.0 && (-x) / x == -1.0
  {
  }

  lemma AbsOfProduct(x: real, y: real)
    ensures Abs(x * y) == Abs(x) * Abs(y)
    ensures x * y > 0.0 <==> (x > 0.0 && y > 0.0) || (x < 0.0 && y < 0.0)
    ensures x * y < 0.0 <==> (x > 0.0 && y < 0.0) || (x < 0.0 && y > 0.0)
  {
    if x >= 0.0 && y >= 0.0 {
    } else if x >= 0.0 {
      assert x * y == -(x * -y);
    } else if y >= 0.0 {
      assert x * y == -(-x * y);
    } else {
      assert x * y == (-x) * (-y);
    }
  }

  lemma ScaledBelow(d: real, rate: real)
    requires Abs(d) <= 1.0
    ensures Abs(d * rate) <= Abs(rate)
  {
    if d >= 0.0 && rate >= 0.0 {
      assert d * rate <= rate by { assert rate - d * rate == (1.0 - d) * rate; }
    } else if d >= 0.0 {
      assert d * (-rate) <= -rate by { assert (-rate) - d * (-rate) == (1.0 - d) * (-rate); }
      assert d * rate == -(d * (-rate));
    } else if rate >= 0.0 {
      assert (-d) * rate <= rate by { assert rate - (-d) * rate == (1.0 + d) * rate; }
      assert d * rate == -((-d) * rate);
    } else {
      assert (-d) * (-rate) <= -rate by { assert (-rate) - (-d) * (-rate) == (1.0 + d) * (-rate); }
      assert d * rate == (-d) * (-rate);
    }
  }

  /** 0 <= c <= 1 scales a non-negative x down. */
  lemma ScaleAtMostOne(c: real, x: real)
    requires 0.0 <= c <= 1.0 && x >= 0.0
    ensures 0.0 <= c * x <= x
  {
    assert x - c * x == (1.0 - c) * x;
  }

  /** One predicted day: the previous value moved by a seventh of the
      dampened weekly rate. */
  function PredictStep(prev: real, goal: real, rate: real): real {
    prev + Dampened(prev, goal, rate) / 7.0
  }

  /** For a weekly rate in (0, 7] a predicted step never moves away from the
      goal, never crosses it, and, while the distance is at least 0.1, closes
      it by at least rate/70. */
  lemma StepApproachesGoal(prev: real, goal: real, rate: real)
    requires 0.0 < rate <= 7.0
    ensures var next := PredictStep(prev, goal, rate);
      && Abs(goal - next) <= Abs(goal - prev)
      && (goal - next) * (goal - prev) >= 0.0
      && (Abs(goal - prev) >= 0.1 ==> Abs(goal - next) <= Abs(goal - prev) - rate / 70.0)
  {
    var diff := goal - prev;
    var q := rate / 7.0;
    var damp := Dampened(prev, goal, rate);
    DampenedFacts(prev, goal, rate);
    var after := goal - PredictStep(prev, goal, rate);
    assert after == diff - damp / 7.0;
    if diff > 1.0 {
      assert damp == rate;
      FarStep(diff, q);
    } else if diff < -1.0 {
      assert damp == -rate;
      FarStep(-diff, q);
      assert (-diff) * (-after) == diff * after;
    } else {
      assert damp == diff * rate;
      assert damp / 7.0 == diff * q;
      NearStep(diff, q);
    }
  }

  lemma FarStep(diff: real, q: real)
    requires diff > 1.0 && 0.0 < q <= 1.0
    ensures var after := diff - q;
      && 0.0 <= after <= diff && after * diff >= 0.0 && after <= diff - q / 10.0
  {
    var after := diff - q;
    assert after >= 0.0;
    MulNonneg(after, diff);
  }

  lemma NearStep(diff: real, q: real)
    requires Abs(diff) <= 1.0 && 0.0 < q <= 1.0
    ensures var after := diff - diff * q;
      && Abs(after) <= Abs(diff) && after * diff >= 0.0
      && (Abs(diff) >= 0.1 ==> Abs(after) <= Abs(diff) - q / 10.0)
  {
    var c := 1.0 - q;
    var after := diff - diff * q;
    assert after == diff * c;
    if diff >= 0.0 {
      ScaleAtMostOne(c, diff);
      MulNonneg(after, diff);
      if diff >= 0.1 {
        AtLeastTimes(diff, 0.1, q);
        assert 0.1 * q == q / 10.0;
      }
    } else {
      ScaleAtMostOne(c, -diff);
      assert -after == c * (-diff);
      MulNonneg(-after, -diff);
      assert (-after) * (-diff) == after * diff;
      if -diff >= 0.1 {
        AtLeastTimes(-diff, 0.1, q);
        assert -after == -diff - (-diff) * q;
        assert Abs(after) == -after && Abs(diff) == -diff;
        assert 0.1 * q == q / 10.0;
      }
    }
  }

  lemma MulNonneg(x: real, y: real)
    requires x >= 0.0 && y >= 0.0
    ensures x * y >= 0.0
  {
  }

  lemma AtLeastTimes(x: real, lo: real, q: real)
    requires x >= lo && q >= 0.0
    ensures x * q >= lo * q
  {
    assert x * q - lo * q == (x - lo) * q;
  }

  /** The distance predict_weights! still has to cover, counted in steps of
      rate/70: 0 once within 0.1 of the goal. */
  function Remaining(x: real, goal: real, rate: real): nat
    requires rate > 0.0
  {
    if Abs(x - goal) < 0.1 then 0
    else
      var f := (Abs(goal - x) / (rate / 70.0)).Floor;
      if f < 0 then 0 else f + 1
  }

  /** A predicted step lowers the remaining distance, or keeps it at 0: the
      measure under which predict_weights! terminates. */
  lemma StepMeasure(prev: real, goal: real, rate: real)
    requires 0.0 < rate <= 7.0
    ensures Remaining(prev, goal, rate) > 0 ==>
              Remaining(PredictStep(prev, goal, rate), goal, rate) < Remaining(prev, goal, rate)
    ensures Remaining(prev, goal, rate) == 0 ==> Remaining(PredictStep(prev, goal, rate), goal, rate) == 0
  {
    var next := PredictStep(prev, goal, rate);
    StepApproachesGoal(prev, goal, rate);
    assert Abs(prev - goal) == Abs(goal - prev) && Abs(next - goal) == Abs(goal - next);
    if Abs(prev - goal) >= 0.1 && Abs(next - goal) >= 0.1 {
      FloorStepDown(Abs(goal - prev), Abs(goal - next), rate / 70.0);
    }
  }

  lemma FloorStepDown(a: real, b: real, delta: real)
    requires delta > 0.0 && 0.0 <= b <= a - delta
    ensures (b / delta).Floor <= (a / delta).Floor - 1
  {
    var qa, qb := a / delta, b / delta;
    assert qa * delta == a && qb * delta == b;
    assert (qa - 1.0) * delta == a - delta;
    if qb > qa - 1.0 {
      MulStrict(qb, qa - 1.0, delta);
    }
    assert (qa - 1.0).Floor == qa.Floor - 1;
  }

  lemma MulStrict(x: real, y: real, c: real)
    requires x > y && c > 0.0
    ensures x * c > y * c
  {
    assert x * c - y * c == (x - y) * c;
  }

  /** Number of dates in lo..hi whose weight lies within 0.1 of the goal
      (the days on which predict_weights! decrements its tail counter). */
  function NearCount(w: map<int, real>, goal: real, lo: int, hi: int): (n: nat)
    requires forall d :: lo <= d <= hi ==> d in w
    decreases hi - lo
    ensures n <= if hi < lo then 0 else hi - lo + 1
  {
    if hi < lo then 0
    else NearCount(w, goal, lo, hi - 1) + (if Abs(w[hi] - goal) < 0.1 then 1 else 0)
  }

  /** A larger range never has a smaller near-goal count. */
  lemma {:induction false} NearCountMono(w: map<int, real>, goal: real, lo: int, mid: int, hi: int)
    requires mid <= hi && forall d :: lo <= d <= hi ==> d in w
    ensures NearCount(w, goal, lo, mid) <= NearCount(w, goal, lo, hi)
    decreases hi - mid
  {
    if mid < hi {
      NearCountMono(w, goal, lo, mid, hi - 1);
    }
  }

  /** A near-goal count grows by the next date's contribution, whatever
      the series holds outside the counted range. */
  lemma NearCountStep(w: map<int, real>, w': map<int, real>, goal: real, lo: int, hi: int)
    requires lo <= hi + 1 && hi + 1 in w'
    requires forall d :: lo <= d <= hi ==> d in w && d in w' && w[d] == w'[d]
    ensures NearCount(w', goal, lo, hi + 1) == NearCount(w, goal, lo, hi) + (if Abs(w'[hi + 1] - goal) < 0.1 then 1 else 0)
  {
    NearCountFrame(w, w', goal, lo, hi);
  }

  /** Two series that agree on lo..hi have the same near-goal count there. */
  lemma {:induction false} NearCountFrame(w1: map<int, real>, w2: map<int, real>, goal: real, lo: int, hi: int)
    requires forall d :: lo <= d <= hi ==> d in w1 && d in w2 && w1[d] == w2[d]
    ensures NearCount(w1, goal, lo, hi) == NearCount(w2, goal, lo, hi)
    decreases hi - lo
  {
    if hi >= lo {
      NearCountFrame(w1, w2, goal, lo, hi - 1);
    }
  }

  /** predict_weights! stops at d when started at d0: every date from d0 to
      d has a weight, d is within 0.1 of the goal and is the first date at
      which the near-goal count reaches tail. */
  ghost predicate StopsAt(w: map<int, real>, goal: real, d0: int, d: int, tail: int) {
    && d0 <= d && (forall k :: d0 <= k <= d ==> k in w)
    && NearCount(w, goal, d0, d) == tail
    && (forall e :: d0 <= e < d ==> NearCount(w, goal, d0, e) < tail)
    && Abs(w[d] - goal) < 0.1
  }

  /** The stopping date is determined by the series. */
  lemma StopsAtUnique(w: map<int, real>, goal: real, d0: int, d1: int, d2: int, tail: int)
    requires StopsAt(w, goal, d0, d1, tail) && StopsAt(w, goal, d0, d2, tail)
    ensures d1 == d2
  {
  }

  /** The three hashes predict_weights! writes: weights, interpolation
      flags and the key order of the weights. */
  datatype Forecast = Forecast(weights: map<int, real>, flags: map<int, bool>, order: seq<int>)

  /** The hashes once predict_weights! has reached date d, starting after
      d0: each new date gets the predicted step from the smoothed level of
      the day before, or from that day's weight where there is no smoothed
      level, is flagged interpolated and goes to the end of the key order. */
  function PredictFrom(w0: map<int, real>, f0: map<int, bool>, o0: seq<int>, ma: map<int, real>,
                       d0: int, d: int, goal: real, rate: real): Forecast
    decreases d - d0
  {
    if d <= d0 then Forecast(w0, f0, o0)
    else
      var s := PredictFrom(w0, f0, o0, ma, d0, d - 1, goal, rate);
      Forecast(s.weights[d := PredictStep(if d - 1 in ma then ma[d - 1] else WeightAt(s.weights, d - 1), goal, rate)],
               s.flags[d := true], s.order + [d])
  }

  /** One more date of the prediction, stated for the loop that computes it. */
  lemma PredictFromStep(w0: map<int, real>, f0: map<int, bool>, o0: seq<int>, ma: map<int, real>,
                        d0: int, d: int, goal: real, rate: real)
    requires d0 <= d && d in PredictFrom(w0, f0, o0, ma, d0, d, goal, rate).weights
    ensures var s := PredictFrom(w0, f0, o0, ma, d0, d, goal, rate);
      && PredictFrom(w0, f0, o0, ma, d0, d + 1, goal, rate) ==
         Forecast(s.weights[d + 1 := PredictStep(if d in ma then ma[d] else s.weights[d], goal, rate)],
                  s.flags[d + 1 := true], s.order + [d + 1])
      && d + 1 in PredictFrom(w0, f0, o0, ma, d0, d + 1, goal, rate).weights
  {
  }

  /** The prediction adds exactly the dates d0+1..d. */
  lemma {:induction false} PredictedDates(w0: map<int, real>, f0: map<int, bool>, o0: seq<int>, ma: map<int, real>,
                                          d0: int, d: int, goal: real, rate: real)
    ensures var w := PredictFrom(w0, f0, o0, ma, d0, d, goal, rate).weights;
      forall k :: k in w <==> k in w0 || d0 < k <= d
    decreases d - d0
  {
    if d > d0 {
      PredictedDates(w0, f0, o0, ma, d0, d - 1, goal, rate);
    }
  }

  /** The prediction keeps every weight dated d0 or earlier. */
  lemma {:induction false} PredictedKeeps(w0: map<int, real>, f0: map<int, bool>, o0: seq<int>, ma: map<int, real>,
                                          d0: int, d: int, goal: real, rate: real)
    requires forall k :: k in w0 ==> k <= d0
    ensures var w := PredictFrom(w0, f0, o0, ma, d0, d, goal, rate).weights;
      forall k :: k in w0 ==> k in w && w[k] == w0[k]
    decreases d - d0
  {
    if d > d0 {
      PredictedKeeps(w0, f0, o0, ma, d0, d - 1, goal, rate);
    }
  }

  /** A predicted date holds the step from the day before. */
  lemma {:induction false} PredictedStep(w0: map<int, real>, f0: map<int, bool>, o0: seq<int>, ma: map<int, real>,
                                         d0: int, d: int, goal: real, rate: real, e: int)
    requires d0 < e <= d
    ensures var w := PredictFrom(w0, f0, o0, ma, d0, d, goal, rate).weights;
      e in w && w[e] == PredictStep(if e - 1 in ma then ma[e - 1] else WeightAt(w, e - 1), goal, rate)
    decreases d - d0
  {
    if e < d {
      PredictedStep(w0, f0, o0, ma, d0, d - 1, goal, rate, e);
    }
  }

  /** The prediction adds exactly the dates d0+1..d, each with the step
      from the day before, and keeps every earlier weight. */
  lemma PredictedWeights(w0: map<int, real>, f0: map<int, bool>, o0: seq<int>, ma: map<int, real>,
                         d0: int, d: int, goal: real, rate: real)
    requires d0 in w0 && forall k :: k in w0 ==> k <= d0
    ensures var w := PredictFrom(w0, f0, o0, ma, d0, d, goal, rate).weights;
      && (forall k :: k in w <==> k in w0 || d0 < k <= d)
      && (forall k :: k in w0 ==> w[k] == w0[k])
      && (forall e :: d0 < e <= d ==> w[e] == PredictStep(if e - 1 in ma then ma[e - 1] else w[e - 1], goal, rate))
  {
    PredictedDates(w0, f0, o0, ma, d0, d, goal, rate);
    PredictedKeeps(w0, f0, o0, ma, d0, d, goal, rate);
    var w := PredictFrom(w0, f0, o0, ma, d0, d, goal, rate).weights;
    forall e | d0 < e <= d
      ensures w[e] == PredictStep(if e - 1 in ma then ma[e - 1] else w[e - 1], goal, rate)
    {
      PredictedStep(w0, f0, o0, ma, d0, d, goal, rate, e);
      assert e - 1 in w;
    }
  }

  /** The predicted dates are flagged interpolated; other flags stay. */
  lemma {:induction false} PredictedFlags(w0: map<int, real>, f0: map<int, bool>, o0: seq<int>, ma: map<int, real>,
                                          d0: int, d: int, goal: real, rate: real)
    requires d0 <= d
    ensures PredictFrom(w0, f0, o0, ma, d0, d, goal, rate).flags == MarkSpan(f0, d0, d + 1)
    decreases d - d0
  {
    if d > d0 {
      PredictedFlags(w0, f0, o0, ma, d0, d - 1, goal, rate);
    }
  }

  /** The predicted dates join the key order in date order. */
  lemma {:induction false} PredictedOrder(w0: map<int, real>, f0: map<int, bool>, o0: seq<int>, ma: map<int, real>,
                                          d0: int, d: int, goal: real, rate: real)
    requires d0 <= d
    ensures PredictFrom(w0, f0, o0, ma, d0, d, goal, rate).order == o0 + Range(d0 + 1, d + 1)
    decreases d - d0
  {
    if d == d0 {
      assert o0 + Range(d0 + 1, d0 + 1) == o0;
    } else {
      PredictedOrder(w0, f0, o0, ma, d0, d - 1, goal, rate);
      AppendRangeSnoc(o0, d0 + 1, d);
    }
  }

  // ---------------------------------------------------------------------
  // Gap interpolation (interpolate_gaps!)
  // ---------------------------------------------------------------------

  /** The value interpolate_gaps! gives date d between real dates a and b. */
  function Lerp(wa: real, wb: real, a: int, b: int, d: int): real
    requires a != b
  {
    wa + (wa - wb) / ((a - b) as real) * ((d - a) as real)
  }

  /** The interpolated value lies on the segment from (a, wa) to (b, wb). */
  lemma LerpOnSegment(wa: real, wb: real, a: int, b: int, d: int)
    requires a < d < b
    ensures Lerp(wa, wb, a, b, a) == wa && Lerp(wa, wb, a, b, b) == wb
    ensures var v := Lerp(wa, wb, a, b, d);
      (wa <= wb ==> wa <= v <= wb) && (wb <= wa ==> wb <= v <= wa)
  {
    var len := (b - a) as real;
    var t := (d - a) as real / len;
    assert 0.0 < t < 1.0;
    var slope := (wa - wb) / ((a - b) as real);
    assert slope == (wb - wa) / len;
    assert Lerp(wa, wb, a, b, b) == wa + slope * len;
    assert slope * len == wb - wa;
    assert Lerp(wa, wb, a, b, d) == wa + (wb - wa) * t;
    if wa <= wb {
      assert (wb - wa) * t <= (wb - wa);
    } else {
      assert (wa - wb) * t <= (wa - wb);
    }
  }

  /** Fill the dates strictly between a and b on the line through a and b. */
  function FillSpan(w: map<int, real>, a: int, b: int): map<int, real>
    requires a in w && b in w && a < b
  {
    FillSpanTo(w, a, b, b)
  }

  /** The weights once interpolate_gaps! has filled the dates a+1 .. d-1. */
  function FillSpanTo(w: map<int, real>, a: int, b: int, d: int): map<int, real>
    requires a in w && b in w && a < b && d <= b
    decreases d - a
  {
    if d <= a + 1 then w else FillSpanTo(w, a, b, d - 1)[d - 1 := Lerp(w[a], w[b], a, b, d - 1)]
  }

  /** Filling up to d adds exactly the dates a+1 .. d-1, each on the line
      through (a, w[a]) and (b, w[b]), and leaves every other date alone. */
  lemma {:induction false} FillSpanToFacts(w: map<int, real>, a: int, b: int, d: int)
    requires a in w && b in w && a < b && d <= b
    decreases d - a
    ensures forall x :: x in FillSpanTo(w, a, b, d) <==> x in w || a < x < d
    ensures forall x :: x in FillSpanTo(w, a, b, d) ==>
              FillSpanTo(w, a, b, d)[x] == if a < x < d then Lerp(w[a], w[b], a, b, x) else w[x]
  {
    if d > a + 1 {
      FillSpanToFacts(w, a, b, d - 1);
    }
  }

  /** The whole span: every date strictly between a and b is filled. */
  lemma FillSpanFacts(w: map<int, real>, a: int, b: int)
    requires a in w && b in w && a < b
    ensures forall x :: x in FillSpan(w, a, b) <==> x in w || a < x < b
    ensures forall x :: x in FillSpan(w, a, b) ==>
              FillSpan(w, a, b)[x] == if a < x < b then Lerp(w[a], w[b], a, b, x) else w[x]
  {
    FillSpanToFacts(w, a, b, b);
  }

  /** The dates interpolate_gaps! adds, in the order it adds them. */
  function GapSeq(keys: seq<int>): seq<int>
    decreases |keys|
  {
    if |keys| < 2 then [] else Range(keys[0] + 1, keys[1]) + GapSeq(keys[1..])
  }

  /** The flags interpolate_gaps! sets for the dates strictly between a and b. */
  function MarkSpan(f: map<int, bool>, a: int, b: int): map<int, bool>
    decreases b - a
  {
    if b <= a + 1 then f else MarkSpan(f, a, b - 1)[b - 1 := true]
  }

  /** The dates strictly between a and b are flagged; other flags stay. */
  lemma {:induction false} MarkSpanFacts(f: map<int, bool>, a: int, b: int)
    decreases b - a
    ensures forall x :: x in MarkSpan(f, a, b) <==> x in f || a < x < b
    ensures forall x :: x in MarkSpan(f, a, b) ==> MarkSpan(f, a, b)[x] == ((a < x < b) || f[x])
  {
    if b > a + 1 {
      MarkSpanFacts(f, a, b - 1);
    }
  }

  /** The interpolation flags after interpolate_gaps! walks the pairs of keys. */
  function MarkGaps(f: map<int, bool>, keys: seq<int>): map<int, bool>
    decreases |keys|
  {
    if |keys| < 2 then f else MarkGaps(MarkSpan(f, keys[0], keys[1]), keys[1..])
  }

  lemma MarkGapsStep(f: map<int, bool>, keys: seq<int>, i: nat)
    requires i + 1 < |keys|
    ensures MarkGaps(f, keys[i..]) == MarkGaps(MarkSpan(f, keys[i], keys[i + 1]), keys[i + 1..])
  {
    assert keys[i..][0] == keys[i] && keys[i..][1] == keys[i + 1];
    assert keys[i..][1..] == keys[i + 1..];
  }

  /** Every added date is flagged interpolated; every other flag stays. */
  lemma {:induction false} MarkGapsFlags(f: map<int, bool>, keys: seq<int>)
    ensures forall x :: x in MarkGaps(f, keys) <==> x in f || x in GapSeq(keys)
    ensures forall x :: x in GapSeq(keys) ==> MarkGaps(f, keys)[x]
    ensures forall x :: x in f && x !in GapSeq(keys) ==> MarkGaps(f, keys)[x] == f[x]
    decreases |keys|
  {
    if |keys| >= 2 {
      var f' := MarkSpan(f, keys[0], keys[1]);
      MarkSpanFacts(f, keys[0], keys[1]);
      var r := Range(keys[0] + 1, keys[1]);
      MarkGapsFlags(f', keys[1..]);
      assert GapSeq(keys) == r + GapSeq(keys[1..]);
      assert forall x :: x in f' <==> x in f || x in r;
      assert forall x :: x in r ==> f'[x];
    }
  }

  /** FillGaps of a suffix, one pair at a time. */
  lemma FillGapsStep(w: map<int, real>, keys: seq<int>, i: nat)
    requires StrictlyAscending(keys) && i + 1 < |keys| && KeysIn(keys[i..], w)
    ensures StrictlyAscending(keys[i..]) && StrictlyAscending(keys[i + 1..])
    ensures keys[i] in w && keys[i + 1] in w && keys[i] < keys[i + 1]
    ensures KeysIn(keys[i + 1..], FillSpan(w, keys[i], keys[i + 1]))
    ensures FillGaps(w, keys[i..]) == FillGaps(FillSpan(w, keys[i], keys[i + 1]), keys[i + 1..])
  {
    assert keys[i..][0] == keys[i] && keys[i..][1] == keys[i + 1];
    assert keys[i..][1..] == keys[i + 1..];
    FillSpanFacts(w, keys[i], keys[i + 1]);
  }

  /** GapSeq of a suffix, one pair at a time. */
  lemma GapSeqUnfold(keys: seq<int>, i: nat)
    requires i + 1 < |keys|
    ensures GapSeq(keys[i..]) == Range(keys[i] + 1, keys[i + 1]) + GapSeq(keys[i + 1..])
  {
    assert keys[i..][1..] == keys[i + 1..];
  }

  predicate KeysIn(keys: seq<int>, w: map<int, real>) {
    forall i :: 0 <= i < |keys| ==> keys[i] in w
  }

  /** Every date of w inside the span of keys is one of the keys. */
  predicate NoStrayKeys(w: map<int, real>, keys: seq<int>) {
    |keys| > 0 ==> forall k :: k in w && keys[0] < k < keys[|keys| - 1] ==> k in keys
  }

  /** The weights after interpolate_gaps! walks the consecutive pairs of keys. */
  function FillGaps(w: map<int, real>, keys: seq<int>): map<int, real>
    requires StrictlyAscending(keys) && KeysIn(keys, w)
    decreases |keys|
  {
    if |keys| < 2 then w
    else
      FillSpanFacts(w, keys[0], keys[1]);
      FillGaps(FillSpan(w, keys[0], keys[1]), keys[1..])
  }

  /** The added dates are ascending, strictly inside the span, and none is a key. */
  lemma {:induction false} GapSeqInside(keys: seq<int>)
    requires StrictlyAscending(keys)
    ensures StrictlyAscending(GapSeq(keys))
    ensures forall x :: x in GapSeq(keys) ==> keys[0] < x < keys[|keys| - 1] && x !in keys
    decreases |keys|
  {
    if |keys| >= 2 {
      var r := Range(keys[0] + 1, keys[1]);
      var rest := keys[1..];
      GapSeqInside(rest);
      var g := GapSeq(rest);
      assert GapSeq(keys) == r + g;
      forall x | x in r ensures keys[0] < x < keys[1] && x !in keys {
      }
      forall x | x in g ensures keys[1] < x < keys[|keys| - 1] && x !in keys {
        assert x !in rest;
        assert x != keys[0];
        assert forall y :: y in keys ==> y == keys[0] || y in rest;
      }
      forall i, j | 0 <= i < j < |r + g| ensures (r + g)[i] < (r + g)[j] {
        if j < |r| {
        } else if i < |r| {
          assert (r + g)[i] in r && (r + g)[j] in g;
        } else {
          assert (r + g)[i] == g[i - |r|] && (r + g)[j] == g[j - |r|];
        }
      }
    }
  }

  /** The filled map has exactly the old dates and the gap dates. */
  lemma {:induction false} FillGapsDomain(w: map<int, real>, keys: seq<int>)
    requires StrictlyAscending(keys) && KeysIn(keys, w)
    ensures forall x :: x in FillGaps(w, keys) <==> x in w || x in GapSeq(keys)
    decreases |keys|
  {
    if |keys| >= 2 {
      var w' := FillSpan(w, keys[0], keys[1]);
      FillSpanFacts(w, keys[0], keys[1]);
      FillGapsDomain(w', keys[1..]);
      var r := Range(keys[0] + 1, keys[1]);
      assert forall x :: x in w' <==> x in w || keys[0] < x < keys[1];
      assert forall x :: x in r <==> keys[0] < x < keys[1];
      assert GapSeq(keys) == r + GapSeq(keys[1..]);
    }
  }

  /** Dates that already had a value keep it. */
  lemma {:induction false} FillGapsKeeps(w: map<int, real>, keys: seq<int>)
    requires StrictlyAscending(keys) && KeysIn(keys, w) && NoStrayKeys(w, keys)
    ensures forall k :: k in w ==> k in FillGaps(w, keys) && FillGaps(w, keys)[k] == w[k]
    decreases |keys|
  {
    FillGapsDomain(w, keys);
    if |keys| >= 2 {
      var w' := FillSpan(w, keys[0], keys[1]);
      FillSpanFacts(w, keys[0], keys[1]);
      forall k | k in w ensures w'[k] == w[k] {
      }
      NoStrayAfterSpan(w, keys);
      FillGapsKeeps(w', keys[1..]);
    }
  }

  /** Filling the first span keeps the no-stray property for the remaining keys. */
  lemma NoStrayAfterSpan(w: map<int, real>, keys: seq<int>)
    requires StrictlyAscending(keys) && KeysIn(keys, w) && NoStrayKeys(w, keys) && |keys| >= 2
    ensures NoStrayKeys(FillSpan(w, keys[0], keys[1]), keys[1..])
  {
    var w' := FillSpan(w, keys[0], keys[1]);
    FillSpanFacts(w, keys[0], keys[1]);
    var rest := keys[1..];
    forall k | k in w' && rest[0] < k < rest[|rest| - 1] ensures k in rest {
      assert k in w;
      assert k in keys;
      assert forall y :: y in keys ==> y == keys[0] || y in rest;
    }
  }

  /** A date strictly between consecutive keys a < b gets the value on the
      line through (a, w[a]) and (b, w[b]). */
  lemma {:induction false} FillGapsValue(w: map<int, real>, keys: seq<int>, i: nat, d: int)
    requires StrictlyAscending(keys) && KeysIn(keys, w) && NoStrayKeys(w, keys)
    requires i + 1 < |keys| && keys[i] < d < keys[i + 1]
    ensures d in FillGaps(w, keys)
    ensures FillGaps(w, keys)[d] == Lerp(w[keys[i]], w[keys[i + 1]], keys[i], keys[i + 1], d)
    decreases i
  {
    var w' := FillSpan(w, keys[0], keys[1]);
    FillSpanFacts(w, keys[0], keys[1]);
    NoStrayAfterSpan(w, keys);
    if i == 0 {
      FillGapsKeeps(w', keys[1..]);
    } else {
      FillGapsValue(w', keys[1..], i - 1, d);
      assert keys[1..][i - 1] == keys[i] && keys[1..][i] == keys[i + 1];
      assert keys[i] >= keys[1] && keys[i + 1] > keys[1];
      assert w'[keys[i]] == w[keys[i]] && w'[keys[i + 1]] == w[keys[i + 1]];
    }
  }

  /** After filling, every date from the first key to the last has a value. */
  lemma {:induction false} FillGapsContiguous(w: map<int, real>, keys: seq<int>)
    requires StrictlyAscending(keys) && KeysIn(keys, w) && |keys| > 0
    ensures forall d :: keys[0] <= d <= keys[|keys| - 1] ==> d in FillGaps(w, keys)
    decreases |keys|
  {
    if |keys| >= 2 {
      var w' := FillSpan(w, keys[0], keys[1]);
      FillSpanFacts(w, keys[0], keys[1]);
      FillGapsContiguous(w', keys[1..]);
      FillGapsDomain(w', keys[1..]);
      forall d | keys[0] <= d <= keys[|keys| - 1] ensures d in FillGaps(w, keys) {
        if d < keys[1] {
          assert d in w';
        }
      }
    }
  }

  // ---------------------------------------------------------------------
  // Level/trend smoothing (precompute_moving_average!)
  // ---------------------------------------------------------------------

  datatype Smoothed = Smoothed(level: real, trend: real)

  /** The weight stored for date k; 0 where there is none (the smoother is
      only run over a range that has every date). */
  function WeightAt(w: map<int, real>, k: int): real {
    if k in w then w[k] else 0.0
  }

  /** Holt's recurrence as precompute_moving_average! runs it: seeded at
      `first` with the weight and a seventh of the dampened rate, then one
      level and one trend update per day. */
  function Holt(w: map<int, real>, first: int, d: int, alpha: real, beta: real, goal: real, rate: real): Smoothed
    requires first <= d
    decreases d - first
  {
    if d == first then Smoothed(WeightAt(w, first), Dampened(WeightAt(w, first), goal, rate) / 7.0)
    else HoltStep(Holt(w, first, d - 1, alpha, beta, goal, rate), WeightAt(w, d), alpha, beta)
  }

  /** One day of the recurrence: the new level blends today's weight with the
      previous level pushed along the trend; the new trend blends the level's
      change with the previous trend. */
  function HoltStep(prev: Smoothed, x: real, alpha: real, beta: real): Smoothed {
    var level := alpha * x + (1.0 - alpha) * (prev.level + prev.trend);
    Smoothed(level, beta * (level - prev.level) + (1.0 - beta) * prev.trend)
  }

  /** The smoothed value at d depends only on the weights from first to d:
      later dates (such as a predicted tail) cannot change it. */
  lemma {:induction false} HoltLocal(w1: map<int, real>, w2: map<int, real>, first: int, d: int,
                                      alpha: real, beta: real, goal: real, rate: real)
    requires first <= d
    requires forall k :: first <= k <= d ==> k in w1 && k in w2 && w1[k] == w2[k]
    ensures Holt(w1, first, d, alpha, beta, goal, rate) == Holt(w2, first, d, alpha, beta, goal, rate)
    decreases d - first
  {
    if d > first {
      HoltLocal(w1, w2, first, d - 1, alpha, beta, goal, rate);
    }
  }

  /** A day at the level with no trend changes neither. */
  lemma HoltStepAtRest(x: real, alpha: real, beta: real)
    ensures HoltStep(Smoothed(x, 0.0), x, alpha, beta) == Smoothed(x, 0.0)
  {
    var level := alpha * x + (1.0 - alpha) * (x + 0.0);
    assert (1.0 - alpha) * x == x - alpha * x;
    assert level == x;
    assert beta * (level - x) == 0.0;
    assert (1.0 - beta) * 0.0 == 0.0;
  }

  /** A series that sits at the goal is a fixed point: level = goal, trend = 0. */
  lemma {:induction false} HoltAtRest(w: map<int, real>, first: int, d: int,
                                      alpha: real, beta: real, goal: real, rate: real)
    requires first <= d
    requires forall k :: first <= k <= d ==> k in w && w[k] == goal
    ensures Holt(w, first, d, alpha, beta, goal, rate) == Smoothed(goal, 0.0)
    decreases d - first
  {
    if d > first {
      HoltAtRest(w, first, d - 1, alpha, beta, goal, rate);
      assert WeightAt(w, d) == goal;
      HoltStepAtRest(goal, alpha, beta);
    } else {
      DampenedFacts(goal, goal, rate);
    }
  }

  /** The moving averages precompute_moving_average! stores for first..last. */
  function SmoothedLevels(w: map<int, real>, first: int, last: int, alpha: real, beta: real,
                          goal: real, rate: real): map<int, real>
    decreases last - first
  {
    if last < first then map[]
    else SmoothedLevels(w, first, last - 1, alpha, beta, goal, rate)[last := Holt(w, first, last, alpha, beta, goal, rate).level]
  }

  /** The stored levels are exactly the dates first..last, each holding the
      level of the recurrence on that date. */
  lemma {:induction false} SmoothedLevelsFacts(w: map<int, real>, first: int, last: int, alpha: real, beta: real,
                                               goal: real, rate: real)
    decreases last - first
    ensures forall d :: d in SmoothedLevels(w, first, last, alpha, beta, goal, rate) <==> first <= d <= last
    ensures forall d :: first <= d <= last ==>
              SmoothedLevels(w, first, last, alpha, beta, goal, rate)[d] == Holt(w, first, d, alpha, beta, goal, rate).level
  {
    if last >= first {
      SmoothedLevelsFacts(w, first, last - 1, alpha, beta, goal, rate);
    }
  }

  // ---------------------------------------------------------------------
  // find_gap
  // ---------------------------------------------------------------------

  /** Index i of the last consecutive pair with keys[i+1] - keys[i] > days. */
  function LatestGapIndex(keys: seq<int>, days: int): (r: Option<nat>)
    ensures r.Some? ==> r.value + 1 < |keys| && keys[r.value + 1] - keys[r.value] > days
    ensures r.Some? ==> forall j :: r.value < j < |keys| - 1 ==> keys[j + 1] - keys[j] <= days
    ensures r.None? ==> forall j :: 0 <= j < |keys| - 1 ==> keys[j + 1] - keys[j] <= days
    decreases |keys|
  {
    if |keys| < 2 then None
    else if keys[|keys| - 1] - keys[|keys| - 2] > days then Some(|keys| - 2)
    else LatestGapIndex(keys[..|keys| - 1], days)
  }
}
