/** The application object of lib/nom/nom.rb over abstract inputs: the food
    log and its per-day index, the adaptive base rate, the daily allowance,
    the energy balance, the per-day remaining energy, the start-of-analysis
    rule, and the initialisation that runs the weight passes in order. */
module NomApp {
  import opened Common
  import opened Series
  import opened WeightDb
  import opened FoodEntries
  import opened Intake
  import opened EnergyTerms
  import opened Calendar

  /** The smoothing factor of the base-rate estimate. */
  const Alpha: real := 0.05
  /** kcal in a kilogram of body fat. */
  const KcalPerKg: real := 7000.0

  // ---------------------------------------------------------------------
  // The base rate as a recurrence over values
  // ---------------------------------------------------------------------

  /** kcal consumed on day d according to a per-day index. */
  function ConsumedIn(g: map<int, seq<FoodEntry>>, d: int): int {
    KcalSum(Lookup(g, d))
  }

  /** One day's estimate of the base rate: what was eaten the day before
      plus the energy of the fat lost overnight. */
  function Estimate(ma: map<int, real>, g: map<int, seq<FoodEntry>>, d: int): real
    requires d - 1 in ma && d in ma
  {
    ConsumedIn(g, d - 1) as real + (ma[d - 1] - ma[d]) * KcalPerKg
  }

  /** Every date from first to last has a smoothed level. */
  predicate LevelsCover(ma: map<int, real>, first: int, last: int) {
    forall k :: first <= k <= last ==> k in ma
  }

  /** The base rate on day d: the seed on the first day; the previous day's
      value after a day without food entries and after the last weight
      date; otherwise the previous value moved by Alpha towards the day's
      estimate. */
  function BaseRateAt(seed: real, ma: map<int, real>, g: map<int, seq<FoodEntry>>,
                      first: int, last: int, d: int): real
    requires first <= d && LevelsCover(ma, first, last)
    decreases d - first
  {
    if d == first then seed
    else
      var prev := BaseRateAt(seed, ma, g, first, last, d - 1);
      if d > last || ConsumedIn(g, d - 1) == 0 then prev
      else Alpha * Estimate(ma, g, d) + (1.0 - Alpha) * prev
  }

  /** After the last weight date the base rate stays where it was on it. */
  lemma {:induction false} BaseRateFlat(seed: real, ma: map<int, real>, g: map<int, seq<FoodEntry>>,
                                        first: int, last: int, d: int)
    requires first <= last <= d && LevelsCover(ma, first, last)
    ensures BaseRateAt(seed, ma, g, first, last, d) == BaseRateAt(seed, ma, g, first, last, last)
    decreases d - last
  {
    if d > last {
      BaseRateFlat(seed, ma, g, first, last, d - 1);
    }
  }

  /** The base rate stays within any bounds that hold the seed and every
      estimate it takes in. */
  lemma {:induction false} BaseRateBounded(seed: real, ma: map<int, real>, g: map<int, seq<FoodEntry>>,
                                           first: int, last: int, d: int, lo: real, hi: real)
    requires first <= d && LevelsCover(ma, first, last)
    requires lo <= seed <= hi
    requires forall k :: first < k <= last && ConsumedIn(g, k - 1) != 0 ==> lo <= Estimate(ma, g, k) <= hi
    ensures lo <= BaseRateAt(seed, ma, g, first, last, d) <= hi
    decreases d - first
  {
    if d > first {
      BaseRateBounded(seed, ma, g, first, last, d - 1, lo, hi);
      var prev := BaseRateAt(seed, ma, g, first, last, d - 1);
      if d <= last && ConsumedIn(g, d - 1) != 0 {
        ConvexStep(prev, Estimate(ma, g, d), lo, hi);
      }
    }
  }

  /** base holds the base rate of exactly the days first..d-1. */
  ghost predicate BaseUpTo(base: map<int, real>, seed: real, ma: map<int, real>, g: map<int, seq<FoodEntry>>,
                     first: int, last: int, d: int)
    requires LevelsCover(ma, first, last)
  {
    && (forall k :: k in base <==> first <= k < d)
    && (forall k :: first <= k < d ==> base[k] == BaseRateAt(seed, ma, g, first, last, k))
  }

  /** The loop step of precompute_base_rate_at computes the next day's value. */
  lemma ExtendBase(base: map<int, real>, seed: real, ma: map<int, real>, g: map<int, seq<FoodEntry>>,
                   first: int, last: int, d: int, next: real)
    requires LevelsCover(ma, first, last) && first < d && BaseUpTo(base, seed, ma, g, first, last, d)
    requires d <= last ==>
      next == if ConsumedIn(g, d - 1) == 0 then base[d - 1]
              else Alpha * (ConsumedIn(g, d - 1) as real + (ma[d - 1] - ma[d]) * KcalPerKg) + (1.0 - Alpha) * base[d - 1]
    requires d > last ==> next == base[d - 1]
    ensures BaseUpTo(base[d := next], seed, ma, g, first, last, d + 1)
  {
    assert next == BaseRateAt(seed, ma, g, first, last, d);
  }

  /** A step of exponential smoothing stays between its two inputs' bounds. */
  lemma ConvexStep(prev: real, est: real, lo: real, hi: real)
    requires lo <= prev <= hi && lo <= est <= hi
    ensures lo <= Alpha * est + (1.0 - Alpha) * prev <= hi
  {
  }

  // ---------------------------------------------------------------------
  // The allowance
  // ---------------------------------------------------------------------

  /** `allowed_kcal` given the rate r: the base rate of the date, or of the
      last weight date for later dates, plus r·1000. A missing base rate
      raises in Ruby and is None here. */
  function Allowed(base: map<int, real>, last: int, date: int, r: real): (a: Option<real>)
    ensures a.Some? <==> Min(date, last) in base
    ensures a.Some? ==> a.value - r * 1000.0 == base[Min(date, last)]
  {
    var d := if date > last then last else date;
    if d in base then Some(base[d] + r * 1000.0) else None
  }

  /** With a zero rate the allowance is the base rate itself. */
  lemma AllowedZeroRate(base: map<int, real>, last: int, date: int)
    ensures Allowed(base, last, date, 0.0) ==
      if Min(date, last) in base then Some(base[Min(date, last)]) else None
  {
  }

  /** Once the base rate is extended flat to today, clamping the date to
      the last weight date makes no difference up to today. */
  lemma AllowedFlat(base: map<int, real>, last: int, today: int, date: int, r: real)
    requires last <= date <= today && last in base
    requires forall d :: last <= d <= today ==> d in base && base[d] == base[last]
    ensures Allowed(base, last, date, r) == Some(base[date] + r * 1000.0)
  {
  }

  /** Addition where a missing operand makes the sum missing. */
  function AddOpt(a: Option<real>, b: Option<real>): (r: Option<real>)
    ensures r.Some? <==> a.Some? && b.Some?
    ensures r.Some? ==> r.value == a.value + b.value
  {
    if a.None? || b.None? then None else Some(a.value + b.value)
  }

  lemma AddOptAssoc(a: Option<real>, b: Option<real>, c: Option<real>)
    ensures AddOpt(AddOpt(a, b), c) == AddOpt(a, AddOpt(b, c))
  {
  }

  // ---------------------------------------------------------------------
  // Start of the analysis
  // ---------------------------------------------------------------------

  /** `truncate_date` over values: today when there are no weights or the
      last real weight is more than 30 days old; else the later of the
      configured start date and the first weight date; else the later date
      of the latest gap of more than 30 days; else the first weight date. */
  function TruncateDate(empty: bool, first: int, lastReal: int, startDate: Option<int>,
                        gap: Option<Gap>, today: int): (r: int)
    ensures empty || today - lastReal > 30 ==> r == today
    ensures !empty && today - lastReal <= 30 && startDate.Some? ==> r == Max(first, startDate.value)
    ensures !empty && today - lastReal <= 30 && startDate.None? ==>
      r == if gap.Some? then gap.value.later else first
  {
    if empty || today - lastReal > 30 then today
    else if startDate.Some? then Max(startDate.value, first)
    else if gap.None? then first
    else gap.value.later
  }

  /** Keeping the keys from some key on of an ascending list keeps its suffix. */
  lemma {:induction false} KeepFromAscending(s: seq<int>, i: nat)
    requires StrictlyAscending(s) && i < |s|
    ensures KeepFrom(s, s[i]) == s[i..]
  {
    if i > 0 {
      assert StrictlyAscending(s[1..]);
      assert s[1..][i - 1] == s[i];
      KeepFromAscending(s[1..], i - 1);
      assert s[0] < s[i];
      assert s[1..][i - 1..] == s[i..];
    } else {
      KeepAllAscending(s);
    }
  }

  /** Keeping the keys from the first key on of an ascending list keeps it all. */
  lemma {:induction false} KeepAllAscending(s: seq<int>)
    requires StrictlyAscending(s) && |s| > 0
    ensures KeepFrom(s, s[0]) == s
  {
    if |s| > 1 {
      assert StrictlyAscending(s[1..]);
      KeepAbove(s[1..], s[0]);
      assert [s[0]] + s[1..] == s;
    }
  }

  /** A list whose keys all lie above the cut is kept whole. */
  lemma {:induction false} KeepAbove(s: seq<int>, date: int)
    requires forall i :: 0 <= i < |s| ==> s[i] > date
    ensures KeepFrom(s, date) == s
  {
    if s != [] {
      KeepAbove(s[1..], date);
      assert [s[0]] + s[1..] == s;
    }
  }

  /** Keeping the keys from a date on keeps an ascending list ascending. */
  lemma {:induction false} KeepFromSorted(s: seq<int>, date: int)
    requires StrictlyAscending(s)
    ensures StrictlyAscending(KeepFrom(s, date))
  {
    if s != [] {
      assert StrictlyAscending(s[1..]);
      KeepFromSorted(s[1..], date);
      var rest := KeepFrom(s[1..], date);
      if s[0] >= date {
        var r := [s[0]] + rest;
        forall i, j | 0 <= i < j < |r| ensures r[i] < r[j] {
          if i == 0 {
            assert r[j] in rest;
            assert r[j] in s[1..];
          } else {
            assert r[i] == rest[i - 1] && r[j] == rest[j - 1];
          }
        }
      }
    }
  }

  /** Cutting an ascending weight list where truncate_date puts the cut
      when no start date is configured leaves no gap of more than 30 days. */
  lemma NoGapAfterTruncation(order: seq<int>, a: Gap)
    requires StrictlyAscending(order) && GapIn(order, 30) == Some(a)
    ensures NarrowFrom(KeepFrom(order, a.later), 0, 30)
  {
    var i := LatestGapIndex(order, 30).value;
    assert a.later == order[i + 1];
    KeepFromAscending(order, i + 1);
    SuffixNarrow(order, i + 1);
  }

  /** A suffix of a list narrow from position i on is narrow. */
  lemma SuffixNarrow(order: seq<int>, i: nat)
    requires i < |order| && NarrowFrom(order, i, 30)
    ensures NarrowFrom(order[i..], 0, 30)
  {
    var t := order[i..];
    forall j | 0 <= j < |t| - 1 ensures t[j + 1] - t[j] <= 30 {
      assert t[j] == order[i + j] && t[j + 1] == order[i + j + 1];
    }
  }

  // ---------------------------------------------------------------------
  // Progress
  // ---------------------------------------------------------------------

  /** `kg_to_go`: the smoothed level today above the goal. */
  function KgToGo(level: real, goal: real): real {
    level - goal
  }

  /** `days_to_go`: the energy of the remaining fat over the daily deficit
      that rate kg a week asks for. A zero rate gives a non-finite Float
      in Ruby and None here. */
  function DaysToGo(kgToGo: real, rate: real): (r: Option<real>)
    ensures r.None? <==> rate == 0.0
  {
    if rate == 0.0 then None else Some(Abs(kgToGo * KcalPerKg) / (rate * 1000.0))
  }

  /** At rate kg a week, days_to_go days lose exactly the remaining kilograms. */
  lemma DaysToGoReachesGoal(kgToGo: real, rate: real)
    requires rate > 0.0
    ensures DaysToGo(kgToGo, rate).Some?
    ensures DaysToGo(kgToGo, rate).value * rate / 7.0 == Abs(kgToGo)
  {
    var q := Abs(kgToGo * KcalPerKg) / (rate * 1000.0);
    assert Abs(kgToGo * KcalPerKg) == Abs(kgToGo) * KcalPerKg;
    assert q * (rate * 1000.0) == Abs(kgToGo) * KcalPerKg;
  }

  /** What format_duration prints: the unit it picks, the number in that
      unit, the number shown (rounded to one decimal, halves away from
      zero, as Float#round(1)), and whether the unit is plural. */
  datatype Duration = Duration(value: real, shown: real, unit: string, plural: bool)

  /** Float#round(1). */
  function RoundTenth(x: real): (r: real)
    ensures -0.05 <= r - x <= 0.05
    ensures (r * 10.0).Floor as real == r * 10.0
  {
    Round(x * 10.0) as real / 10.0
  }

  /** `format_duration`: days up to a week, weeks up to four weeks, months
      of four weeks beyond; the unit is plural unless the number shown is
      1.0. */
  function FormatDuration(days: real): (d: Duration)
    ensures d.shown == RoundTenth(d.value)
    ensures d.plural <==> d.shown != 1.0
    ensures d.plural ==> d.value < 0.95 || d.value >= 1.05
  {
    var (n, unit) :=
      if days <= 7.0 then (days, "day")
      else if days <= 28.0 then (days / 7.0, "week")
      else (days / 7.0 / 4.0, "month");
    var shown := RoundTenth(n);
    Duration(n, shown, unit, shown != 1.0)
  }

  /** 7.2 days is shown as "1.0 week": the plural is decided on the
      rounded number. */
  lemma SevenPointTwoDays()
    ensures FormatDuration(7.2).unit == "week" && FormatDuration(7.2).shown == 1.0
    ensures !FormatDuration(7.2).plural
  {
    assert 7.2 / 7.0 * 10.0 == 72.0 / 7.0;
    RoundNear(72.0 / 7.0, 10);
  }

  /** The number shown stays in its unit's range: at most 7 days, more
      than 1 and at most 4 weeks, more than 1 month; and it measures the
      same duration. */
  lemma DurationRanges(days: real)
    ensures var d := FormatDuration(days);
      && (d.unit == "day" ==> d.value == days && d.value <= 7.0)
      && (d.unit == "week" ==> d.value * 7.0 == days && 1.0 < d.value <= 4.0)
      && (d.unit == "month" ==> d.value * 28.0 == days && d.value > 1.0)
      && (d.unit == "day" || d.unit == "week" || d.unit == "month")
  {
  }

  // ---------------------------------------------------------------------
  // The food log
  // ---------------------------------------------------------------------

  /** `@inputs.delete_if { |i| i.date < date }`: the entries dated date or
      later, in log order. */
  function EntriesFrom(s: seq<FoodEntry>, date: int): (r: seq<FoodEntry>)
    ensures |r| <= |s|
    ensures forall i :: 0 <= i < |r| ==> r[i].date >= date
  {
    if s == [] then []
    else
      var e := s[|s| - 1];
      EntriesFrom(s[..|s| - 1], date) + (if e.date >= date then [e] else [])
  }

  /** Dropping the early entries keeps each later day's entries and empties
      each earlier day. */
  lemma {:induction false} EntriesOnFrom(s: seq<FoodEntry>, date: int, d: int)
    ensures EntriesOn(EntriesFrom(s, date), d) == if d >= date then EntriesOn(s, d) else []
  {
    if s != [] {
      var s', e := s[..|s| - 1], s[|s| - 1];
      EntriesOnFrom(s', date, d);
      var t := EntriesFrom(s', date);
      if e.date >= date {
        assert (t + [e])[..|t|] == t;
      } else {
        assert t + [] == t;
      }
    }
  }

  /** What nom_entry appends to the log file: a blank line first when the
      entry starts a new day, then the entry's line. */
  function AppendedText(log: seq<FoodEntry>, e: FoodEntry): (t: string)
    requires e.date >= 0
    ensures t == ToLine(e) || t == "\n" + ToLine(e)
    ensures t[0] == '\n' <==> log != [] && log[|log| - 1].date != e.date
  {
    DateHasNoSpace(e.date);
    assert ToLine(e)[0] == RenderDate(e.date)[0];
    if log != [] && e.date != log[|log| - 1].date then "\n" + ToLine(e) else ToLine(e)
  }

  // ---------------------------------------------------------------------
  // The application object
  // ---------------------------------------------------------------------

  class Nom {
    /** `@inputs`: the food log in file order. */
    var inputs: seq<FoodEntry>
    /** `@inputs_at`: the log grouped by date. */
    var inputsAt: map<int, seq<FoodEntry>>
    /** `@base_rate_at`: the estimated kcal burned per day. */
    var baseRateAt: map<int, real>
    /** `@weights`. */
    const weights: WeightDatabase

    /** The state after reading the files (the weight database and the
        food log are read by their own parsers). */
    constructor(db: WeightDatabase, log: seq<FoodEntry>)
      ensures weights == db && inputs == log
      ensures inputsAt == map[] && baseRateAt == map[]
    {
      weights := db;
      inputs := log;
      inputsAt := map[];
      baseRateAt := map[];
    }

    /** The per-day index is up to date with the log. */
    predicate InputsIndexed()
      reads this
    {
      inputsAt == Grouped(inputs)
    }

    /** `precompute_inputs_at`: one pass over the log, appending each entry
        to its day's list. */
    method PrecomputeInputsAt()
      modifies this
      ensures InputsIndexed()
      ensures inputs == old(inputs) && baseRateAt == old(baseRateAt)
    {
      var g: map<int, seq<FoodEntry>> := map[];
      var i := 0;
      while i < |inputs|
        invariant 0 <= i <= |inputs|
        invariant g == Grouped(inputs[..i])
      {
        var e := inputs[i];
        assert inputs[..i + 1][..i] == inputs[..i];
        g := g[e.date := Lookup(g, e.date) + [e]];
        i := i + 1;
      }
      assert inputs[..i] == inputs;
      inputsAt := g;
    }

    /** `inputs_at`: the entries of a day, empty when there are none. */
    function InputsAt(d: int): (r: seq<FoodEntry>)
      reads this
      ensures InputsIndexed() ==> r == EntriesOn(inputs, d)
    {
      GroupedIsFilter(inputs, d);
      Lookup(inputsAt, d)
    }

    /** `consumed_at`: the kcal of a day's entries. */
    function ConsumedAt(d: int): (r: int)
      reads this
      ensures r == ConsumedIn(inputsAt, d)
      ensures InputsIndexed() ==> r == KcalSum(EntriesOn(inputs, d))
    {
      KcalSum(InputsAt(d))
    }

    /** `nom_entry`: the entry the arguments describe is appended to the
        log and to its day's list; a refused entry changes nothing. The
        text appended to the log file is returned. */
    method NomEntry(args: seq<string>, date: int, unit: real) returns (r: Result<FoodEntry>, appended: string)
      requires date >= 0 && InputsIndexed()
      modifies this
      ensures r == EnergyTerms.NomEntry(args, date, unit)
      ensures r.Ok? ==> inputs == old(inputs) + [r.value] && appended == AppendedText(old(inputs), r.value)
      ensures r.Err? ==> inputs == old(inputs) && appended == []
      ensures InputsIndexed() && baseRateAt == old(baseRateAt)
      ensures r.Ok? ==> InputsAt(date) == old(InputsAt(date)) + [r.value]
      ensures forall d :: d != date ==> InputsAt(d) == old(InputsAt(d))
    {
      r := EnergyTerms.NomEntry(args, date, unit);
      appended := [];
      if r.Ok? {
        var e := r.value;
        appended := AppendedText(inputs, e);
        GroupedSnoc(inputs, e);
        inputs := inputs + [e];
        inputsAt := inputsAt[date := Lookup(inputsAt, date) + [e]];
      }
    }

    /** The seed of the base rate: 25 kcal per kilogram of the first weight, times 1.2. */
    function Seed(): real
      reads this, weights
      requires weights.Valid() && !weights.Empty()
    {
      weights.weights[weights.First()] * 25.0 * 1.2
    }

    /** The base rate is defined from the first weight date to the later
        of the last weight date and today, by the recurrence BaseRateAt. */
    ghost predicate BaseRateReady(today: int)
      reads this, weights
    {
      && weights.Valid() && !weights.Empty()
      && LevelsCover(weights.movingAverages, weights.First(), weights.Last())
      && (forall k :: k in baseRateAt <==> weights.First() <= k <= Max(weights.Last(), today))
      && (forall k :: k in baseRateAt ==>
            baseRateAt[k] == BaseRateAt(Seed(), weights.movingAverages, inputsAt, weights.First(), weights.Last(), k))
    }

    /** `precompute_base_rate_at`: the recurrence from the first to the last
        weight date, then the last value carried on to today. */
    method PrecomputeBaseRateAt(today: int)
      requires weights.Valid() && !weights.Empty()
      requires LevelsCover(weights.movingAverages, weights.First(), weights.Last())
      modifies this
      ensures inputs == old(inputs) && inputsAt == old(inputsAt)
      ensures BaseRateReady(today)
    {
      var first, last := weights.First(), weights.Last();
      var ma, g := weights.movingAverages, inputsAt;
      var seed := weights.weights[first] * 25.0 * 1.2;
      assert LevelsCover(ma, first, last);
      var base := map[first := seed];
      var d := first + 1;
      while d <= last
        invariant first + 1 <= d <= last + 1
        invariant inputs == old(inputs) && inputsAt == g
        invariant BaseUpTo(base, seed, ma, g, first, last, d)
      {
        var intake := KcalSum(Lookup(g, d - 1));
        var next := if intake == 0 then base[d - 1]
                    else Alpha * (intake as real + (ma[d - 1] - ma[d]) * KcalPerKg) + (1.0 - Alpha) * base[d - 1];
        ExtendBase(base, seed, ma, g, first, last, d, next);
        base := base[d := next];
        d := d + 1;
      }
      while d <= today
        invariant last + 1 <= d <= Max(last, today) + 1
        invariant inputs == old(inputs) && inputsAt == g
        invariant BaseUpTo(base, seed, ma, g, first, last, d)
      {
        ExtendBase(base, seed, ma, g, first, last, d, base[d - 1]);
        base := base[d := base[d - 1]];
        d := d + 1;
      }
      baseRateAt := base;
    }

    /** `allowed_kcal(date, r)`: the base rate of the date (of the last
        weight date for later dates) plus r·1000, where r defaults to the
        rate rate_at gives for the date. None where Ruby would raise. */
    function AllowedKcal(date: int, r: Option<real>, goal: real, rate: real): (a: Option<real>)
      reads this, weights
      requires weights.Valid()
      ensures a.Some? ==> !weights.Empty() && Min(date, weights.Last()) in baseRateAt
      ensures a.Some? && r.Some? ==> a.value == baseRateAt[Min(date, weights.Last())] + r.value * 1000.0
      ensures a.Some? && r.None? ==> (weights.RateAt(date, goal, rate).Some? &&
        a.value == baseRateAt[Min(date, weights.Last())] + weights.RateAt(date, goal, rate).value * 1000.0)
      ensures !weights.Empty() && Min(date, weights.Last()) in baseRateAt ==>
        (a.Some? <==> r.Some? || weights.RateAt(date, goal, rate).Some?)
    {
      if weights.Empty() then None
      else
        var rr := if r.Some? then r else weights.RateAt(date, goal, rate);
        if rr.None? then None else Allowed(baseRateAt, weights.Last(), date, rr.value)
    }

    /** After precompute_base_rate_at, a date between the last weight date
        and today gets the allowance of the last weight date. */
    lemma AllowedAfterLast(today: int, date: int, r: real, goal: real, rate: real)
      requires BaseRateReady(today) && weights.Last() <= date <= today
      ensures date in baseRateAt
      ensures AllowedKcal(date, Some(r), goal, rate) == Some(baseRateAt[date] + r * 1000.0)
    {
      var first, last := weights.First(), weights.Last();
      forall d | last <= d <= today ensures d in baseRateAt && baseRateAt[d] == baseRateAt[last] {
        BaseRateFlat(Seed(), weights.movingAverages, inputsAt, first, last, d);
      }
      AllowedFlat(baseRateAt, last, today, date, r);
    }

    /** `balance_start`: the configured date, else the first weight date. */
    function BalanceStart(configured: Option<int>): (d: int)
      reads this, weights
      requires weights.Valid() && !weights.Empty()
      ensures configured.Some? ==> d == configured.value
      ensures configured.None? ==> d in weights.weights && forall k :: k in weights.weights ==> d <= k
    {
      if configured.Some? then configured.value else weights.First()
    }

    /** One day's contribution to the balance: nothing on a day without
        food entries, else what was eaten minus what was allowed. None when
        the allowance is missing. */
    function DayBalance(d: int, goal: real, rate: real): (r: Option<real>)
      reads this, weights
      requires weights.Valid()
      ensures ConsumedAt(d) == 0 ==> r == Some(0.0)
      ensures ConsumedAt(d) != 0 ==> (r.Some? <==> AllowedKcal(d, None, goal, rate).Some?)
      ensures ConsumedAt(d) != 0 && r.Some? ==>
                r.value == ConsumedAt(d) as real - AllowedKcal(d, None, goal, rate).value
    {
      var c := ConsumedAt(d);
      if c == 0 then Some(0.0)
      else
        var a := AllowedKcal(d, None, goal, rate);
        if a.None? then None else Some(c as real - a.value)
    }

    /** The energy balance of the days lo..hi, summed from the first day on. */
    function Balance(lo: int, hi: int, goal: real, rate: real): Option<real>
      reads this, weights
      requires weights.Valid()
      decreases hi - lo
    {
      if hi < lo then Some(0.0) else AddOpt(Balance(lo, hi - 1, goal, rate), DayBalance(hi, goal, rate))
    }

    /** `kcal_balance`: the balance from the start day to the day before today. */
    method KcalBalance(configured: Option<int>, today: int, goal: real, rate: real) returns (sum: Option<real>)
      requires weights.Valid() && !weights.Empty()
      ensures sum == Balance(BalanceStart(configured), today - 1, goal, rate)
      ensures today - 1 < BalanceStart(configured) ==> sum == Some(0.0)
    {
      var start := BalanceStart(configured);
      sum := Some(0.0);
      var d := start;
      while d <= today - 1
        invariant d <= today - 1 ==> start <= d
        invariant d > today - 1 ==> d == Max(start, today)
        invariant sum == Balance(start, d - 1, goal, rate)
      {
        var c := ConsumedAt(d);
        if c != 0 {
          var a := AllowedKcal(d, None, goal, rate);
          sum := AddOpt(sum, if a.None? then None else Some(c as real - a.value));
        }
        assert sum == AddOpt(Balance(start, d - 1, goal, rate), DayBalance(d, goal, rate));
        d := d + 1;
      }
    }

    /** Days without food entries add nothing to the balance. */
    lemma {:induction false} BalanceNoIntake(lo: int, hi: int, goal: real, rate: real)
      requires weights.Valid()
      requires forall d :: lo <= d <= hi ==> ConsumedAt(d) == 0
      ensures Balance(lo, hi, goal, rate) == Some(0.0)
      decreases hi - lo
    {
      if hi >= lo {
        BalanceNoIntake(lo, hi - 1, goal, rate);
      }
    }

    /** The balance of consecutive periods adds up, a missing allowance in
        either part making the whole missing. */
    lemma {:induction false} BalanceSplit(lo: int, mid: int, hi: int, goal: real, rate: real)
      requires weights.Valid() && lo <= mid <= hi + 1
      ensures Balance(lo, hi, goal, rate) == AddOpt(Balance(lo, mid - 1, goal, rate), Balance(mid, hi, goal, rate))
      decreases hi - mid
    {
      if hi >= mid {
        BalanceSplit(lo, mid, hi - 1, goal, rate);
        AddOptAssoc(Balance(lo, mid - 1, goal, rate), Balance(mid, hi - 1, goal, rate), DayBalance(hi, goal, rate));
      }
    }

    /** `log_since(start)` without the printing: for each day from start to
        today, the allowance minus what was eaten that day. The running
        total is overwritten each day, so nothing carries over. None when an
        allowance is missing. */
    method LogSince(start: int, today: int, goal: real, rate: real) returns (days: Option<seq<real>>)
      requires weights.Valid()
      ensures days.Some? <==> forall d :: start <= d <= today ==> AllowedKcal(d, None, goal, rate).Some?
      ensures days.Some? ==> |days.value| == Max(today - start + 1, 0)
      ensures days.Some? ==> forall i :: 0 <= i < |days.value| ==>
        days.value[i] == AllowedKcal(start + i, None, goal, rate).value - ConsumedAt(start + i) as real
    {
      var out: seq<real> := [];
      var date := start;
      while date <= today
        invariant date <= today ==> start <= date
        invariant date > today ==> date == Max(start, today + 1)
        invariant |out| == date - start
        invariant forall d :: start <= d < date ==> AllowedKcal(d, None, goal, rate).Some?
        invariant forall i :: 0 <= i < |out| ==>
          out[i] == AllowedKcal(start + i, None, goal, rate).value - KcalSum(InputsAt(start + i)) as real
      {
        var allowed := AllowedKcal(date, None, goal, rate);
        if allowed.None? {
          return None;
        }
        var list := InputsAt(date);
        var remaining := allowed.value;
        var j := 0;
        while j < |list|
          invariant 0 <= j <= |list|
          invariant remaining == allowed.value - KcalSum(list[..j]) as real
        {
          assert list[..j + 1][..j] == list[..j];
          remaining := remaining - list[j].kcal as real;
          j := j + 1;
        }
        assert list[..j] == list;
        out := out + [remaining];
        date := date + 1;
      }
      days := Some(out);
    }

    /** `truncate_date` on the database: None stands for an unset start_date.
        While there are weights there is a last real one. */
    function StartOfAnalysis(startDate: Option<int>, today: int): (r: int)
      reads this, weights
      requires weights.Valid()
      ensures weights.Empty() ==> r == today
      ensures !weights.Empty() ==> (weights.LastReal().Some? &&
        r == TruncateDate(false, weights.First(), weights.LastReal().value, startDate, weights.FindGap(30), today))
    {
      if weights.Empty() then today
      else
        HasLastReal(weights);
        TruncateDate(false, weights.First(), weights.LastReal().value, startDate, weights.FindGap(30), today)
    }

    /** With recent weights and no start_date, the weight dates from the
        start of the analysis on have no gap of more than 30 days. */
    lemma NoLongGapAfterStart(today: int)
      requires weights.Valid() && StrictlyAscending(weights.order) && !weights.Empty()
      requires weights.LastReal().Some? && today - weights.LastReal().value <= 30
      ensures NarrowFrom(KeepFrom(weights.order, StartOfAnalysis(None, today)), 0, 30)
    {
      var order := weights.order;
      var gap := GapIn(order, 30);
      var cut := StartOfAnalysis(None, today);
      if gap.Some? {
        assert cut == gap.value.later;
        NoGapAfterTruncation(order, gap.value);
      } else {
        assert cut == weights.First();
        AscendingEnds(order);
        KeepAllAscending(order);
      }
    }

    /** The first weight passes of Nom.new: fill the gaps and smooth. */
    method InterpolateAndSmooth(goal: real, rate: real)
      requires weights.Valid() && StrictlyAscending(weights.order) && !weights.Empty()
      modifies weights
      ensures weights.Valid() && !weights.Empty() && weights.Contiguous()
      ensures weights.weights == FillGaps(old(weights.weights), old(weights.order))
      ensures weights.interpolated == MarkGaps(old(weights.interpolated), old(weights.order))
      ensures weights.order == old(weights.order) + GapSeq(old(weights.order))
      ensures weights.movingAverages == old(weights.movingAverages) +
                SmoothedLevels(weights.weights, weights.First(), weights.Last(), 0.1, 0.1, goal, rate)
    {
      weights.InterpolateGaps();
      weights.PrecomputeMovingAverage(0.1, 0.1, goal, rate);
    }

    /** The prediction pass of Nom.new: 30 days near the goal. */
    method Predict30(goal: real, rate: real)
      requires weights.Valid() && !weights.Empty() && weights.Contiguous()
      requires 0.0 < rate <= 7.0
      modifies weights`weights, weights`interpolated, weights`order
      ensures weights.Valid() && !weights.Empty() && weights.Contiguous()
      ensures weights.First() == old(weights.First())
      ensures Forecast(weights.weights, weights.interpolated, weights.order) ==
                PredictFrom(old(weights.weights), old(weights.interpolated), old(weights.order),
                            weights.movingAverages, old(weights.Last()), weights.Last(), goal, rate)
      ensures StopsAt(weights.weights, goal, old(weights.Last()), weights.Last(), 30)
    {
      ghost var w0, first0, last0 := weights.weights, weights.First(), weights.Last();
      weights.PredictWeights(rate, goal, 30);
      PredictionKeepsContiguous(weights, w0, first0, last0);
    }

    /** The last weight passes of Nom.new: predict 30 days and smooth again. */
    method PredictAndSmooth(goal: real, rate: real)
      requires weights.Valid() && !weights.Empty() && weights.Contiguous()
      requires 0.0 < rate <= 7.0
      modifies weights
      ensures weights.Valid() && !weights.Empty() && weights.Contiguous()
      ensures LevelsCover(weights.movingAverages, weights.First(), weights.Last())
      ensures Forecast(weights.weights, weights.interpolated, weights.order) ==
                PredictFrom(old(weights.weights), old(weights.interpolated), old(weights.order),
                            old(weights.movingAverages), old(weights.Last()), weights.Last(), goal, rate)
      ensures StopsAt(weights.weights, goal, old(weights.Last()), weights.Last(), 30)
      ensures weights.movingAverages == old(weights.movingAverages) +
                SmoothedLevels(weights.weights, weights.First(), weights.Last(), 0.1, 0.1, goal, rate)
    {
      Predict30(goal, rate);
      weights.PrecomputeMovingAverage(0.1, 0.1, goal, rate);
    }

    /** The cut of Nom.new: the food log and the weights lose what lies
        before the start of the analysis. */
    method CutAt(cut: int)
      requires weights.Valid() && StrictlyAscending(weights.order)
      modifies this, weights
      ensures inputs == EntriesFrom(old(inputs), cut)
      ensures weights.Valid() && StrictlyAscending(weights.order)
      ensures weights.order == KeepFrom(old(weights.order), cut)
      ensures weights.weights == DropBefore(old(weights.weights), cut)
      ensures weights.interpolated == old(weights.interpolated)
      ensures weights.movingAverages == old(weights.movingAverages)
    {
      inputs := EntriesFrom(inputs, cut);
      KeepFromSorted(weights.order, cut);
      weights.Truncate(cut);
    }

    /** The start-up sequence of Nom.new after the files are read: cut the
        log and the weights at the start of the analysis, fill the gaps,
        smooth, predict 30 days and smooth again, then index the log and
        compute the base rate. `ok` is false when no weight is left, where
        Ruby asks for the current weight. `filled` is the database after
        the gaps are filled and `levels` the first smoothing. */
    method Initialize(today: int, startDate: Option<int>, goal: real, rate: real)
      returns (ok: bool, cut: int, ghost filled: Forecast, ghost levels: map<int, real>)
      requires weights.Valid() && StrictlyAscending(weights.order)
      requires 0.0 < rate <= 7.0
      modifies this, weights
      ensures cut == old(StartOfAnalysis(startDate, today))
      ensures inputs == EntriesFrom(old(inputs), cut)
      ensures weights.Valid()
      ensures StrictlyAscending(KeepFrom(old(weights.order), cut))
      ensures KeysIn(KeepFrom(old(weights.order), cut), DropBefore(old(weights.weights), cut))
      ensures ok <==> KeepFrom(old(weights.order), cut) != []
      ensures !ok ==> weights.weights == DropBefore(old(weights.weights), cut)
      ensures ok ==>
                var o := KeepFrom(old(weights.order), cut);
                filled == Forecast(FillGaps(DropBefore(old(weights.weights), cut), o),
                                   MarkGaps(old(weights.interpolated), o), o + GapSeq(o))
      ensures ok ==> (|filled.order| > 0 &&
                      levels == old(weights.movingAverages) +
                        SmoothedLevels(filled.weights, SeqMin(filled.order), SeqMax(filled.order), 0.1, 0.1, goal, rate))
      ensures ok ==> (!weights.Empty() &&
                      Forecast(weights.weights, weights.interpolated, weights.order) ==
                        PredictFrom(filled.weights, filled.flags, filled.order, levels,
                                    SeqMax(filled.order), weights.Last(), goal, rate))
      ensures ok ==> StopsAt(weights.weights, goal, SeqMax(filled.order), weights.Last(), 30)
      ensures ok ==> (weights.movingAverages == levels +
                        SmoothedLevels(weights.weights, weights.First(), weights.Last(), 0.1, 0.1, goal, rate))
      ensures ok ==> weights.Contiguous() && InputsIndexed() && BaseRateReady(today)
    {
      cut := StartOfAnalysis(startDate, today);
      CutAt(cut);
      filled, levels := Forecast(map[], map[], []), map[];
      if weights.Empty() {
        return false, cut, filled, levels;
      }
      InterpolateAndSmooth(goal, rate);
      filled := Forecast(weights.weights, weights.interpolated, weights.order);
      levels := weights.movingAverages;
      PredictAndSmooth(goal, rate);
      PrecomputeInputsAt();
      PrecomputeBaseRateAt(today);
      ok := true;
    }
  }

  /** A weight database with weights has a latest real weight. */
  lemma HasLastReal(db: WeightDatabase)
    requires db.Valid() && !db.Empty()
    ensures db.LastReal().Some?
  {
    var k :| k in db.interpolated && !db.interpolated[k];
  }

  /** Predicted dates come after the last one, so the first weight date
      stays and the dates stay contiguous. */
  lemma PredictionKeepsContiguous(db: WeightDatabase, w0: map<int, real>, first0: int, last0: int)
    requires db.Valid() && !db.Empty()
    requires first0 in w0 && (forall k :: k in w0 ==> first0 <= k <= last0)
    requires forall d :: first0 <= d <= last0 ==> d in w0
    requires forall k :: k in db.weights <==> k in w0 || last0 < k <= db.Last()
    ensures db.First() == first0
    ensures db.Contiguous()
  {
  }
}
