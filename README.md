# nom, modelled in Dafny

nom helps its user lose weight by tracking energy intake. It keeps two
logs:

- a sparse log of body-weight measurements;
- a log of food entries, each a date, a number of kcal and a description.

From them it derives a full daily weight series in four steps. It fills
the gaps by linear interpolation. It smooths the series with Holt's double
exponential smoothing. It predicts the weight forward until the goal has
been reached, at a rate that slows down near the goal. Then it smooths
again.

From the smoothed series and the food log, nom estimates an adaptive base
rate: the kcal the user burns per day. The daily allowance is the base
rate plus the planned deficit. Around that core sit:

- the rule that picks the first day of the analysis;
- the streak counter of `stats`;
- the energy-term evaluator of `nom_entry` ("300+2x150");
- the daily remaining energy and the energy balance;
- the line format of the food log;
- the lookup rules of the configuration.

This project models that core of `lib/nom` and proves the properties it
promises. Dates are day numbers (`int`). Day 0 is 1600-01-01 in the
proleptic Gregorian calendar. Weights and kcal arithmetic use exact
`real`. Every Ruby hash the program fills (`@weights`, `@interpolated`,
`@moving_averages`, `@inputs_at`, `@base_rate_at`) is a `map` field that
the methods reassign. Where Ruby would raise (a `nil` in arithmetic, an
unknown key), the model returns `None` or `Err`. `Date.today` is a
parameter.

Modules, following the program's structure:

- `Common`: options and results, `Abs`, `Max`, `Min`, rounding half away
  from zero, ascending and distinct lists, and the minimum and maximum of a
  list.
- `Series`: the value-level definitions the weight passes are proved
  against. These are `dampened_rate`, the prediction step and its
  termination measure, the interpolation line and the filled series, and
  Holt's recurrence.
- `WeightLoops`: the loops of the weight passes, over the map values.
- `WeightDb`: class `WeightDatabase`, with the four hashes and the key
  order of `@weights`, and its methods.
- `Text`, `Calendar`, `FoodEntries`: decimal integers and numbers,
  `chomp`, ISO dates, and the line format of the food log.
- `Configuration`: the declared keys, `has`, and `get` as a value function
  and as a method of class `Config`.
- `Intake`: the food log grouped by day, and sums of kcal.
- `EnergyTerms`: `String#split` with one-character separators, the energy
  term, `quantize` and `dequantize`, and `nom_entry` up to the append.
- `Streaks`: the streak loop of `stats`.
- `NomApp`: class `Nom`, with the food log, its per-day index and the base
  rate. Its methods cover `precompute_inputs_at`, `nom_entry`,
  `precompute_base_rate_at`, `allowed_kcal`, `kcal_balance`, `log_since`,
  `truncate_date` and the start-up sequence of `initialize`. Alongside the
  class sit the value-level recurrence of the base rate, `days_to_go`, and
  the unit choice of `format_duration`.

Some facts about the code that the model keeps:

- The trend of the smoother is seeded with `dampened_rate(w[first])/7`.
- The remaining energy in `log_since` does not run on from day to day. The
  running sum is overwritten with each day's allowance.
- An energy term with an empty summand is still evaluated: the empty
  summand has no factors, so it counts as 1. "+5" means 1 + 5 = 6.
- The food-log round trip holds exactly for descriptions that
  `FoodEntries.Survives` accepts. Such a description does not start with
  whitespace and does not end in a carriage return. It may be empty and
  may contain newlines.

## Model

| member | source | states |
|---|---|---|
| Series.DampenedFacts | lib/nom/weight_database.rb:55-62 | `dampened_rate` is ±rate when the weight is more than 1 from the goal and (goal−w)·rate inside that band. It is 0 at the goal, at most rate in magnitude for rate ≥ 0, and for rate > 0 it points towards the goal. |
| Series.StepApproachesGoal | lib/nom/weight_database.rb:49-50 | For 0 < rate ≤ 7, a prediction step never moves away from the goal and never crosses it. At 0.1 or more from the goal it closes the distance by at least rate/70. |
| Series.StepMeasure | lib/nom/weight_database.rb:38-53 | A natural-number measure of the distance to the goal drops with every step until the weight is within 0.1, and stays 0 after. This is why predict_weights! terminates. |
| Series.StopsAtUnique | lib/nom/weight_database.rb:40-46 | The stopping date of the prediction loop (the first date on which the near-goal count reaches tail) is unique. |
| Series.PredictedWeights | lib/nom/weight_database.rb:48-51 | Prediction adds exactly the dates after the old last date. Each gets the step from the smoothed level of the day before, or from that day's weight where there is no level. Every earlier weight is kept. |
| Series.PredictedKeeps | lib/nom/weight_database.rb:48-51 | Prediction never changes a weight that was already there. |
| Series.PredictedFlags | lib/nom/weight_database.rb:51 | Every predicted date is flagged interpolated and no other flag changes. |
| Series.PredictedOrder | lib/nom/weight_database.rb:48-50 | Predicted dates join the key order at its end, in ascending order. |
| Series.LerpOnSegment | lib/nom/weight_database.rb:22 | The interpolation formula passes through both end points, and its values between them lie between the two weights. |
| Series.FillGapsValue | lib/nom/weight_database.rb:19-26 | Every date strictly between two consecutive keys gets the value on the line through them. |
| Series.FillGapsKeeps | lib/nom/weight_database.rb:19-26 | Interpolation keeps every existing weight unchanged. |
| Series.FillGapsDomain | lib/nom/weight_database.rb:19-26 | After interpolation, the dates are exactly the old ones plus the dates inside the gaps. |
| Series.FillGapsContiguous | lib/nom/weight_database.rb:19-26 | After interpolation, every date from the first key to the last has a weight. |
| Series.MarkGapsFlags | lib/nom/weight_database.rb:23 | Exactly the filled dates are flagged interpolated; every other flag keeps its value. |
| Series.GapSeqInside | lib/nom/weight_database.rb:20-21 | The filled dates are ascending, lie strictly inside the key range and are never keys. Adjacent keys add nothing. |
| Series.HoltLocal | lib/nom/weight_database.rb:31-35 | The smoothed value at d depends only on the weights from first to d. |
| Series.HoltAtRest | lib/nom/weight_database.rb:28-35 | A series that sits at the goal smooths to the goal with zero trend. |
| Series.SmoothedLevelsFacts | lib/nom/weight_database.rb:31-35 | The smoother stores a level for exactly the dates first..last, each the level of Holt's recurrence on that date. |
| Series.LatestGapIndex | lib/nom/weight_database.rb:112-119 | It returns the last position where consecutive keys are more than `days` apart, with no such pair after it, or None when there is none. |
| WeightLoops.Load | lib/nom/weight_database.rb:11-16 | Reading the log sets each date's weight (a repeated date takes its later weight) and flags every date real. |
| WeightLoops.LoadedLast | lib/nom/weight_database.rb:11-16 | The weight kept for a date is the one of its last observation. |
| WeightLoops.LoadedOrderAscending | lib/nom/weight_database.rb:11-16 | A log with ascending dates gives that order as the key order. |
| WeightLoops.FillAllGaps | lib/nom/weight_database.rb:19-26 | The loops of interpolate_gaps! compute the filled series, the flags and the extended key order. |
| WeightLoops.FillOneSpan | lib/nom/weight_database.rb:21-24 | The inner loop fills one gap and flags it. |
| WeightLoops.SmoothRange | lib/nom/weight_database.rb:31-35 | The loop of precompute_moving_average! overwrites the levels of first..last with Holt's recurrence. |
| WeightLoops.Predict | lib/nom/weight_database.rb:38-53 | The loop of predict_weights! computes the forecast and stops at the first date where the near-goal count reaches tail. |
| WeightDb.DropBefore | lib/nom/weight_database.rb:100-102 | truncate keeps exactly the weights dated `date` or later, with their values. |
| WeightDb.KeepFrom | lib/nom/weight_database.rb:100-102 | The key order after truncate holds exactly the kept keys. |
| WeightDb.KeepFromDistinct | lib/nom/weight_database.rb:100-102 | Truncation keeps the keys distinct. |
| WeightDb.WeightDatabase.constructor | lib/nom/weight_database.rb:5-17 | The hashes after reading the log: the weights as loaded, all flagged real, no moving averages. |
| WeightDb.WeightDatabase.First | lib/nom/weight_database.rb:88-90 | `first` is the least weight date. |
| WeightDb.WeightDatabase.Last | lib/nom/weight_database.rb:92-94 | `last` is the greatest weight date. |
| WeightDb.WeightDatabase.IsRealFacts | lib/nom/weight_database.rb:64-66 | `real?` holds exactly for a weight date whose interpolated flag is false. A real date has a stored weight, and none lies after `last_real`. |
| WeightDb.WeightDatabase.At | lib/nom/weight_database.rb:68-70 | `at` is the stored weight, None exactly when the date has none. |
| WeightDb.WeightDatabase.MovingAverageAt | lib/nom/weight_database.rb:72-74 | `moving_average_at` is the stored level, None exactly when the date has none. |
| WeightDb.WeightDatabase.RateAt | lib/nom/weight_database.rb:76-82 | After last_real it dampens the stored weight; up to last_real it dampens the smoothed level. It is None exactly where Ruby would meet nil. |
| WeightDb.WeightDatabase.FindGap | lib/nom/weight_database.rb:112-119 | find_gap returns a consecutive pair of the key order more than `days` apart such that no later consecutive pair is more than `days` apart, or None when no pair is. |
| WeightDb.WeightDatabase.FindGapIsLatest | lib/nom/weight_database.rb:112-119 | On ascending keys, the pair is consecutive in time, and no later consecutive pair of dates is more than `days` apart. |
| WeightDb.WeightDatabase.InterpolateGaps | lib/nom/weight_database.rb:19-26 | interpolate_gaps! fills every gap on the line between its ends, flags the filled dates, extends the key order and leaves the dates contiguous. |
| WeightDb.WeightDatabase.NoHoleAfterGaps | lib/nom/weight_database.rb:19-26 | After interpolation, every date from first to last has a weight. |
| WeightDb.WeightDatabase.PrecomputeMovingAverage | lib/nom/weight_database.rb:28-36 | The levels of first..last are overwritten with Holt's recurrence, and `ma[first]` is the first weight. |
| WeightDb.WeightDatabase.PredictWeights | lib/nom/weight_database.rb:38-53 | The prediction adds only dates after the old last date, flags them interpolated, stops as StopsAt says, and keeps last_real. |
| WeightDb.WeightDatabase.PredictionFacts | lib/nom/weight_database.rb:38-53 | After prediction, the dates are the old ones plus old last+1..the stop date, every new date is not real, and last_real is unchanged. |
| WeightDb.WeightDatabase.Truncate | lib/nom/weight_database.rb:100-102 | Exactly the weights before the date go, the flags stay, and real? becomes false before the date and is unchanged from it on. |
| WeightDb.LoadedCoherent | lib/nom/weight_database.rb:5-17 | The database as read from the log is coherent: the key order lists each weight date once and the flags cover the same dates. |
| WeightDb.TruncationKeepsCoherent | lib/nom/weight_database.rb:100-102 | Truncation keeps the four hashes coherent. |
| WeightDb.GapIn | lib/nom/weight_database.rb:112-119 | find_gap on a key list, with the same contract as FindGap. |
| WeightDb.GapInIsLatest | lib/nom/weight_database.rb:112-119 | On ascending keys, the pair found is the latest gap in time. |
| WeightDb.LatestReal | lib/nom/weight_database.rb:96-98 | `last_real` is the greatest date flagged real, or None when every flag is set. |
| WeightDb.RealFlagsKept | lib/nom/weight_database.rb:51 | Flagging dates after the last one as interpolated keeps last_real. |
| WeightDb.InterpolationKeepsCoherent | lib/nom/weight_database.rb:19-26 | Interpolation keeps the four hashes coherent. |
| WeightDb.ForecastCoherent | lib/nom/weight_database.rb:38-53 | Prediction keeps the four hashes coherent and moves `last` to the stopping date. |
| Text.NatToString | lib/nom/food_entry.rb:37 | The decimal rendering of a natural number is non-empty, all digits, and has no leading zero. |
| Text.IntRoundTrip | lib/nom/food_entry.rb:25 | `to_i`, and `to_f` too, reads the decimal rendering of any integer back, negative ones included. |
| Text.Chomp | lib/nom/food_entry.rb:26 | `chomp!` removes exactly one trailing "\r\n", "\n" or "\r", preferring "\r\n", and leaves a string without one unchanged. |
| Text.ChompNewline | lib/nom/food_entry.rb:26 | Chomping a description followed by "\n" gives it back exactly when it does not end in "\r". |
| Text.IntHasNoSpace | lib/nom/food_entry.rb:37 | The rendering of an integer contains no whitespace. |
| Calendar.CivilOfDayOfCivil | lib/nom/food_entry.rb:24 | Converting a civil date to a day number and back gives the date again. |
| Calendar.DayOfCivilOfDay | lib/nom/food_entry.rb:24 | Converting a day number to a civil date and back gives the day again. |
| Calendar.DateRoundTrip | lib/nom/food_entry.rb:24 | Parsing the rendering of any day number from 1600-01-01 on gives the day back. Years after 9999 are written and read with more than four digits. |
| Calendar.DateHasNoSpace | lib/nom/food_entry.rb:37 | A rendered date has no whitespace and starts with a digit. It is ten characters long up to the year 9999 and longer after. |
| FoodEntries.FromLine | lib/nom/food_entry.rb:22-28 | from_line either fails or yields an entry with a date in range. |
| FoodEntries.SplitRendered | lib/nom/food_entry.rb:23 | `split(" ", 3)` of a rendered line gives the date, the kcal and the rest of the line. |
| FoodEntries.ThirdField | lib/nom/food_entry.rb:26 | The chomped third field is the description exactly when the description survives the format. |
| FoodEntries.LineRoundTrip | lib/nom/food_entry.rb:22-38 | from_line(to_s(e)) == e exactly when the description survives the line format. |
| Configuration.Coerce | lib/nom/config.rb:65-75 | Float keys go through to_f, and Date keys take a date or a parsed string. It fails exactly for a date under a Float key and for a non-date under a Date key. |
| Configuration.KnownIffNoPrompt | lib/nom/config.rb:42-44 | `has` is true exactly when `get` would not prompt; then the answer typed does not matter. |
| Configuration.UserValueFirst | lib/nom/config.rb:48-49 | A user value wins over the default. |
| Configuration.DefaultSecond | lib/nom/config.rb:58-59 | Without a user value, a non-nil default is used, and nothing is asked or stored. |
| Configuration.OnlyDeclared | lib/nom/config.rb:61-65 | get completes only for the seven declared keys; for any other key it fails and leaves the table alone. |
| Configuration.PromptStores | lib/nom/config.rb:51-57 | An answered prompt stores the chomped answer and writes the file. Afterwards `has` is true and get repeats the result without asking. |
| Configuration.GetTwice | lib/nom/config.rb:46-76 | A second get returns what the first did, without asking or writing, unless the first met the end of input. |
| Configuration.NilDefaults | lib/nom/config.rb:33-37 | goal, start_date and balance_start are known only once set; the other four keys are always known. |
| Configuration.Config.constructor | lib/nom/config.rb:22-40 | The table is the file's contents, or empty when there is no file; the defaults are the declared ones. |
| Configuration.Config.Get | lib/nom/config.rb:46-76 | `get` returns what GetSpec says, stores and writes back an answered prompt, and keeps the table equal to the file. |
| Intake.EntriesOn | lib/nom/nom.rb:513-515 | The entries of a day are all dated that day, and are empty exactly when no entry has that date. |
| Intake.GroupedIsFilter | lib/nom/nom.rb:517-523 | The grouped log has a list for exactly the days with entries, holding that day's entries in log order. |
| Intake.GroupedSnoc | lib/nom/nom.rb:345-349 | Appending an entry extends its day's list and no other. |
| Intake.KcalSumAppend | lib/nom/nom.rb:364-366 | kcal totals add up over concatenation. |
| EnergyTerms.DropTrailingEmpty | lib/nom/nom.rb:323 | split drops exactly the empty pieces at the end. |
| EnergyTerms.PiecesJoin | lib/nom/nom.rb:323 | Joining the pieces of a split with the separator gives the string back. |
| EnergyTerms.PiecesSeparatorFree | lib/nom/nom.rb:325 | No piece of a split contains the separator. |
| EnergyTerms.PiecesSplice | lib/nom/nom.rb:323 | Splitting a + sep + b gives the pieces of a followed by those of b. |
| EnergyTerms.OnePiece | lib/nom/nom.rb:325 | A non-empty string without the separator splits into itself. |
| EnergyTerms.TermOfNumber | lib/nom/nom.rb:323-327 | A plain number is an energy term of its own value. |
| EnergyTerms.TermOfSum | lib/nom/nom.rb:323-327 | "a+b" evaluates to the sum of the products of a and b; an empty summand counts as 1. |
| EnergyTerms.Quantize | lib/nom/nom.rb:429-431 | quantize is None exactly for a zero unit. |
| EnergyTerms.NomEntry | lib/nom/nom.rb:322-336 | nom_entry fails exactly without arguments or when the term rounds to 0 kcal. Otherwise the entry has the date, kcal = dequantize(term, unit), and the other arguments joined by spaces. dequantize rounds term·unit with halves away from zero, so kcal is within ½ of it. |
| EnergyTerms.QuantizeDequantize | lib/nom/nom.rb:429-435 | With a unit of at least 1 kcal, quantize undoes dequantize on whole numbers of units. |
| Streaks.TrailingRunIs | lib/nom/nom.rb:214-233 | The current streak is a run of true days at the end, preceded by a false day or by nothing. |
| Streaks.CountStreaks | lib/nom/nom.rb:214-233 | The streak loop returns the trailing run and its start. It also returns the longest run that a false day ended, which no closed run exceeds; an earlier run of equal length is kept. Its start is nil exactly when that run is 0 days long. |
| NomApp.BaseRateFlat | lib/nom/nom.rb:541-543 | After the last weight date the base rate stays at its value on that date. |
| NomApp.BaseRateBounded | lib/nom/nom.rb:525-540 | Bounds that hold the seed and every estimate taken in hold the base rate on every date. |
| NomApp.ExtendBase | lib/nom/nom.rb:529-543 | One step of precompute_base_rate_at computes the recurrence for the next day: unchanged after a day without food, 0.05·(intake + loss·7000) + 0.95·previous otherwise, unchanged after the last weight date. |
| NomApp.Allowed | lib/nom/nom.rb:358-361 | The allowance is the base rate of the date, of the last weight date for later dates, plus r·1000; it is None when that base rate is missing. |
| NomApp.AllowedZeroRate | lib/nom/nom.rb:354-362 | With r = 0 the allowance is the base rate itself. |
| NomApp.AllowedFlat | lib/nom/nom.rb:358-361 | Once the base rate is flat up to today, clamping the date to the last weight date changes nothing. |
| NomApp.TruncateDate | lib/nom/nom.rb:407-427 | The start is today when there are no weights or the last real one is over 30 days old. Otherwise it is the later of start_date and first; without a start_date, the later date of the latest gap over 30 days, or first. |
| NomApp.KeepFromAscending | lib/nom/weight_database.rb:100-102 | Truncating an ascending key list at one of its keys keeps the suffix from that key. |
| NomApp.KeepFromSorted | lib/nom/weight_database.rb:100-102 | Truncation keeps an ascending key list ascending. |
| NomApp.NoGapAfterTruncation | lib/nom/nom.rb:414-424 | Cutting at the later date of the latest long gap leaves no gap of more than 30 days. |
| NomApp.DaysToGo | lib/nom/nom.rb:377-379 | days_to_go is None exactly for a zero rate (Ruby divides by zero there). |
| NomApp.DaysToGoReachesGoal | lib/nom/nom.rb:368-379 | Losing rate kg a week for days_to_go days loses exactly kg_to_go. |
| NomApp.FormatDuration | lib/nom/nom.rb:447-459 | The number shown is the number in the chosen unit rounded to one decimal, and the unit is plural exactly when that rounded number is not 1.0. |
| NomApp.RoundTenth | lib/nom/nom.rb:449-455 | Float#round(1): the result is within 0.05 of the input and has at most one decimal. |
| NomApp.SevenPointTwoDays | lib/nom/nom.rb:449-458 | 7.2 days is shown as 1.0 week, in the singular. |
| NomApp.DurationRanges | lib/nom/nom.rb:447-459 | Days are shown up to 7, weeks above 1 and up to 4, months of 4 weeks above 1; each measures the same duration. |
| NomApp.EntriesFrom | lib/nom/nom.rb:27 | delete_if keeps only entries dated on or after the cut. |
| NomApp.EntriesOnFrom | lib/nom/nom.rb:27 | After the cut, each later day keeps its entries and each earlier day has none. |
| NomApp.AppendedText | lib/nom/nom.rb:338-343 | The file gets the entry's line, with a blank line before it exactly when the entry starts a new day. |
| NomApp.AddOpt | lib/nom/nom.rb:397-405 | The sum is missing exactly when an operand is; otherwise it is their sum. |
| NomApp.Nom.constructor | lib/nom/nom.rb:23-25 | The object holds the weight database and the food log as read. |
| NomApp.Nom.PrecomputeInputsAt | lib/nom/nom.rb:517-523 | The per-day index is the log grouped by date. |
| NomApp.Nom.InputsAt | lib/nom/nom.rb:513-515 | inputs_at(d) is the entries dated d in log order, or empty. |
| NomApp.Nom.ConsumedAt | lib/nom/nom.rb:364-366 | consumed_at(d) is the sum of the kcal of the entries dated d, 0 when none. |
| NomApp.Nom.NomEntry | lib/nom/nom.rb:322-349 | A refused entry changes nothing and writes nothing. An accepted one is appended to the log and to the end of its day's list; every other day is unchanged. |
| NomApp.Nom.PrecomputeBaseRateAt | lib/nom/nom.rb:525-544 | base_rate_at covers first..max(last, today), each value given by the recurrence seeded at w[first]·25·1.2. |
| NomApp.Nom.AllowedKcal | lib/nom/nom.rb:354-362 | allowed_kcal is the base rate of min(date, last) plus r·1000, with r defaulting to rate_at at the unclamped date; it is None exactly where Ruby raises. |
| NomApp.Nom.AllowedAfterLast | lib/nom/nom.rb:541-543 | Between the last weight date and today, the allowance is the base rate of the date itself plus r·1000. |
| NomApp.Nom.BalanceStart | lib/nom/nom.rb:385-391 | balance_start is the configured date, else the earliest date in the weight log. |
| NomApp.Nom.DayBalance | lib/nom/nom.rb:399-403 | A day without food contributes 0. Otherwise the day's term is consumed_at(d) − allowed_kcal(d), missing exactly when the allowance is. |
| NomApp.Nom.KcalBalance | lib/nom/nom.rb:385-405 | kcal_balance sums the day balances from balance_start (the configured date, else the first weight) to today−1, and is 0 on an empty range. |
| NomApp.Nom.BalanceNoIntake | lib/nom/nom.rb:399-403 | Days without food entries add nothing to the balance. |
| NomApp.Nom.BalanceSplit | lib/nom/nom.rb:397-405 | The balance of consecutive periods adds up. |
| NomApp.Nom.LogSince | lib/nom/nom.rb:469-480 | Each day's remaining is that day's allowance minus what was eaten that day, with nothing carried over. The result is None exactly when some allowance is missing. |
| NomApp.Nom.StartOfAnalysis | lib/nom/nom.rb:407-427 | truncate_date on the database; while there are weights there is a last real one. |
| NomApp.Nom.NoLongGapAfterStart | lib/nom/nom.rb:414-424 | With recent weights and no start_date, the weight dates from the start on have no gap of more than 30 days. |
| NomApp.Nom.CutAt | lib/nom/nom.rb:26-29 | The food log keeps the entries from the cut on. The weights lose exactly the dates before the cut and keep their values. The key order stays ascending, and the flags and levels are unchanged. |
| NomApp.Nom.InterpolateAndSmooth | lib/nom/nom.rb:36-37 | The weights, flags and key order become FillGaps, MarkGaps and the order extended by GapSeq, so the dates are contiguous. The levels of first..last become Holt's recurrence over the filled series. |
| NomApp.Nom.Predict30 | lib/nom/nom.rb:38 | The series is PredictFrom from the old last date to the stop date, stopping as StopsAt says with tail 30. The first date is kept and the dates stay contiguous. |
| NomApp.Nom.PredictAndSmooth | lib/nom/nom.rb:38-39 | The series is PredictFrom over the levels of the first smoothing, stopping as StopsAt says with tail 30. The levels of first..last are then Holt's recurrence over the predicted series, and the dates stay contiguous. |
| NomApp.Nom.Initialize | lib/nom/nom.rb:26-42 | The cut is truncate_date of the initial state, and the log keeps the entries from it on. ok is false exactly when no weight is left. Otherwise: `filled` is FillGaps, MarkGaps and GapSeq of the truncated database; `levels` is Holt's recurrence over it; the final series is PredictFrom(filled, levels), stopping as StopsAt says; the final levels are Holt's recurrence over that series; the index is the grouped log; the base rate is ready. |
| NomApp.HasLastReal | lib/nom/weight_database.rb:96-98 | A database with weights has a last real weight. |
| NomApp.PredictionKeepsContiguous | lib/nom/weight_database.rb:48-51 | Predicting keeps the first weight date and contiguous dates. |

## Left out

- File and terminal I/O: reading the weight log, the food log and the YAML
  configuration file, printing, and the prompt for a first weight when no
  weight is left after the cut. That includes a log whose last real weight
  is more than 30 days old. What the passes compute is modelled.
  `Nom.Initialize` returns `ok == false` where Ruby would prompt.
- `Date.parse` accepts many formats. The model reads and writes
  year-mm-dd, with four or more year digits, from 1600-01-01 on. Ruby's
  Julian calendar before 1582 is not modelled.
- `String#to_f` here reads plain decimals, with an optional sign and
  fraction. Exponents, underscores and hexadecimal are not modelled.
- `Text.ToI`: Ruby's `String#to_i` also reads underscores between digits
  ("1_000" is 1000); the model stops at the first underscore.
- `NomApp.Nom.LogSince`: Ruby's `log_since` also evaluates `kcal_balance`
  after the loop and raises when it does. It also raises when a day's
  quantized allowance is 0, because the percentage then divides by zero.
  The model covers neither case.
- IEEE floating point is not modelled: all arithmetic is exact. This
  covers `Float#round(1)` in `format_duration`, an infinite `days_to_go`
  (it is `None` here), and a `quantize` by a zero unit (`None` here).
- `WeightDb.WeightDatabase.PredictWeights`: it requires 0 < rate ≤ 7 and
  tail ≥ 1; the loop is proved to terminate only under that condition.
  With other rates the Ruby loop may run forever.
- `WeightDb.WeightDatabase.InterpolateGaps`: it requires the weight dates
  in ascending order, as the log is written. Ruby walks the hash in
  insertion order whatever it is.
- The printed text of `status`, `log_since` and `stats` is not modelled.
  The percentages in `status` and `log_since`, and the balance cost, are
  not modelled either.
- The non-streak statistics of `stats` (minimum, maximum and average over
  a lambda) are not modelled. The days' predicates are inputs to
  `Streaks.CountStreaks`, not computed.
- `NomApp.KgToGo` has no contract of its own. It is the smoothed level
  today minus the goal. `DaysToGoReachesGoal` states what it is for.
- `search`, `plot`, `edit`, `editw`, `config`, `weight`, `read_file` and
  `which` are network access, external programs or file maintenance. The
  process plumbing of `lib/nom/helpers.rb` and the superseded top-level
  `nom.rb` script are not part of this model either.
- `min`/`max` of the weight database feed only the plot.
- `Configuration.Config.Get`: YAML's conversion of values is taken as given
  (`Value`). The image viewer's default, which depends on the platform, is
  a parameter.
