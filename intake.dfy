/** The food log grouped by day, as lib/nom/nom.rb's `precompute_inputs_at`,
    `inputs_at` and `consumed_at` see it. */
module Intake {
  import opened FoodEntries

  /** The entries dated d, in log order (`inputs_at` as a filter). */
  function EntriesOn(s: seq<FoodEntry>, d: int): (r: seq<FoodEntry>)
    ensures |r| <= |s|
    ensures forall i :: 0 <= i < |r| ==> r[i].date == d
    ensures r == [] <==> forall i :: 0 <= i < |s| ==> s[i].date != d
  {
    if s == [] then []
    else
      var e := s[|s| - 1];
      EntriesOn(s[..|s| - 1], d) + (if e.date == d then [e] else [])
  }

  /** The log grouped by date the way `precompute_inputs_at` fills
      `@inputs_at`: each entry appended to its day's list. */
  function Grouped(s: seq<FoodEntry>): map<int, seq<FoodEntry>> {
    if s == [] then map[]
    else
      var g := Grouped(s[..|s| - 1]);
      var e := s[|s| - 1];
      g[e.date := (if e.date in g then g[e.date] else []) + [e]]
  }

  /** The total energy of a list of entries (`inject(0) { |sum, i| sum + i.kcal }`). */
  function KcalSum(s: seq<FoodEntry>): int {
    if s == [] then 0 else KcalSum(s[..|s| - 1]) + s[|s| - 1].kcal
  }

  /** `@inputs_at[d] || []` on a grouped table. */
  function Lookup(g: map<int, seq<FoodEntry>>, d: int): seq<FoodEntry> {
    if d in g then g[d] else []
  }

  /** Grouping keeps, for each day, exactly that day's entries in log order,
      and has a list for exactly the days that have entries. */
  lemma {:induction false} GroupedIsFilter(s: seq<FoodEntry>, d: int)
    ensures d in Grouped(s) <==> EntriesOn(s, d) != []
    ensures Lookup(Grouped(s), d) == EntriesOn(s, d)
  {
    if s != [] {
      GroupedIsFilter(s[..|s| - 1], d);
    }
  }

  /** Appending an entry extends its day's list and no other. */
  lemma GroupedSnoc(s: seq<FoodEntry>, e: FoodEntry)
    ensures Grouped(s + [e]) == Grouped(s)[e.date := Lookup(Grouped(s), e.date) + [e]]
  {
    assert (s + [e])[..|s|] == s;
  }

  /** Energy totals add up over concatenation. */
  lemma {:induction false} KcalSumAppend(a: seq<FoodEntry>, b: seq<FoodEntry>)
    ensures KcalSum(a + b) == KcalSum(a) + KcalSum(b)
    decreases |b|
  {
    if b != [] {
      var b' := b[..|b| - 1];
      assert (a + b)[..|a + b| - 1] == a + b';
      assert (a + b)[|a + b| - 1] == b[|b| - 1];
      KcalSumAppend(a, b');
    } else {
      assert a + b == a;
    }
  }
}
