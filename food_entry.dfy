/** The food-log line format of lib/nom/food_entry.rb: one entry per line,
    "<yyyy-mm-dd> <kcal> <description>". Dates are day numbers counted from
    1600-01-01 in the Gregorian calendar, the same day numbers the weight
    database uses. */
module FoodEntries {
  import opened Common
  import opened Text
  import opened Calendar

  /** A food-log entry: its day, its energy in kcal and its description.
      The constructor stores the three values as given. */
  datatype FoodEntry = FoodEntry(date: int, kcal: int, description: string)

  /** The index of the first whitespace character of s at or after i, or |s|. */
  function SpaceFrom(s: string, i: nat): (j: nat)
    requires i <= |s|
    ensures i <= j <= |s| && (j < |s| ==> IsSpace(s[j]))
    decreases |s| - i
  {
    if i == |s| || IsSpace(s[i]) then i else SpaceFrom(s, i + 1)
  }

  /** The index of the first non-whitespace character of s at or after i, or |s|. */
  function WordFrom(s: string, i: nat): (j: nat)
    requires i <= |s|
    ensures i <= j <= |s| && (j < |s| ==> !IsSpace(s[j]))
    decreases |s| - i
  {
    if i == |s| || !IsSpace(s[i]) then i else WordFrom(s, i + 1)
  }

  /** String#split(" ", limit) from position i, with k more fields to cut
      before the rest of the line becomes the last field: whitespace
      runs separate fields, leading whitespace is skipped, and the last
      field may be empty. */
  function SplitFrom(s: string, i: nat, k: nat): (r: seq<string>)
    requires i <= |s|
    ensures 1 <= |r| <= k + 1
    decreases |s| - i
  {
    var j := WordFrom(s, i);
    if j == |s| || k == 0 then [s[j..]]
    else
      var e := SpaceFrom(s, j);
      if e == |s| then [s[j..]] else [s[j..e]] + SplitFrom(s, e + 1, k - 1)
  }

  /** `line.split(" ", 3)`. */
  function SplitLine(line: string): (r: seq<string>)
    ensures |r| <= 3
  {
    if line == [] then [] else SplitFrom(line, 0, 2)
  }


  /** FoodEntry.from_line: the date must parse, a missing description
      raises (nil has no chomp!), the energy field is read with to_i. */
  function FromLine(line: string): (r: Result<FoodEntry>)
    ensures r.Ok? ==> r.value.date >= 0
  {
    var fields := SplitLine(line);
    if |fields| == 0 then Err("no date")
    else match ParseDate(fields[0])
      case None => Err("invalid date")
      case Some(date) =>
        if |fields| < 3 then Err("no description")
        else Ok(FoodEntry(date, ToI(fields[1]), Chomp(fields[2])))
  }

  /** FoodEntry#to_s. */
  function ToLine(e: FoodEntry): string
    requires e.date >= 0
  {
    RenderDate(e.date) + " " + IntToString(e.kcal) + " " + e.description + "\n"
  }

  /** A description survives the line format: it does not start with
      whitespace (split would drop it) and does not end in a carriage return
      (chomp! would take it with the newline). */
  predicate Survives(description: string) {
    (description == [] || !IsSpace(description[0])) &&
    (description == [] || description[|description| - 1] != '\r')
  }



  /** A word of s that starts at i ends at the next whitespace j. */
  lemma {:induction false} SpaceFromIs(s: string, i: nat, j: nat)
    requires i <= j < |s| && IsSpace(s[j])
    requires forall k :: i <= k < j ==> !IsSpace(s[k])
    ensures SpaceFrom(s, i) == j
    decreases j - i
  {
    if i < j {
      SpaceFromIs(s, i + 1, j);
    }
  }

  /** A word w inside s, at position i and followed by a space. */
  lemma WordAt(s: string, i: nat, w: string)
    requires i + |w| < |s| && |w| > 0 && s[i..i + |w|] == w && s[i + |w|] == ' '
    requires forall k :: 0 <= k < |w| ==> !IsSpace(w[k])
    ensures WordFrom(s, i) == i && SpaceFrom(s, i) == i + |w|
  {
    assert s[i] == w[0];
    forall k | i <= k < i + |w| ensures !IsSpace(s[k]) {
      assert s[k] == w[k - i];
    }
    SpaceFromIs(s, i, i + |w|);
  }

  /** How the three fields of a rendered line are cut. */
  lemma SplitRendered(line: string, ds: string, ks: string, desc: string, b: nat)
    requires line == ds + " " + ks + " " + desc + "\n" && b == |ds| + 1 + |ks|
    requires |ds| > 0 && |ks| > 0
    requires forall k :: 0 <= k < |ds| ==> !IsSpace(ds[k])
    requires forall k :: 0 <= k < |ks| ==> !IsSpace(ks[k])
    ensures b < |line|
    ensures SplitLine(line) == [ds, ks, line[WordFrom(line, b + 1)..]]
    ensures Chomp(line[WordFrom(line, b + 1)..]) == desc <==> Survives(desc)
  {
    var a := |ds|;
    LineSlices(ds, ks, desc);
    WordAt(line, 0, ds);
    WordAt(line, a + 1, ks);
    SplitThree(line, ds, ks, a, b);
    DescriptionAt(line, ds + " " + ks + " ", desc);
    ThirdField(line, b + 1, desc);
  }

  /** The text after a line's prefix. */
  lemma DescriptionAt(line: string, prefix: string, desc: string)
    requires line == prefix + desc + "\n"
    ensures line[|prefix|..] == desc + "\n"
  {
  }

  /** Where the two numbers of a rendered line sit. */
  lemma LineSlices(ds: string, ks: string, desc: string)
    ensures var line := ds + " " + ks + " " + desc + "\n";
      && |line| == |ds| + |ks| + |desc| + 3
      && line[0..|ds|] == ds && line[|ds|] == ' '
      && line[|ds| + 1..|ds| + 1 + |ks|] == ks && line[|ds| + 1 + |ks|] == ' '
  {
  }

  /** A line starting with two words, each followed by whitespace. */
  lemma SplitThree(line: string, ds: string, ks: string, a: nat, b: nat)
    requires a == |ds| && b == a + 1 + |ks| && b < |line|
    requires line[0..a] == ds && line[a + 1..b] == ks
    requires WordFrom(line, 0) == 0 && SpaceFrom(line, 0) == a
    requires WordFrom(line, a + 1) == a + 1 && SpaceFrom(line, a + 1) == b
    ensures SplitLine(line) == [ds, ks, line[WordFrom(line, b + 1)..]]
  {
    SplitStep(line, 0, 2, ds, a);
    SplitStep(line, a + 1, 1, ks, b);
    SplitLast(line, b + 1);
    var third := line[WordFrom(line, b + 1)..];
    assert [ds] + ([ks] + [third]) == [ds, ks, third];
  }

  /** With no field left to cut, the rest of the line after the whitespace is the last field. */
  lemma SplitLast(line: string, i: nat)
    requires i <= |line|
    ensures SplitFrom(line, i, 0) == [line[WordFrom(line, i)..]]
  {
  }

  /** A word followed by whitespace is cut off as the next field. */
  lemma SplitStep(s: string, i: nat, k: nat, w: string, e: nat)
    requires e == i + |w| && e < |s| && k > 0 && s[i..e] == w
    requires WordFrom(s, i) == i && SpaceFrom(s, i) == e
    ensures SplitFrom(s, i, k) == [w] + SplitFrom(s, e + 1, k - 1)
  {
  }

  /** Reading a written line gives the entry back exactly when its
      description survives the format. */
  lemma LineRoundTrip(e: FoodEntry)
    requires e.date >= 0
    ensures FromLine(ToLine(e)) == Ok(e) <==> Survives(e.description)
  {
    var ds, ks, desc := RenderDate(e.date), IntToString(e.kcal), e.description;
    var line := ToLine(e);
    var b := |ds| + 1 + |ks|;
    IntHasNoSpace(e.kcal);
    DateHasNoSpace(e.date);
    SplitRendered(line, ds, ks, desc, b);
    DateRoundTrip(e.date);
    IntRoundTrip(e.kcal);
    var third := line[WordFrom(line, b + 1)..];
    ReadFields(line, ds, ks, third, e.date);
  }

  /** A line cut into a parsable date and two more fields is read as an entry. */
  lemma ReadFields(line: string, ds: string, ks: string, third: string, date: int)
    requires SplitLine(line) == [ds, ks, third] && ParseDate(ds) == Some(date)
    ensures FromLine(line) == Ok(FoodEntry(date, ToI(ks), Chomp(third)))
  {
  }

  /** The description field: whatever follows the energy field and its
      separating whitespace, chomped. */
  lemma ThirdField(line: string, start: nat, desc: string)
    requires start <= |line| && line[start..] == desc + "\n"
    ensures Chomp(line[WordFrom(line, start)..]) == desc <==> Survives(desc)
  {
    var w := WordFrom(line, start);
    var third := line[w..];
    assert line[start] == (desc + "\n")[0];
    if desc == [] {
      assert w == |line|;
    } else if !IsSpace(desc[0]) {
      assert third == desc + "\n";
      ChompNewline(desc);
    } else {
      assert |third| < |desc| + 1;
      if third != [] {
        assert third[|third| - 1] == line[|line| - 1] == '\n';
        ChompShortens(third);
      }
    }
  }


}
