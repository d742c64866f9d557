/** The energy term of `nom_entry` in lib/nom/nom.rb ("300+2x150" means
    300 + 2·150), and the conversion between kcal and the configured base
    unit (`quantize`, `dequantize`). */
module EnergyTerms {
  import opened Common
  import opened Text
  import opened FoodEntries

  /** Array#join(sep). */
  function Join(ps: seq<string>, sep: string): string {
    if ps == [] then []
    else if |ps| == 1 then ps[0]
    else Join(ps[..|ps| - 1], sep) + sep + ps[|ps| - 1]
  }

  /** The pieces of s between occurrences of c, empty pieces included:
      one more piece than there are occurrences. */
  function Pieces(s: string, c: char): (r: seq<string>)
    ensures |r| >= 1
  {
    if s == [] then [[]]
    else
      var p := Pieces(s[..|s| - 1], c);
      var x := s[|s| - 1];
      if x == c then p + [[]] else p[..|p| - 1] + [p[|p| - 1] + [x]]
  }

  /** Ruby drops the empty pieces at the end when split has no limit. */
  function DropTrailingEmpty(ps: seq<string>): (r: seq<string>)
    ensures r <= ps
    ensures r == [] || r[|r| - 1] != []
    ensures forall i :: |r| <= i < |ps| ==> ps[i] == []
  {
    if ps == [] || ps[|ps| - 1] != [] then ps else DropTrailingEmpty(ps[..|ps| - 1])
  }

  /** String#split(c) for a one-character separator. */
  function Split(s: string, c: char): seq<string> {
    DropTrailingEmpty(Pieces(s, c))
  }

  /** `factors.map { |f| f.to_f }.inject(1) { |p, f| p * f }`. */
  function Product(fs: seq<string>): real {
    if fs == [] then 1.0 else Product(fs[..|fs| - 1]) * ToF(fs[|fs| - 1])
  }

  /** One summand: the product of its "x"-separated factors. */
  function SummandValue(summand: string): real {
    Product(Split(summand, 'x'))
  }

  /** `summands.inject(0) { |sum, summand| sum + ... }`. */
  function SumOf(summands: seq<string>): real {
    if summands == [] then 0.0
    else SumOf(summands[..|summands| - 1]) + SummandValue(summands[|summands| - 1])
  }

  /** The number an energy term denotes. */
  function Term(s: string): real {
    SumOf(Split(s, '+'))
  }

  /** `dequantize`: a number of base units in kcal, rounded. */
  function Dequantize(number: real, unit: real): int {
    Round(number * unit)
  }

  /** `quantize`: kcal in base units, rounded. Dividing by a zero unit
      gives an infinite Float, whose round raises. */
  function Quantize(kcal: int, unit: real): (r: Option<int>)
    ensures r.None? <==> unit == 0.0
  {
    if unit == 0.0 then None else Some(Round(kcal as real / unit))
  }

  /** `nom_entry` up to the file append: the last argument is the energy
      term, the others joined by spaces are the description; a term that
      rounds to zero kcal is refused. */
  function NomEntry(args: seq<string>, date: int, unit: real): (r: Result<FoodEntry>)
    ensures r.Err? <==> args == [] || Dequantize(Term(args[|args| - 1]), unit) == 0
    ensures r.Ok? ==> && r.value.date == date && r.value.kcal != 0
                      && r.value.kcal == Dequantize(Term(args[|args| - 1]), unit)
                      && Abs(r.value.kcal as real - Term(args[|args| - 1]) * unit) <= 0.5
                      && r.value.description == Join(args[..|args| - 1], " ")
  {
    if args == [] then Err("undefined method 'split' for nil")
    else
      var kcal := Dequantize(Term(args[|args| - 1]), unit);
      if kcal == 0 then Err("energy term cannot be zero")
      else Ok(FoodEntry(date, kcal, Join(args[..|args| - 1], " ")))
  }

  // ---------------------------------------------------------------------
  // Properties
  // ---------------------------------------------------------------------

  /** Joining the pieces with the separator gives the string back. */
  lemma {:induction false} PiecesJoin(s: string, c: char)
    ensures Join(Pieces(s, c), [c]) == s
  {
    if s != [] {
      var s' := s[..|s| - 1];
      var p := Pieces(s', c);
      var x := s[|s| - 1];
      PiecesJoin(s', c);
      assert s == s' + [x];
      if x == c {
        JoinEmptyLast(p, [c]);
      } else {
        JoinLast(p, [c], x);
      }
    }
  }

  /** No piece contains the separator. */
  lemma {:induction false} PiecesSeparatorFree(s: string, c: char)
    ensures forall i :: 0 <= i < |Pieces(s, c)| ==> c !in Pieces(s, c)[i]
  {
    if s != [] {
      var s' := s[..|s| - 1];
      var p := Pieces(s', c);
      var x := s[|s| - 1];
      PiecesSeparatorFree(s', c);
      if x != c {
        var q := p[..|p| - 1] + [p[|p| - 1] + [x]];
        assert c !in p[|p| - 1] + [x];
        forall i | 0 <= i < |q| ensures c !in q[i] {
          if i < |p| - 1 {
            assert q[i] == p[i];
          }
        }
      }
    }
  }

  /** An empty last piece adds a separator to the joined string. */
  lemma JoinEmptyLast(p: seq<string>, sep: string)
    requires |p| >= 1
    ensures Join(p + [[]], sep) == Join(p, sep) + sep
  {
    assert (p + [[]])[..|p|] == p;
  }

  /** Extending the last piece extends the joined string. */
  lemma JoinLast(p: seq<string>, sep: string, x: char)
    requires |p| >= 1
    ensures Join(p[..|p| - 1] + [p[|p| - 1] + [x]], sep) == Join(p, sep) + [x]
  {
    var q := p[..|p| - 1] + [p[|p| - 1] + [x]];
    assert q[..|q| - 1] == p[..|p| - 1];
    if |p| > 1 {
      assert Join(q, sep) == Join(p[..|p| - 1], sep) + sep + (p[|p| - 1] + [x]);
    }
  }

  /** A string without the separator is one piece. */
  lemma {:induction false} PiecesWithout(s: string, c: char)
    requires c !in s
    ensures Pieces(s, c) == [s]
  {
    if s != [] {
      PiecesWithout(s[..|s| - 1], c);
      assert s[..|s| - 1] + [s[|s| - 1]] == s;
    }
  }

  /** A non-empty string without the separator splits into itself. */
  lemma OnePiece(s: string, c: char)
    requires c !in s && s != []
    ensures Split(s, c) == [s]
  {
    PiecesWithout(s, c);
  }

  /** Digits contain neither operator of an energy term. */
  lemma NoOperatorIn(s: string)
    requires AllDigits(s)
    ensures '+' !in s && 'x' !in s
  {
    forall i | 0 <= i < |s| ensures s[i] != '+' && s[i] != 'x' {
      assert IsDigit(s[i]);
    }
  }

  /** A plain number is an energy term of its own value. */
  lemma TermOfNumber(n: nat)
    ensures Term(NatToString(n)) == n as real
  {
    var s := NatToString(n);
    NoOperatorIn(s);
    OnePiece(s, '+');
    OnePiece(s, 'x');
    NaturalRoundTrip(n);
    SingleFactor(s);
    SingleSummand(s);
  }

  lemma SingleFactor(f: string)
    ensures Product([f]) == ToF(f)
  {
    assert [f][..0] == [];
  }

  lemma SingleSummand(t: string)
    ensures SumOf([t]) == SummandValue(t)
  {
    assert [t][..0] == [];
  }

  /** Two summands and a plus: the term is their sum. An empty first
      summand has no factors and counts as 1. */
  lemma TermOfSum(a: string, b: string)
    requires '+' !in a && '+' !in b && b != []
    ensures Term(a + "+" + b) == SummandValue(a) + SummandValue(b)
  {
    var s := a + "+" + b;
    PiecesSplice(a, b, '+');
    PiecesWithout(a, '+');
    PiecesWithout(b, '+');
    assert Pieces(s, '+') == [a, b];
    assert Split(s, '+') == [a, b];
    assert [a, b][..1] == [a];
    SingleSummand(a);
  }

  /** How a separator splices the pieces of its two sides. */
  lemma {:induction false} PiecesSplice(a: string, b: string, c: char)
    ensures Pieces(a + [c] + b, c) == Pieces(a, c) + Pieces(b, c)
    decreases |b|
  {
    var s := a + [c] + b;
    if b == [] {
      assert s[..|s| - 1] == a;
    } else {
      var b' := b[..|b| - 1];
      var x := b[|b| - 1];
      assert s[..|s| - 1] == a + [c] + b' && s[|s| - 1] == x;
      assert b[..|b| - 1] == b' && b[|b| - 1] == x;
      PiecesSplice(a, b', c);
      var pa, pb := Pieces(a, c), Pieces(b', c);
      if x == c {
        assert pa + pb + [[]] == pa + (pb + [[]]);
      } else {
        ExtendLastPiece(pa, pb, x);
      }
    }
  }

  /** Growing the last piece of a concatenation grows the last piece of its right part. */
  lemma ExtendLastPiece(pa: seq<string>, pb: seq<string>, x: char)
    requires |pb| >= 1
    ensures var q := pa + pb;
      q[..|q| - 1] + [q[|q| - 1] + [x]] == pa + (pb[..|pb| - 1] + [pb[|pb| - 1] + [x]])
  {
    var q := pa + pb;
    assert q[..|q| - 1] == pa + pb[..|pb| - 1];
  }

  /** Rounding a value closer than a half to an integer gives that integer. */
  lemma RoundNear(y: real, n: int)
    requires -0.5 < y - n as real < 0.5
    ensures Round(y) == n
  {
  }

  /** Dividing by a unit of at least 1 shrinks a rounding error below a half. */
  lemma ShrinkError(x: real, n: real, u: real)
    requires u > 1.0 && -0.5 <= x - n * u <= 0.5
    ensures -0.5 < x / u - n < 0.5
  {
    var e := x / u - n;
    assert e * u == x - n * u;
    if e >= 0.5 {
      assert false;
    }
    if e <= -0.5 {
      assert false;
    }
  }

  /** With a base unit of at least 1 kcal, quantize undoes dequantize on
      whole numbers of units. */
  lemma QuantizeDequantize(n: int, u: real)
    requires u >= 1.0
    ensures Quantize(Dequantize(n as real, u), u) == Some(n)
  {
    var x := Dequantize(n as real, u);
    if u == 1.0 {
      assert n as real * u == n as real;
      RoundIntegral(n);
      assert x as real / u == n as real;
      RoundIntegral(n);
    } else {
      ShrinkError(x as real, n as real, u);
      RoundNear(x as real / u, n);
    }
  }
}
