/** The pieces of Ruby's String and Integer the food log relies on:
    decimal digits (Integer#to_s, String#to_i, String#to_f restricted to
    plain decimals), ASCII whitespace, and String#chomp!. */
module Text {

  predicate IsDigit(c: char) {
    '0' <= c <= '9'
  }

  predicate AllDigits(s: string) {
    forall i :: 0 <= i < |s| ==> IsDigit(s[i])
  }

  function DigitChar(n: int): char
    requires 0 <= n < 10
  {
    (n + '0' as int) as char
  }

  /** The decimal digits of n without leading zeros (Integer#to_s). */
  function NatToString(n: nat): (s: string)
    ensures |s| > 0 && AllDigits(s)
    ensures n >= 10 ==> s[0] != '0'
    decreases n
  {
    if n < 10 then [DigitChar(n)] else NatToString(n / 10) + [DigitChar(n % 10)]
  }

  /** Integer#to_s: a minus sign before the digits of a negative number. */
  function IntToString(i: int): string {
    if i < 0 then "-" + NatToString(-i) else NatToString(i)
  }

  /** The number a string of digits denotes. */
  function DigitsValue(s: string): nat
    requires AllDigits(s)
  {
    if s == [] then 0 else DigitsValue(s[..|s| - 1]) * 10 + (s[|s| - 1] as int - '0' as int)
  }

  lemma {:induction false} DigitsValueOf(n: nat)
    ensures DigitsValue(NatToString(n)) == n
    decreases n
  {
    if n >= 10 {
      var s := NatToString(n);
      assert s[..|s| - 1] == NatToString(n / 10);
      DigitsValueOf(n / 10);
    }
  }

  /** Years from 1000 on have at least four digits, and exactly four up
      to 9999. */
  lemma {:induction false} NatToStringLength(n: nat)
    requires n >= 1000
    ensures |NatToString(n)| >= 4
    ensures n <= 9999 ==> |NatToString(n)| == 4
  {
    var a := n / 10;
    var b := a / 10;
    assert a >= 100 && b >= 10 && b / 10 >= 1;
    assert |NatToString(n)| == |NatToString(a)| + 1;
    assert |NatToString(a)| == |NatToString(b)| + 1;
    assert |NatToString(b)| == |NatToString(b / 10)| + 1;
  }

  /** The longest prefix of s made of digits. */
  function LeadingDigits(s: string): (r: string)
    ensures AllDigits(r) && r <= s
    ensures |r| < |s| ==> !IsDigit(s[|r|])
  {
    if s == [] || !IsDigit(s[0]) then [] else [s[0]] + LeadingDigits(s[1..])
  }

  lemma {:induction false} LeadingDigitsAll(s: string)
    requires AllDigits(s)
    ensures LeadingDigits(s) == s
  {
    if s != [] {
      LeadingDigitsAll(s[1..]);
    }
  }

  /** Ruby's ASCII whitespace: space, tab, newline, vertical tab, form feed,
      carriage return. */
  predicate IsSpace(c: char) {
    c == ' ' || c == '\t' || c == '\n' || c == '\r' || c == 11 as char || c == 12 as char
  }

  function SkipSpace(s: string): (r: string)
    ensures |r| <= |s| && r == s[|s| - |r|..]
  {
    if s != [] && IsSpace(s[0]) then SkipSpace(s[1..]) else s
  }

  /** The sign in front of a number: whether it is a minus, and what follows it. */
  function SignOf(t: string): (r: (bool, string))
    ensures r.1 == if t != [] && (t[0] == '-' || t[0] == '+') then t[1..] else t
    ensures r.0 <==> t != [] && t[0] == '-'
  {
    if t != [] && t[0] == '-' then (true, t[1..])
    else if t != [] && t[0] == '+' then (false, t[1..])
    else (false, t)
  }

  /** String#to_i: leading whitespace, an optional sign, then as many
      decimal digits as follow; no digits read as 0. */
  function ToI(s: string): int {
    var (neg, b) := SignOf(SkipSpace(s));
    var v := DigitsValue(LeadingDigits(b)) as int;
    if neg then -v else v
  }

  function Pow10(n: nat): (p: nat)
    ensures p >= 1
  {
    if n == 0 then 1 else 10 * Pow10(n - 1)
  }

  /** An unsigned decimal: digits, then optionally a point and more digits. */
  function DecimalValue(b: string): real {
    var ip := LeadingDigits(b);
    var rest := b[|ip|..];
    var fp := if rest != [] && rest[0] == '.' then LeadingDigits(rest[1..]) else [];
    DigitsValue(ip) as real + DigitsValue(fp) as real / Pow10(|fp|) as real
  }

  /** String#to_f on plain decimals: leading whitespace, an optional sign,
      an integer part and an optional fraction; anything unreadable is 0.0. */
  function ToF(s: string): real {
    var (neg, b) := SignOf(SkipSpace(s));
    var v := DecimalValue(b);
    if neg then -v else v
  }

  /** to_i and to_f read back what Integer#to_s writes. */
  lemma IntRoundTrip(i: int)
    ensures ToI(IntToString(i)) == i
    ensures ToF(IntToString(i)) == i as real
  {
    if i < 0 {
      NegativeRoundTrip(-i);
    } else {
      NaturalRoundTrip(i);
    }
  }

  lemma NaturalRoundTrip(n: nat)
    ensures ToI(NatToString(n)) == n && ToF(NatToString(n)) == n as real
  {
    ReadDigits(NatToString(n));
    DigitsValueOf(n);
  }

  lemma NegativeRoundTrip(n: nat)
    requires n > 0
    ensures ToI("-" + NatToString(n)) == -(n as int) && ToF("-" + NatToString(n)) == -(n as real)
  {
    ReadNegative(NatToString(n));
    DigitsValueOf(n);
  }

  /** Digits alone read as their value. */
  lemma ReadUnsigned(ds: string)
    requires AllDigits(ds)
    ensures DigitsValue(LeadingDigits(ds)) == DigitsValue(ds)
    ensures DecimalValue(ds) == DigitsValue(ds) as real
  {
    LeadingDigitsAll(ds);
    assert ds[|ds|..] == [];
  }

  /** to_i and to_f of a string of digits is their value. */
  lemma ReadDigits(ds: string)
    requires |ds| > 0 && AllDigits(ds)
    ensures ToI(ds) == DigitsValue(ds)
    ensures ToF(ds) == DigitsValue(ds) as real
  {
    assert IsDigit(ds[0]) && !IsSpace(ds[0]);
    assert SkipSpace(ds) == ds;
    assert SignOf(ds) == (false, ds);
    ReadUnsigned(ds);
  }

  /** to_i and to_f of a minus sign and digits is the negated value. */
  lemma ReadNegative(ds: string)
    requires |ds| > 0 && AllDigits(ds)
    ensures ToI("-" + ds) == -(DigitsValue(ds) as int)
    ensures ToF("-" + ds) == -(DigitsValue(ds) as real)
  {
    var s := "-" + ds;
    assert s[0] == '-' && s[1..] == ds;
    assert SkipSpace(s) == s;
    assert SignOf(s) == (true, ds);
    ReadUnsigned(ds);
  }

  /** String#chomp!: one trailing "\r\n", "\n" or "\r" removed. */
  function Chomp(s: string): (r: string)
    ensures r <= s && |s| - 2 <= |r|
    ensures s == r + "\r\n" || s == r + "\n" || s == r + "\r" || s == r
    ensures s == r ==> s == [] || (s[|s| - 1] != '\n' && s[|s| - 1] != '\r')
    ensures |s| >= 2 && s[|s| - 2..] == "\r\n" ==> s == r + "\r\n"
  {
    if |s| >= 2 && s[|s| - 2..] == "\r\n" then s[..|s| - 2]
    else if |s| >= 1 && (s[|s| - 1] == '\n' || s[|s| - 1] == '\r') then s[..|s| - 1]
    else s
  }

  lemma ChompShortens(s: string)
    requires s != [] && s[|s| - 1] == '\n'
    ensures |Chomp(s)| < |s|
  {
  }

  lemma ChompNewline(desc: string)
    ensures Chomp(desc + "\n") == desc <==> (desc == [] || desc[|desc| - 1] != '\r')
  {
    var s := desc + "\n";
    if |desc| >= 1 && desc[|desc| - 1] == '\r' {
      assert s[|s| - 2..] == "\r\n";
      assert |Chomp(s)| == |desc| - 1;
    } else {
      assert |s| >= 2 ==> s[|s| - 2] == desc[|desc| - 1];
      assert !(|s| >= 2 && s[|s| - 2..] == "\r\n");
      assert s[..|s| - 1] == desc;
    }
  }

  /** Integer#to_s writes no whitespace. */
  lemma IntHasNoSpace(i: int)
    ensures |IntToString(i)| > 0
    ensures forall k :: 0 <= k < |IntToString(i)| ==> !IsSpace(IntToString(i)[k])
  {
    var t := IntToString(i);
    var ds := NatToString(if i < 0 then -i else i);
    forall k | 0 <= k < |t| ensures !IsSpace(t[k]) {
      if i >= 0 {
        assert IsDigit(ds[k]);
      } else if k > 0 {
        assert t[k] == ds[k - 1] && IsDigit(ds[k - 1]);
      }
    }
  }
}
