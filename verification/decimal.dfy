/** Base-10 text of 64-bit signed integers: Go's `%d` formatting of an
    `int64` and `strconv.ParseInt(s, 10, 64)`. */
module Decimal {
  import opened Wrappers

  const MinInt64: int := -0x8000_0000_0000_0000
  const MaxInt64: int := 0x7fff_ffff_ffff_ffff

  predicate IsInt64(x: int) {
    MinInt64 <= x <= MaxInt64
  }

  predicate IsDigit(c: char) {
    '0' <= c <= '9'
  }

  predicate AllDigits(s: string) {
    forall i :: 0 <= i < |s| ==> IsDigit(s[i])
  }

  function DigitValue(c: char): nat
    requires IsDigit(c)
  {
    c as int - '0' as int
  }

  function DigitChar(d: nat): (c: char)
    requires d < 10
    ensures IsDigit(c) && DigitValue(c) == d
  {
    ('0' as int + d) as char
  }

  /** Value of a digit string, most significant digit first; leading zeros add nothing. */
  function DigitsValue(s: string): nat
    requires AllDigits(s)
  {
    if |s| == 0 then 0 else DigitsValue(s[..|s| - 1]) * 10 + DigitValue(s[|s| - 1])
  }

  /** A digit string with no superfluous leading zero. */
  predicate CanonicalDigits(s: string) {
    |s| >= 1 && AllDigits(s) && (|s| == 1 || s[0] != '0')
  }

  /** The shortest digit string of `n`. */
  function NatDigits(n: nat): (s: string)
    ensures CanonicalDigits(s)
    ensures DigitsValue(s) == n
    decreases n
  {
    if n < 10 then [DigitChar(n)]
    else
      var s := NatDigits(n / 10) + [DigitChar(n % 10)];
      assert s[..|s| - 1] == NatDigits(n / 10);
      s
  }

  /** Go's `%d` of an integer: a minus sign for negatives, then the shortest
      digits. The text is canonical and, being digits and a sign, never holds
      a colon. */
  function FormatInt(x: int): (s: string)
    ensures CanonicalInt(s)
    ensures ':' !in s
  {
    if x < 0 then
      var d := NatDigits(-x);
      assert ("-" + d)[1..] == d;
      assert forall i :: 0 <= i < |d| ==> d[i] != ':';
      "-" + d
    else
      var d := NatDigits(x);
      assert forall i :: 0 <= i < |d| ==> d[i] != ':';
      d
  }

  /** `strconv.ParseInt(s, 10, 64)`: an optional `+` or `-`, then at least one
      decimal digit and nothing else (base 10 admits no underscores), with the
      value inside the int64 range. Syntax and range errors are both `None`. */
  function ParseInt(s: string): (r: Option<int>)
    ensures r.Some? ==> IsInt64(r.value)
    ensures r.Some? ==> |s| >= 1 && (s[0] == '+' || s[0] == '-' || IsDigit(s[0]))
    ensures forall i :: 1 <= i < |s| && !IsDigit(s[i]) ==> r.None?
    ensures s == "+" || s == "-" ==> r.None?
  {
    if |s| == 0 then None
    else
      var negative := s[0] == '-';
      var digits := if s[0] == '+' || s[0] == '-' then s[1..] else s;
      if |digits| == 0 || !AllDigits(digits) then None
      else
        var n: int := DigitsValue(digits);
        if negative then (if n > -MinInt64 then None else Some(-n))
        else (if n > MaxInt64 then None else Some(n))
  }

  /** Parsing the formatted text of an integer gives it back exactly when it fits in an int64. */
  lemma ParseFormat(x: int)
    ensures ParseInt(FormatInt(x)) == (if IsInt64(x) then Some(x) else None)
  {
    if x < 0 {
      assert ("-" + NatDigits(-x))[1..] == NatDigits(-x);
    }
  }

  lemma {:induction false} LeadingDigitBound(s: string)
    requires |s| >= 1 && AllDigits(s)
    ensures DigitsValue(s) >= DigitValue(s[0])
    decreases |s|
  {
    if |s| > 1 {
      LeadingDigitBound(s[..|s| - 1]);
    }
  }

  /** Every canonical digit string is the formatting of its own value. */
  lemma {:induction false} CanonicalDigitsUnique(s: string)
    requires CanonicalDigits(s)
    ensures NatDigits(DigitsValue(s)) == s
    decreases |s|
  {
    if |s| > 1 {
      var p := s[..|s| - 1];
      assert CanonicalDigits(p) by {
        assert p[0] == s[0];
      }
      CanonicalDigitsUnique(p);
      LeadingDigitBound(p);
      var n := DigitsValue(s);
      assert n / 10 == DigitsValue(p) && n % 10 == DigitValue(s[|s| - 1]);
      assert DigitChar(n % 10) == s[|s| - 1];
      assert s == p + [s[|s| - 1]];
    }
  }

  /** Distinct integers have distinct texts. */
  lemma FormatIntInjective(x: int, y: int)
    requires FormatInt(x) == FormatInt(y)
    ensures x == y
  {
    if x < 0 && y < 0 {
      assert FormatInt(x)[1..] == NatDigits(-x);
      assert FormatInt(y)[1..] == NatDigits(-y);
    }
  }

  /** Text in the shape `%d` produces: no plus sign, no superfluous leading zero, no "-0". */
  predicate CanonicalInt(s: string) {
    CanonicalDigits(s) || (|s| >= 2 && s[0] == '-' && CanonicalDigits(s[1..]) && s[1] != '0')
  }

  /** Canonical text that parses is the formatting of its value. */
  lemma ParseCanonical(s: string)
    requires ParseInt(s).Some? && CanonicalInt(s)
    ensures FormatInt(ParseInt(s).value) == s
  {
    if CanonicalDigits(s) {
      ParseUnsigned(s);
      CanonicalDigitsUnique(s);
    } else {
      var d := s[1..];
      assert s == "-" + d;
      ParseMinus(d);
      CanonicalDigitsUnique(d);
      LeadingDigitBound(d);
    }
  }

  /** A leading plus sign spells the same non-negative value differently. */
  lemma {:induction false} PlusSignAccepted(x: int)
    requires 0 <= x <= MaxInt64
    ensures ParseInt("+" + FormatInt(x)) == Some(x)
    ensures "+" + FormatInt(x) != FormatInt(x)
  {
    var s := "+" + FormatInt(x);
    assert s[1..] == NatDigits(x);
    assert |s| != |FormatInt(x)|;
  }

  lemma {:induction false} LeadingZeroValue(s: string)
    requires AllDigits(s)
    ensures AllDigits("0" + s) && DigitsValue("0" + s) == DigitsValue(s)
    decreases |s|
  {
    if |s| > 0 {
      var p := s[..|s| - 1];
      LeadingZeroValue(p);
      assert ("0" + s)[..|s|] == "0" + p;
    }
  }

  /** Superfluous leading zeros spell the same value differently. */
  lemma LeadingZeroAccepted(x: int)
    requires 0 <= x <= MaxInt64
    ensures ParseInt("0" + FormatInt(x)) == Some(x)
    ensures "0" + FormatInt(x) != FormatInt(x)
  {
    LeadingZeroValue(NatDigits(x));
    assert |"0" + FormatInt(x)| != |FormatInt(x)|;
  }

  /** `k` zero digits. */
  function Zeros(k: nat): (z: string)
    ensures |z| == k && AllDigits(z)
    ensures forall i :: 0 <= i < k ==> z[i] == '0'
  {
    if k == 0 then "" else "0" + Zeros(k - 1)
  }

  /** Zeros in front of digits leave their value unchanged. */
  lemma {:induction false} ZerosValue(k: nat, d: string)
    requires AllDigits(d)
    ensures AllDigits(Zeros(k) + d) && DigitsValue(Zeros(k) + d) == DigitsValue(d)
    decreases k
  {
    if k == 0 {
      assert Zeros(k) + d == d;
    } else {
      ZerosValue(k - 1, d);
      LeadingZeroValue(Zeros(k - 1) + d);
      assert Zeros(k) + d == "0" + (Zeros(k - 1) + d);
    }
  }

  /** Every non-empty digit string is some zeros followed by the shortest
      digits of its value. */
  lemma {:induction false} StripZeros(d: string) returns (k: nat)
    requires |d| >= 1 && AllDigits(d)
    ensures d == Zeros(k) + NatDigits(DigitsValue(d))
    decreases |d|
  {
    if |d| == 1 || d[0] != '0' {
      assert CanonicalDigits(d);
      CanonicalDigitsUnique(d);
      k := 0;
      assert Zeros(k) + NatDigits(DigitsValue(d)) == NatDigits(DigitsValue(d));
    } else {
      var rest := d[1..];
      var k' := StripZeros(rest);
      LeadingZeroValue(rest);
      var digits := NatDigits(DigitsValue(rest));
      assert d == "0" + rest;
      assert NatDigits(DigitsValue(d)) == digits;
      k := k' + 1;
      assert Zeros(k) + digits == "0" + (Zeros(k') + digits);
    }
  }

  /** The spellings of `v` that base-10 `ParseInt` accepts: any number of
      leading zeros before the shortest digits, after a `+` or nothing for
      a non-negative value, after a `-` for a non-positive one (so "-0" too). */
  predicate Spelling(s: string, v: int, k: nat) {
    || (v >= 0 && (s == Zeros(k) + NatDigits(v) || s == "+" + (Zeros(k) + NatDigits(v))))
    || (v <= 0 && s == "-" + (Zeros(k) + NatDigits(-v)))
  }

  /** How `ParseInt` reads a digit string on its own. */
  lemma ParseUnsigned(d: string)
    requires |d| >= 1 && AllDigits(d)
    ensures ParseInt(d) == (if DigitsValue(d) <= MaxInt64 then Some(DigitsValue(d)) else None)
  {
    assert IsDigit(d[0]);
  }

  /** How `ParseInt` reads a digit string after a plus sign. */
  lemma ParsePlus(d: string)
    requires |d| >= 1 && AllDigits(d)
    ensures ParseInt("+" + d) == ParseInt(d)
  {
    var s := "+" + d;
    assert s[0] == '+' && s[1..] == d;
    ParseUnsigned(d);
  }

  /** How `ParseInt` reads a digit string after a minus sign. */
  lemma ParseMinus(d: string)
    requires |d| >= 1 && AllDigits(d)
    ensures ParseInt("-" + d) == (if DigitsValue(d) <= -MinInt64 then Some(0 - DigitsValue(d)) else None)
  {
    var s := "-" + d;
    assert s[0] == '-' && s[1..] == d;
  }

  lemma ParseSpelling(s: string, v: int, k: nat)
    requires IsInt64(v) && Spelling(s, v, k)
    ensures ParseInt(s) == Some(v)
  {
    if v >= 0 && s == Zeros(k) + NatDigits(v) {
      ZerosValue(k, NatDigits(v));
      ParseUnsigned(s);
    } else if v >= 0 && s == "+" + (Zeros(k) + NatDigits(v)) {
      var d := Zeros(k) + NatDigits(v);
      ZerosValue(k, NatDigits(v));
      ParseUnsigned(d);
      ParsePlus(d);
    } else {
      var d := Zeros(k) + NatDigits(-v);
      ZerosValue(k, NatDigits(-v));
      ParseMinus(d);
    }
  }

  lemma NegativeSpelling(s: string, v: int) returns (k: nat)
    requires ParseInt(s) == Some(v) && s[0] == '-'
    ensures Spelling(s, v, k)
  {
    var d := s[1..];
    k := StripZeros(d);
    assert s == "-" + d;
  }

  lemma NonNegativeSpelling(s: string, v: int) returns (k: nat)
    requires ParseInt(s) == Some(v) && s[0] != '-'
    ensures Spelling(s, v, k)
  {
    if s[0] == '+' {
      var d := s[1..];
      k := StripZeros(d);
      assert s == "+" + d;
    } else {
      k := StripZeros(s);
    }
  }

  /** `ParseInt` accepts exactly the spellings of int64 values: an optional
      sign, then any number of zeros, then the shortest digits of the value.
      A lone sign, an empty string and anything else are refused. */
  lemma ParseIntSpellings(s: string, v: int)
    ensures ParseInt(s) == Some(v) <==> IsInt64(v) && exists k: nat :: Spelling(s, v, k)
  {
    if ParseInt(s) == Some(v) {
      var k: nat;
      if s[0] == '-' {
        k := NegativeSpelling(s, v);
      } else {
        k := NonNegativeSpelling(s, v);
      }
    }
    if IsInt64(v) && exists k: nat :: Spelling(s, v, k) {
      var k: nat :| Spelling(s, v, k);
      ParseSpelling(s, v, k);
    }
  }

  /** Second spellings Go accepts, and a lone sign it refuses. */
  lemma SpellingExamples()
    ensures ParseInt("+0123") == Some(123)
    ensures ParseInt("00123") == Some(123)
    ensures ParseInt("-007") == Some(-7)
    ensures ParseInt("-0") == Some(0)
    ensures ParseInt("+") == None && ParseInt("-") == None && ParseInt("") == None
  {
    assert NatDigits(123) == "123";
    assert NatDigits(7) == "7";
    assert NatDigits(0) == "0";
    assert Zeros(1) == "0" && Zeros(2) == "00";
    assert Spelling("+0123", 123, 1);
    ParseSpelling("+0123", 123, 1);
    assert Spelling("00123", 123, 2);
    ParseSpelling("00123", 123, 2);
    assert Spelling("-007", -7, 2);
    ParseSpelling("-007", -7, 2);
    assert Spelling("-0", 0, 0);
    ParseSpelling("-0", 0, 0);
  }
}
