/** Decimal text for Go's `int`: the `%d` verb of `fmt` and `strconv.Atoi`, on a 64-bit platform. */
module Decimal {

  const MinInt64: int := -0x8000_0000_0000_0000
  const MaxInt64: int := 0x7FFF_FFFF_FFFF_FFFF
  const MaxUint64: int := 0xFFFF_FFFF_FFFF_FFFF

  predicate IsDigit(c: char) {
    '0' <= c <= '9'
  }

  predicate AllDigits(s: string) {
    forall i :: 0 <= i < |s| ==> IsDigit(s[i])
  }

  function DigitChar(d: nat): (c: char)
    requires d < 10
    ensures IsDigit(c)
  {
    (d + '0' as int) as char
  }

  function DigitValue(c: char): (d: nat)
    requires IsDigit(c)
    ensures d < 10 && DigitChar(d) == c
  {
    c as int - '0' as int
  }

  /** Decimal digits of `n`, most significant first, with no leading zero. */
  function NatToString(n: nat): (s: string)
    ensures |s| >= 1 && AllDigits(s)
    ensures |s| > 1 ==> s[0] != '0'
    decreases n
  {
    if n < 10 then [DigitChar(n)] else NatToString(n / 10) + [DigitChar(n % 10)]
  }

  /** `fmt.Sprintf("%d", i)`: an optional minus sign followed by the digits of `|i|`. */
  function IntToString(i: int): (s: string)
    ensures |s| >= 1
    ensures forall k :: 0 <= k < |s| ==> IsDigit(s[k]) || s[k] == '-'
  {
    if i < 0 then "-" + NatToString(-i) else NatToString(i)
  }

  /** The number a string of decimal digits denotes. */
  function DigitsValue(s: string): nat
    requires AllDigits(s)
  {
    if |s| == 0 then 0 else DigitsValue(s[..|s| - 1]) * 10 + DigitValue(s[|s| - 1])
  }

  lemma {:induction false} NatToStringRoundTrip(n: nat)
    ensures DigitsValue(NatToString(n)) == n
    decreases n
  {
    if n >= 10 {
      var s := NatToString(n);
      assert s[..|s| - 1] == NatToString(n / 10);
      NatToStringRoundTrip(n / 10);
    }
  }

  /** Clamps a parsed magnitude into the 64-bit range as `strconv.ParseInt` does on overflow. */
  function ClampInt64(negative: bool, magnitude: nat): (r: int)
    ensures MinInt64 <= r <= MaxInt64
    ensures !negative && magnitude <= MaxInt64 ==> r == magnitude
    ensures negative && magnitude <= -MinInt64 ==> r == -(magnitude as int)
    ensures !negative && magnitude > MaxInt64 ==> r == MaxInt64
    ensures negative && magnitude > -MinInt64 ==> r == MinInt64
  {
    if negative then (if magnitude > -MinInt64 then MinInt64 else -(magnitude as int))
    else (if magnitude > MaxInt64 then MaxInt64 else magnitude)
  }

  /** The longest prefix of `s` made of digits. */
  function LeadingDigits(s: string): (d: string)
    ensures |d| <= |s| && d == s[..|d|] && AllDigits(d)
    ensures |d| < |s| ==> !IsDigit(s[|d|])
  {
    if |s| == 0 || !IsDigit(s[0]) then "" else [s[0]] + LeadingDigits(s[1..])
  }

  /** `s` without its one optional leading sign. */
  function Unsigned(s: string): string {
    if |s| > 0 && (s[0] == '+' || s[0] == '-') then s[1..] else s
  }

  /** The value `strconv.Atoi(s)` returns when its error is ignored: an optional `+` or `-`, then
      one or more digits, clamped to the 64-bit range. Any other text yields 0, except that a digit
      run whose value already exceeds the unsigned 64-bit range fails with a range error before the
      text after it is looked at, and is clamped as well. */
  function Atoi(s: string): (r: int)
    ensures MinInt64 <= r <= MaxInt64
    ensures |s| == 0 ==> r == 0
    ensures |s| > 0 && !IsDigit(s[0]) && s[0] != '+' && s[0] != '-' ==> r == 0
    ensures var body := Unsigned(s);
      var negative := |s| > 0 && s[0] == '-';
      && (|body| > 0 && AllDigits(body) ==> r == ClampInt64(negative, DigitsValue(body)))
      && (!(|body| > 0 && AllDigits(body)) && DigitsValue(LeadingDigits(body)) > MaxUint64 ==>
            r == (if negative then MinInt64 else MaxInt64))
      && (!(|body| > 0 && AllDigits(body)) && DigitsValue(LeadingDigits(body)) <= MaxUint64 ==> r == 0)
  {
    if |s| == 0 then 0
    else
      var negative := s[0] == '-';
      var body := Unsigned(s);
      if |body| > 0 && AllDigits(body) then ClampInt64(negative, DigitsValue(body))
      else
        var run := LeadingDigits(body);
        if DigitsValue(run) > MaxUint64 then ClampInt64(negative, DigitsValue(run)) else 0
  }

  function Pow10(k: nat): (p: nat)
    ensures p >= 1
  {
    if k == 0 then 1 else 10 * Pow10(k - 1)
  }

  lemma MulMono(a: int, b: int, c: nat)
    requires a <= b
    ensures a * c <= b * c
  {
  }

  lemma {:induction false} Pow10Add(a: nat, b: nat)
    ensures Pow10(a + b) == Pow10(a) * Pow10(b)
    decreases a
  {
    if a > 0 {
      Pow10Add(a - 1, b);
      assert Pow10(a + b) == 10 * Pow10(a - 1 + b);
    }
  }

  /** A string of n digits denotes less than 10^n. */
  lemma {:induction false} DigitsValueUpper(s: string)
    requires AllDigits(s)
    ensures DigitsValue(s) < Pow10(|s|)
    decreases |s|
  {
    if |s| > 0 {
      var p := s[..|s| - 1];
      var v := DigitsValue(p);
      var d := DigitValue(s[|s| - 1]);
      assert DigitsValue(s) == v * 10 + d;
      DigitsValueUpper(p);
      assert Pow10(|s|) == 10 * Pow10(|p|);
      MulMono(v + 1, Pow10(|p|), 10);
    }
  }

  /** ... and at least its first digit times 10^(n-1). */
  lemma {:induction false} DigitsValueLower(s: string)
    requires |s| > 0 && AllDigits(s)
    ensures DigitValue(s[0]) * Pow10(|s| - 1) <= DigitsValue(s)
    decreases |s|
  {
    var p := s[..|s| - 1];
    assert AllDigits(p) by {
      forall k | 0 <= k < |p| ensures IsDigit(p[k]) {
        assert p[k] == s[k];
      }
    }
    var v := DigitsValue(p);
    var d := DigitValue(s[|s| - 1]);
    var f := DigitValue(s[0]);
    assert DigitsValue(s) == v * 10 + d;
    if |s| == 1 {
      assert p == "";
      assert Pow10(0) == 1;
    } else {
      assert p[0] == s[0];
      DigitsValueLower(p);
      var q := Pow10(|p| - 1);
      assert Pow10(|s| - 1) == 10 * q;
      ScaleByTen(f, q, v);
    }
  }

  /** From `f * q <= v` follows `f * (10 * q) <= v * 10`. */
  lemma ScaleByTen(f: nat, q: nat, v: nat)
    requires f * q <= v
    ensures f * (10 * q) <= v * 10
  {
    MulMono(f * q, v, 10);
    assert f * (10 * q) == (f * q) * 10;
  }

  /** The leading digit run of `d + t` is `d` when `t` does not start with a digit. */
  lemma {:induction false} LeadingDigitsOfConcat(d: string, t: string)
    requires AllDigits(d)
    requires |t| == 0 || !IsDigit(t[0])
    ensures LeadingDigits(d + t) == d
    decreases |d|
  {
    if |d| > 0 {
      assert (d + t)[1..] == d[1..] + t;
      LeadingDigitsOfConcat(d[1..], t);
    }
  }

  /** Twenty nines exceed the unsigned 64-bit range; nineteen do not. */
  lemma NinesAgainstUint64()
    ensures AllDigits("99999999999999999999") && DigitsValue("99999999999999999999") > MaxUint64
    ensures AllDigits("9999999999999999999") && DigitsValue("9999999999999999999") <= MaxUint64
  {
    var n20 := "99999999999999999999";
    var n19 := "9999999999999999999";
    assert |n20| == 20 && |n19| == 19;
    assert Pow10(5) == 100000 && Pow10(4) == 10000;
    Pow10Add(5, 5);
    Pow10Add(5, 10);
    Pow10Add(4, 15);
    assert Pow10(19) == 10000000000000000000;
    DigitsValueLower(n20);
    DigitsValueUpper(n19);
  }

  /** A digit run beyond the unsigned 64-bit range followed by a non-digit parses as the bound of
      its sign. */
  lemma OverflowingRunThenJunk(d: string, t: string)
    requires AllDigits(d) && DigitsValue(d) > MaxUint64
    requires |t| > 0 && !IsDigit(t[0])
    ensures Atoi(d + t) == MaxInt64
    ensures Atoi("-" + (d + t)) == MinInt64
  {
    var s := d + t;
    assert |d| > 0;
    LeadingDigitsOfConcat(d, t);
    assert s[0] == d[0] && IsDigit(s[0]);
    assert Unsigned(s) == s;
    assert s[|d|] == t[0];
    assert !AllDigits(s);
    assert LeadingDigits(Unsigned(s)) == d;
    var n := "-" + s;
    assert n[1..] == s;
    assert Unsigned(n) == s;
  }

  /** Twenty nines followed by a letter: the range error comes first, so the result is clamped. */
  lemma OverflowBeforeJunk(nines: string)
    requires nines == "99999999999999999999"
    ensures Atoi(nines + "x") == MaxInt64
    ensures Atoi("-" + (nines + "x")) == MinInt64
  {
    NinesAgainstUint64();
    OverflowingRunThenJunk(nines, "x");
  }

  /** A digit run within the unsigned 64-bit range followed by a non-digit is a syntax error, so
      the result is 0, with or without a sign. */
  lemma InRangeRunThenJunk(d: string, t: string)
    requires |d| > 0 && AllDigits(d) && DigitsValue(d) <= MaxUint64
    requires |t| > 0 && !IsDigit(t[0])
    ensures Atoi(d + t) == 0
    ensures Atoi("-" + (d + t)) == 0
  {
    var s := d + t;
    LeadingDigitsOfConcat(d, t);
    assert s[0] == d[0] && IsDigit(s[0]);
    assert Unsigned(s) == s;
    assert s[|d|] == t[0];
    assert !AllDigits(s);
    assert LeadingDigits(Unsigned(s)) == d;
    var n := "-" + s;
    assert n[1..] == s;
    assert Unsigned(n) == s;
  }

  /** With nineteen nines the value fits, and the letter after it makes the result 0. */
  lemma JunkAfterInRangeDigits(nines: string)
    requires nines == "9999999999999999999"
    ensures Atoi(nines + "x") == 0
  {
    NinesAgainstUint64();
    InRangeRunThenJunk(nines, "x");
  }

  /** `Atoi` undoes `%d` on every 64-bit integer. */
  lemma AtoiIntToString(i: int)
    requires MinInt64 <= i <= MaxInt64
    ensures Atoi(IntToString(i)) == i
  {
    if i < 0 {
      var s := IntToString(i);
      assert s[1..] == NatToString(-i);
      NatToStringRoundTrip(-i);
    } else {
      NatToStringRoundTrip(i);
    }
  }

  /** The first character of `%d` is `-` exactly for negative numbers. */
  lemma SignShows(i: int)
    ensures IntToString(i)[0] == '-' <==> i < 0
  {
    if i >= 0 {
      assert IsDigit(NatToString(i)[0]);
    }
  }

  /** Decimal rendering is injective: different integers print differently. */
  lemma IntToStringInjective(a: int, b: int)
    requires IntToString(a) == IntToString(b)
    ensures a == b
  {
    SignShows(a);
    SignShows(b);
    if a < 0 {
      assert IntToString(a)[1..] == NatToString(-a);
      assert IntToString(b)[1..] == NatToString(-b);
      NatToStringRoundTrip(-a);
      NatToStringRoundTrip(-b);
    } else {
      NatToStringRoundTrip(a);
      NatToStringRoundTrip(b);
    }
  }
}
