/**
 * The numeric fields of a journey row (`distance_m`, `duration_sec`), read as
 * Rust's `str::parse` for floats reads plain decimal notation, with exact
 * real values in place of IEEE binary floats.
 */
module Numbers {
  import opened Wrappers
  import opened Digits

  /** The position of the first `c` in `s`, or `|s|` when there is none. */
  function IndexOf(s: string, c: char): (i: nat)
    ensures i <= |s|
    ensures i < |s| ==> s[i] == c
    ensures forall j :: 0 <= j < i ==> s[j] != c
  {
    if s == [] then 0
    else if s[0] == c then 0
    else 1 + IndexOf(s[1..], c)
  }

  /** `v / 10^scale`: the value of `v` with its last `scale` digits after the decimal point. */
  function Scaled(v: nat, scale: nat): (r: real)
    ensures 0.0 <= r <= v as real
  {
    if scale == 0 then v as real else Scaled(v, scale - 1) / 10.0
  }

  lemma {:induction false} ScaledIsQuotient(v: nat, scale: nat)
    ensures Scaled(v, scale) == v as real / Pow10(scale) as real
  {
    if scale > 0 {
      ScaledIsQuotient(v, scale - 1);
      var p := Pow10(scale - 1) as real;
      assert Pow10(scale) as real == 10.0 * p;
      assert (v as real / p) / 10.0 == v as real / (10.0 * p);
    }
  }

  /** Digits with an optional fraction after a `.`, with at least one digit in all. */
  function ParseUnsigned(s: string): (r: Option<real>)
    ensures r.Some? ==> r.value >= 0.0
  {
    var dot := IndexOf(s, '.');
    var whole := s[..dot];
    var fraction := if dot < |s| then s[dot + 1..] else "";
    if AllDigits(whole) && AllDigits(fraction) && |whole| + |fraction| > 0 then
      Some(DigitsValue(whole) as real + Scaled(DigitsValue(fraction), |fraction|))
    else
      None
  }

  /** An optional `+` or `-` sign followed by an unsigned decimal; the empty string is not a number. */
  function ParseNumber(s: string): (r: Option<real>)
    ensures s == [] ==> r == None
    ensures r.Some? && r.value < 0.0 ==> s[0] == '-'
  {
    if |s| > 0 && s[0] == '-' then
      match ParseUnsigned(s[1..])
      case Some(v) => Some(-v)
      case None => None
    else if |s| > 0 && s[0] == '+' then
      ParseUnsigned(s[1..])
    else
      ParseUnsigned(s)
  }

  /** `n / 10^scale` in fixed-point notation with `scale` fraction digits (no `.` when `scale` is 0). */
  function FormatFixed(n: nat, scale: nat): (s: string)
    ensures s != [] && IsDigit(s[0])
  {
    if scale == 0 then Decimal(n)
    else
      var (q, r) := DivMod(n, Pow10(scale));
      var whole := Decimal(q);
      assert IsDigit(whole[0]);
      whole + "." + Pad(r, scale)
  }

  /** Quotient and remainder of `n` by `p`, stated separately so that the division stays out of the callers' proofs. */
  function DivMod(n: nat, p: nat): (qr: (nat, nat))
    requires p >= 1
    ensures n == qr.0 * p + qr.1 && qr.1 < p
  {
    (n / p, n % p)
  }

  lemma {:induction false} IndexOfAfterDigits(whole: string, rest: string)
    requires AllDigits(whole)
    requires rest != [] && rest[0] == '.'
    ensures IndexOf(whole + rest, '.') == |whole|
  {
    if whole != [] {
      assert (whole + rest)[1..] == whole[1..] + rest;
      IndexOfAfterDigits(whole[1..], rest);
    }
  }

  lemma {:induction false} IndexOfInDigits(whole: string)
    requires AllDigits(whole)
    ensures IndexOf(whole, '.') == |whole|
  {
    if whole != [] {
      IndexOfInDigits(whole[1..]);
    }
  }

  /** Digits, a `.` and digits read as the whole part plus the scaled fraction. */
  lemma {:induction false} ParseWholeDotFraction(whole: string, fraction: string, q: nat, r: nat, scale: nat)
    requires AllDigits(whole) && AllDigits(fraction) && whole != [] && |fraction| == scale
    requires DigitsValue(whole) == q && DigitsValue(fraction) == r
    ensures ParseNumber(whole + "." + fraction) == Some(q as real + Scaled(r, scale))
  {
    var s := whole + "." + fraction;
    assert s == whole + ("." + fraction);
    assert s[0] == whole[0] && IsDigit(s[0]);
    IndexOfAfterDigits(whole, "." + fraction);
    assert s[..|whole|] == whole;
    assert s[|whole| + 1..] == fraction;
    assert ParseNumber(s) == ParseUnsigned(s);
  }

  /** A plain digit string reads as its value. */
  lemma {:induction false} ParseDigits(whole: string)
    requires AllDigits(whole) && whole != []
    ensures ParseNumber(whole) == Some(DigitsValue(whole) as real)
  {
    assert IsDigit(whole[0]);
    IndexOfInDigits(whole);
    assert whole[..|whole|] == whole;
    assert ParseNumber(whole) == ParseUnsigned(whole);
  }

  lemma {:induction false} ScaledSplit(n: nat, q: nat, r: nat, scale: nat)
    requires n == q * Pow10(scale) + r
    ensures Scaled(n, scale) == q as real + Scaled(r, scale)
  {
    ScaledIsQuotient(n, scale);
    ScaledIsQuotient(r, scale);
    var p := Pow10(scale);
    MulAsReal(q, p);
    DivideSum(q as real, r as real, p as real);
  }

  lemma MulAsReal(a: nat, b: nat)
    ensures (a * b) as real == a as real * b as real
  {
  }

  lemma DivideSum(q: real, r: real, p: real)
    requires p > 0.0
    ensures (q * p + r) / p == q + r / p
  {
  }

  lemma {:induction false} ParseFormattedWhole(n: nat)
    ensures ParseNumber(FormatFixed(n, 0)) == Some(n as real)
  {
    ParseDigits(Decimal(n));
    DigitsValueOfDecimal(n);
  }

  /** A whole part, a `.` and a padded fraction read as the whole part plus the fraction over `10^scale`. */
  lemma {:induction false} ParseWholeAndFraction(q: nat, r: nat, scale: nat)
    requires r < Pow10(scale)
    ensures ParseNumber(Decimal(q) + "." + Pad(r, scale)) == Some(q as real + Scaled(r, scale))
  {
    var whole, fraction := Decimal(q), Pad(r, scale);
    assert AllDigits(whole) && whole != [];
    assert AllDigits(fraction) && |fraction| == scale;
    DigitsValueOfDecimal(q);
    DigitsValueOfPad(r, scale);
    ParseWholeDotFraction(whole, fraction, q, r, scale);
  }

  /** With a fraction, the fixed-point text is the quotient, a `.` and the zero-padded remainder. */
  lemma {:induction false} FormatFixedParts(n: nat, scale: nat) returns (q: nat, r: nat)
    requires scale > 0
    ensures n == q * Pow10(scale) + r && r < Pow10(scale)
    ensures FormatFixed(n, scale) == Decimal(q) + "." + Pad(r, scale)
  {
    q, r := DivMod(n, Pow10(scale)).0, DivMod(n, Pow10(scale)).1;
  }

  lemma {:induction false} ParseFormattedFraction(n: nat, scale: nat)
    requires scale > 0
    ensures ParseNumber(FormatFixed(n, scale)) == Some(Scaled(n, scale))
  {
    var q, r := FormatFixedParts(n, scale);
    ScaledSplit(n, q, r, scale);
    ParseWholeAndFraction(q, r, scale);
  }

  /** A number written in fixed-point notation reads back as exactly its value. */
  lemma {:induction false} ParseFormattedFixed(n: nat, scale: nat)
    ensures ParseNumber(FormatFixed(n, scale)) == Some(Scaled(n, scale))
  {
    if scale == 0 {
      ParseFormattedWhole(n);
    } else {
      ParseFormattedFraction(n, scale);
    }
  }

  /** A leading `-` negates the number that follows it, and a leading `+` keeps it. */
  lemma {:induction false} ParseSignedFixed(n: nat, scale: nat)
    ensures ParseNumber("-" + FormatFixed(n, scale)) == Some(-Scaled(n, scale))
    ensures ParseNumber("+" + FormatFixed(n, scale)) == Some(Scaled(n, scale))
  {
    var s := FormatFixed(n, scale);
    ParseFormattedFixed(n, scale);
    assert ParseNumber(s) == ParseUnsigned(s);
    assert ("-" + s)[1..] == s;
    assert ("+" + s)[1..] == s;
  }

  /** 9.9, the distance and duration the journey validator's tests reject, read exactly. */
  lemma ShortDistanceExample()
    ensures ParseNumber("9.9") == Some(9.9)
  {
    var s := "9.9";
    assert IndexOf(s, '.') == 1;
    assert s[..1] == "9" && s[2..] == "9";
  }

  /** 2043, the distance of the tests' first well-formed row, read exactly. */
  lemma DistanceExample()
    ensures ParseNumber("2043") == Some(2043.0)
  {
    var s := "2043";
    assert AllDigits(s);
    assert s[..3] == "204" && "204"[..2] == "20" && "20"[..1] == "2";
    assert DigitsValue(s) == 2043;
    ParseDigits(s);
  }

  /** 500, the duration of the tests' first well-formed row, read exactly. */
  lemma DurationExample()
    ensures ParseNumber("500") == Some(500.0)
  {
    var s := "500";
    assert AllDigits(s);
    assert s[..2] == "50" && "50"[..1] == "5";
    assert DigitsValue(s) == 500;
    ParseDigits(s);
  }

  /** Tokens that are not decimal numbers are rejected: letters, a lone `.` and a lone sign. */
  lemma MalformedNumberExamples()
    ensures ParseNumber("abc") == None
    ensures ParseNumber(".") == None
    ensures ParseNumber("-") == None
  {
    assert IndexOf("abc", '.') == 3;
  }

  /** A second `.` makes the fraction part non-numeric. */
  lemma TwoDotsExample()
    ensures ParseNumber("1.2.3") == None
  {
    var s := "1.2.3";
    assert IndexOf(s, '.') == 1;
    assert s[2..] == "2.3" && !IsDigit(s[3]);
  }
}
