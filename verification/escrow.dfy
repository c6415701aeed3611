/**
  Money in integer minor units, shared/escrowAmounts.ts: the decimal parser, the printer and the
  fee split with its single rounding.  Amounts are mathematical integers and the rate is a real.
 */
module EscrowAmounts {
  import opened Common
  import opened Digits
  import opened Powers

  // ---------------------------------------------------------------- decimal text

  function Pow10(n: nat): (p: nat)
    ensures p > 0
  {
    if n == 0 then 1 else 10 * Pow10(n - 1)
  }

  /** JavaScript's white space and line terminators. */
  predicate IsSpace(c: char) {
    '\t' <= c <= '\r' || c == ' ' || c == '\U{A0}' || c == '\U{1680}' || '\U{2000}' <= c <= '\U{200A}'
    || c == '\U{2028}' || c == '\U{2029}' || c == '\U{202F}' || c == '\U{205F}' || c == '\U{3000}' || c == '\U{FEFF}'
  }

  /** White space and line terminators, sections 12.2 and 12.3 of ECMA-262. */
  const WHITE_SPACE := "\t\n\U{0B}\U{0C}\r \U{A0}\U{1680}\U{2000}\U{2001}\U{2002}\U{2003}\U{2004}\U{2005}"
    + "\U{2006}\U{2007}\U{2008}\U{2009}\U{200A}\U{2028}\U{2029}\U{202F}\U{205F}\U{3000}\U{FEFF}"

  /** They are the characters that trim removes. */
  lemma SpaceIsListed(c: char)
    ensures IsSpace(c) <==> c in WHITE_SPACE
  {
    var first := "\t\n\U{0B}\U{0C}\r \U{A0}\U{1680}\U{2000}\U{2001}\U{2002}\U{2003}\U{2004}\U{2005}";
    var second := "\U{2006}\U{2007}\U{2008}\U{2009}\U{200A}\U{2028}\U{2029}\U{202F}\U{205F}\U{3000}\U{FEFF}";
    assert WHITE_SPACE == first + second;
    assert c in WHITE_SPACE <==> c in first || c in second;
  }

  function TrimStart(s: string): string {
    if s != "" && IsSpace(s[0]) then TrimStart(s[1..]) else s
  }

  function TrimEnd(s: string): string {
    if s != "" && IsSpace(s[|s| - 1]) then TrimEnd(s[..|s| - 1]) else s
  }

  function Trim(s: string): string {
    TrimEnd(TrimStart(s))
  }

  /** The regular expression of toMinorUnitsExact, split at the point: digits, or digits.digits. */
  function Decimal(s: string): (r: Option<(string, string)>)
    ensures r.Some? ==> r.value.0 != "" && AllDigits(r.value.0) && AllDigits(r.value.1)
    ensures r.Some? ==> s == r.value.0 + (if r.value.1 == "" then "" else "." + r.value.1)
  {
    var k := LeadingDigits(s);
    if k == 0 then None
    else if k == |s| then Some((s, ""))
    else if s[k] == '.' && k + 1 < |s| && AllDigits(s[k + 1..]) then Some((s[..k], s[k + 1..]))
    else None
  }

  /** Conversely, every text of that shape is accepted and split there. */
  lemma DecimalAccepts(whole: string, frac: string)
    requires whole != "" && AllDigits(whole) && AllDigits(frac)
    ensures Decimal(whole + (if frac == "" then "" else "." + frac)) == Some((whole, frac))
  {
    var s := whole + (if frac == "" then "" else "." + frac);
    var k := LeadingDigits(s);
    assert forall i :: 0 <= i < |whole| ==> s[i] == whole[i];
    if frac == "" {
      assert s == whole;
    } else {
      assert s[|whole|] == '.';
      assert k == |whole|;
      assert s[..k] == whole && s[k + 1..] == frac;
    }
  }

  // ---------------------------------------------------------------- the parser

  /** The errors the module throws. */
  datatype AmountError = InvalidAmount(text: string) | InvalidMinorUnits | InvalidFeeRate

  /** Whole units, two digits of the fraction, rounded half up at the third. */
  function MinorOf(whole: string, frac: string): nat
    requires AllDigits(whole) && AllDigits(frac)
  {
    var fracPadded := (frac + "000")[..3];
    assert AllDigits("000");
    var minor := Value(whole) * 100 + Value(fracPadded[..2]);
    if DigitValue(fracPadded[2]) >= 5 then minor + 1 else minor
  }

  function ToMinorUnitsExact(amount: string): Result<nat, AmountError> {
    match Decimal(Trim(amount))
    case None => Err(InvalidAmount(amount))
    case Some((whole, frac)) => Ok(MinorOf(whole, frac))
  }

  lemma {:induction false} ValueConcat(a: string, b: string)
    requires AllDigits(a) && AllDigits(b)
    ensures AllDigits(a + b) && Value(a + b) == Value(a) * Pow10(|b|) + Value(b)
  {
    if b == "" {
      assert a + b == a;
    } else {
      var b' := b[..|b| - 1];
      ValueConcat(a, b');
      assert (a + b)[..|a + b| - 1] == a + b';
      TimesTen(Value(a), Pow10(|b'|));
    }
  }

  lemma TimesTen(v: nat, p: nat)
    ensures v * (10 * p) == 10 * (v * p)
  {
  }

  lemma {:induction false} ValueBound(s: string)
    requires AllDigits(s)
    ensures Value(s) < Pow10(|s|)
  {
    if s != "" {
      ValueBound(s[..|s| - 1]);
    }
  }

  /** floor(100 n / d + 1/2): n / d major units, rounded half up to minor units. */
  function RoundHalfUp(n: nat, d: nat): nat
    requires d > 0
  {
    (200 * n + d) / (2 * d)
  }

  /** q is the rounded value when 100 n / d lies in [q - 1/2, q + 1/2). */
  lemma RoundIs(n: nat, d: nat, q: nat)
    requires d > 0 && 2 * d * q <= 200 * n + d < 2 * d * (q + 1)
    ensures RoundHalfUp(n, d) == q
  {
    QuotientIs(200 * n + d, 2 * d, q);
  }

  lemma QuotientIs(x: nat, y: nat, q: nat)
    requires y > 0 && y * q <= x < y * (q + 1)
    ensures x / y == q
  {
    assert y * (x / y) <= x < y * (x / y + 1);
    MulMonoIf(y, x / y + 1, q);
    MulMonoIf(y, q + 1, x / y);
  }

  lemma MulMonoIf(y: nat, a: nat, b: nat)
    ensures a <= b ==> y * a <= y * b
  {
    if a <= b {
      MulMono(y, a, b);
    }
  }

  lemma MulMono(y: nat, a: nat, b: nat)
    requires a <= b
    ensures y * a <= y * b
  {
  }

  /** Three digits are enough: what follows them is less than one in the third place. */
  lemma {:induction false} ThirdDigitDecides(v: nat, m: nat, t: nat, rest: nat, e: nat)
    requires v == 10 * m + t && t < 10 && rest < e
    ensures RoundHalfUp(v * e + rest, 1000 * e) == m + (if t >= 5 then 1 else 0)
  {
    var me, te := m * e, t * e;
    assert v * e == 10 * me + te by {
      Distribute(10 * m, t, e);
      Associate(10, m, e);
    }
    if t >= 5 {
      MulMono(e, 5, t);
      MulMono(e, t, 9);
    } else {
      MulMono(e, t, 4);
    }
    var up := if t >= 5 then 1 else 0;
    Distribute(m, up, e);
    Distribute(m + up, 1, e);
    Reorder(e, m + up);
    Reorder(e, m + up + 1);
    RoundIs(10 * me + te + rest, 1000 * e, m + up);
  }

  lemma Associate(a: nat, b: nat, c: nat)
    ensures (a * b) * c == a * (b * c)
  {
  }

  lemma Distribute(a: nat, b: nat, e: nat)
    ensures (a + b) * e == a * e + b * e
  {
  }

  lemma Reorder(e: nat, q: nat)
    ensures 2 * (1000 * e) * q == 2000 * (q * e)
  {
  }

  /** Appending zeros to the fraction changes nothing. */
  lemma RoundScales(n: nat, d: nat, m: nat)
    requires d > 0 && m > 0
    ensures d * m > 0 && RoundHalfUp(n * m, d * m) == RoundHalfUp(n, d)
  {
    Distribute(200 * n, d, m);
    Associate(200, n, m);
    Associate(2, d, m);
    DivScales(200 * n + d, 2 * d, m);
  }

  lemma DivScales(x: nat, y: nat, m: nat)
    requires y > 0 && m > 0
    ensures y * m > 0 && (x * m) / (y * m) == x / y
  {
    var q := x / y;
    MulMono(m, y * q, x);
    MulMono(m, x + 1, y * (q + 1));
    Scale(y, q, m);
    Scale(y, q + 1, m);
    assert m * (x + 1) == x * m + m;
    QuotientIs(x * m, y * m, q);
  }

  lemma Scale(d: nat, q: nat, m: nat)
    ensures (d * m) * q == m * (d * q)
  {
  }

  lemma Triple(s: string)
    requires AllDigits(s) && |s| == 3
    ensures Value(s) == Value(s[..2]) * 10 + DigitValue(s[2])
  {
    assert s[..|s| - 1] == s[..2];
  }

  /** The value of a text cut after the first three digits of its fraction. */
  lemma CutFraction(whole: string, frac: string)
    requires AllDigits(whole) && AllDigits(frac) && |frac| >= 3
    ensures AllDigits(whole + frac[..3]) && AllDigits(whole + frac)
    ensures Value(whole + frac[..3]) == Value(whole) * 1000 + Value(frac[..2]) * 10 + DigitValue(frac[2])
    ensures Value(whole + frac) == Value(whole + frac[..3]) * Pow10(|frac| - 3) + Value(frac[3..])
  {
    var head, tail := frac[..3], frac[3..];
    ValueConcat(whole, head);
    ValueConcat(whole + head, tail);
    assert whole + frac == (whole + head) + tail;
    Triple(head);
    assert head[..2] == frac[..2];
    assert Pow10(3) == 1000;
  }

  lemma LongFraction(whole: string, frac: string)
    requires AllDigits(whole) && AllDigits(frac) && |frac| >= 3 && AllDigits(whole + frac)
    ensures RoundHalfUp(Value(whole + frac), Pow10(|frac|))
         == Value(whole) * 100 + Value(frac[..2]) + (if DigitValue(frac[2]) >= 5 then 1 else 0)
  {
    CutFraction(whole, frac);
    ValueBound(frac[3..]);
    Pow10Thousand(|frac| - 3);
    CutDecides(Value(whole + frac), Pow10(|frac|), Value(whole + frac[..3]),
               Value(whole), Value(frac[..2]), DigitValue(frac[2]), Value(frac[3..]), Pow10(|frac| - 3));
  }

  lemma CutDecides(n: nat, d: nat, v: nat, w: nat, f: nat, t: nat, rest: nat, e: nat)
    requires rest < e && t < 10 && d == e * 1000
    requires n == v * e + rest && v == w * 1000 + f * 10 + t
    ensures RoundHalfUp(n, d) == w * 100 + f + (if t >= 5 then 1 else 0)
  {
    ThirdDigitDecides(v, w * 100 + f, t, rest, e);
  }

  lemma Pow10Thousand(n: nat)
    ensures Pow10(n + 3) == Pow10(n) * 1000 == 1000 * Pow10(n)
  {
    assert Pow10(n + 3) == 10 * Pow10(n + 2) && Pow10(n + 2) == 10 * Pow10(n + 1);
  }

  /**
    Although the code reads three digits of the fraction, the result is the exact value of the
    whole text, times 100, rounded half up, for fractions of any length.
   */
  lemma {:induction false} ParseIsExactRoundHalfUp(amount: string)
    requires Decimal(Trim(amount)).Some?
    ensures var (whole, frac) := Decimal(Trim(amount)).value;
      && AllDigits(whole + frac)
      && ToMinorUnitsExact(amount) == Ok(RoundHalfUp(Value(whole + frac), Pow10(|frac|)))
  {
    var (whole, frac) := Decimal(Trim(amount)).value;
    var padded := frac + "000";
    assert AllDigits("000");
    ValueConcat(whole, frac);
    ValueConcat(whole + frac, "000");
    assert (whole + frac) + "000" == whole + padded;
    assert Value("000") == 0 by {
      assert "000"[..2] == "00" && "00"[..1] == "0" && "0"[..0] == "";
    }
    assert Pow10(3) == 1000;
    Pow10Thousand(|frac|);
    RoundScales(Value(whole + frac), Pow10(|frac|), 1000);
    LongFraction(whole, padded);
    assert padded[..3][..2] == padded[..2];
  }

  // ---------------------------------------------------------------- which texts are amounts

  predicate AllSpace(s: string) {
    forall i :: 0 <= i < |s| ==> IsSpace(s[i])
  }

  /** The decimal text of these digits: no point without a fraction. */
  function Decimals(whole: string, frac: string): string {
    whole + (if frac == "" then "" else "." + frac)
  }

  /** amount is white space, digits, perhaps a point and more digits, and white space. */
  predicate IsAmount(amount: string, before: string, whole: string, frac: string, after: string) {
    && amount == before + Decimals(whole, frac) + after
    && AllSpace(before) && AllSpace(after)
    && whole != "" && AllDigits(whole) && AllDigits(frac)
  }

  lemma {:induction false} TrimStartCuts(s: string) returns (before: string)
    ensures s == before + TrimStart(s) && AllSpace(before)
    ensures TrimStart(s) != "" ==> !IsSpace(TrimStart(s)[0])
  {
    if s != "" && IsSpace(s[0]) {
      var rest := TrimStartCuts(s[1..]);
      before := [s[0]] + rest;
      assert s == [s[0]] + s[1..];
    } else {
      before := "";
    }
  }

  lemma {:induction false} TrimEndCuts(s: string) returns (after: string)
    ensures s == TrimEnd(s) + after && AllSpace(after)
  {
    if s != "" && IsSpace(s[|s| - 1]) {
      var rest := TrimEndCuts(s[..|s| - 1]);
      after := rest + [s[|s| - 1]];
      assert s == s[..|s| - 1] + [s[|s| - 1]];
    } else {
      after := "";
    }
  }

  lemma {:induction false} TrimStartDrops(before: string, s: string)
    requires AllSpace(before) && (s != "" ==> !IsSpace(s[0]))
    ensures TrimStart(before + s) == s
  {
    if before == "" {
      assert before + s == s;
    } else {
      assert (before + s)[0] == before[0] && (before + s)[1..] == before[1..] + s;
      TrimStartDrops(before[1..], s);
    }
  }

  lemma {:induction false} TrimEndDrops(s: string, after: string)
    requires AllSpace(after) && (s != "" ==> !IsSpace(s[|s| - 1]))
    ensures TrimEnd(s + after) == s
  {
    if after == "" {
      assert s + after == s;
    } else {
      var n := |after| - 1;
      assert (s + after)[|s + after| - 1] == after[n] && (s + after)[..|s + after| - 1] == s + after[..n];
      TrimEndDrops(s, after[..n]);
    }
  }

  lemma DecimalsEnds(whole: string, frac: string)
    requires whole != "" && AllDigits(whole) && AllDigits(frac)
    ensures var s := Decimals(whole, frac); s != "" && IsDigit(s[0]) && IsDigit(s[|s| - 1])
  {
    var s := Decimals(whole, frac);
    assert s[0] == whole[0];
    assert s[|s| - 1] == if frac == "" then whole[|whole| - 1] else frac[|frac| - 1];
  }

  /** Such a text is read as those digits. */
  lemma AmountIsDecimal(amount: string, before: string, whole: string, frac: string, after: string)
    requires IsAmount(amount, before, whole, frac, after)
    ensures Decimal(Trim(amount)) == Some((whole, frac))
  {
    var s := Decimals(whole, frac);
    DecimalsEnds(whole, frac);
    assert amount == before + (s + after) && (s + after)[0] == s[0];
    TrimStartDrops(before, s + after);
    TrimEndDrops(s, after);
    DecimalAccepts(whole, frac);
  }

  /** And every text that is read is one. */
  lemma DecimalIsAmount(amount: string) returns (before: string, after: string)
    requires Decimal(Trim(amount)).Some?
    ensures var (whole, frac) := Decimal(Trim(amount)).value; IsAmount(amount, before, whole, frac, after)
  {
    before := TrimStartCuts(amount);
    after := TrimEndCuts(TrimStart(amount));
    assert amount == before + (Trim(amount) + after) == before + Trim(amount) + after;
  }

  /** q is x / d rounded half up: it is within half a unit of it, and above it in a tie. */
  predicate RoundsHalfUp(q: nat, x: nat, d: nat) {
    2 * d * q <= 2 * x + d < 2 * d * (q + 1)
  }

  /** v minor units are the exact value of the digits, times 100, rounded half up. */
  predicate IsValueOf(v: nat, whole: string, frac: string)
    requires AllDigits(whole) && AllDigits(frac)
  {
    ValueConcat(whole, frac);
    RoundsHalfUp(v, 100 * Value(whole + frac), Pow10(|frac|))
  }

  lemma RoundHalfUpRounds(n: nat, d: nat)
    requires d > 0
    ensures RoundsHalfUp(RoundHalfUp(n, d), 100 * n, d)
  {
    var x, y := 200 * n + d, 2 * d;
    assert y * (x / y) <= x < y * (x / y + 1);
  }

  ghost predicate ReadsAsAmount(amount: string) {
    exists before, whole, frac, after :: IsAmount(amount, before, whole, frac, after)
  }

  /**
    The parser on the text alone: an amount is white space, digits, perhaps a point and more digits,
    and white space; its value is that of the digits, exactly rounded half up.  Everything else is
    refused with the error that names it.
   */
  lemma {:induction false} AcceptedIffAmount(amount: string)
    ensures ToMinorUnitsExact(amount).Ok? <==> ReadsAsAmount(amount)
    ensures ToMinorUnitsExact(amount).Err? ==> ToMinorUnitsExact(amount) == Err(InvalidAmount(amount))
    ensures forall before, whole, frac, after :: IsAmount(amount, before, whole, frac, after) ==>
      ToMinorUnitsExact(amount).Ok? && IsValueOf(ToMinorUnitsExact(amount).value, whole, frac)
  {
    if Decimal(Trim(amount)).Some? {
      var before, after := DecimalIsAmount(amount);
      var (whole, frac) := Decimal(Trim(amount)).value;
      assert IsAmount(amount, before, whole, frac, after);
    }
    forall before, whole, frac, after | IsAmount(amount, before, whole, frac, after)
      ensures ToMinorUnitsExact(amount).Ok? && IsValueOf(ToMinorUnitsExact(amount).value, whole, frac)
    {
      AmountIsDecimal(amount, before, whole, frac, after);
      ParseIsExactRoundHalfUp(amount);
      RoundHalfUpRounds(Value(whole + frac), Pow10(|frac|));
    }
  }

  // ---------------------------------------------------------------- the printer

  const MAX_SAFE: int := 9007199254740991

  /** Number.MAX_SAFE_INTEGER */
  lemma MaxSafeIsPower()
    ensures MAX_SAFE == Pow2(53) - 1
  {
    assert Pow2(10) == 0x400;
    assert Pow2(20) == 0x10_0000;
    assert Pow2(30) == 0x4000_0000;
    assert Pow2(40) == 0x100_0000_0000;
    assert Pow2(50) == 0x4_0000_0000_0000;
  }

  function MinorUnitsToString(minor: int): Result<string, AmountError> {
    if minor < 0 || minor > MAX_SAFE then Err(InvalidMinorUnits)
    else Ok(NatToString(minor / 100) + "." + PadTwo(minor % 100))
  }

  /** n.toString().padStart(2, "0") */
  function PadTwo(n: nat): (s: string)
    ensures AllDigits(s)
  {
    if n < 10 then "0" + NatToString(n) else NatToString(n)
  }

  /** The printer's numerals are the only ones without leading zeros. */
  lemma {:induction false} NumeralUnique(s: string)
    requires AllDigits(s) && NoLeadingZero(s)
    ensures NatToString(Value(s)) == s
  {
    var init, last := s[..|s| - 1], s[|s| - 1];
    assert s == init + [last];
    if |s| > 1 {
      assert NoLeadingZero(init) || init == "";
      NumeralUnique(init);
      LeadingDigitPositive(init);
      assert Value(s) / 10 == Value(init) && Value(s) % 10 == DigitValue(last);
    } else {
      assert Value(init) == 0;
    }
  }

  lemma {:induction false} LeadingDigitPositive(s: string)
    requires AllDigits(s) && s != "" && s[0] != '0'
    ensures Value(s) > 0
  {
    if |s| > 1 {
      LeadingDigitPositive(s[..|s| - 1]);
    }
  }

  lemma PadTwoValue(n: nat)
    requires n < 100
    ensures |PadTwo(n)| == 2 && Value(PadTwo(n)) == n
  {
    if n >= 10 {
      assert NatToString(n / 10) == [Digit(n / 10)];
    }
    TwoDigits(PadTwo(n));
  }

  lemma DigitsNotTrimmed(s: string)
    requires s != "" && IsDigit(s[0]) && IsDigit(s[|s| - 1])
    ensures Trim(s) == s
  {
  }

  lemma TwoDigits(s: string)
    requires AllDigits(s) && |s| == 2
    ensures Value(s) == DigitValue(s[0]) * 10 + DigitValue(s[1])
  {
    assert s[..1][..0] == "" && s[..|s| - 1] == s[..1];
    assert Value(s[..1]) == DigitValue(s[0]);
  }

  /** Two decimals: what the parser returns, with no rounding. */
  lemma ParseTwoDecimals(whole: string, frac: string)
    requires whole != "" && AllDigits(whole) && AllDigits(frac) && |frac| == 2
    ensures ToMinorUnitsExact(whole + "." + frac) == Ok(Value(whole) * 100 + Value(frac))
  {
    SplitsAtPoint(whole, frac);
    TakesParts(whole + "." + frac, whole, frac);
  }

  lemma TakesParts(amount: string, whole: string, frac: string)
    requires AllDigits(whole) && AllDigits(frac) && |frac| == 2
    requires Decimal(Trim(amount)) == Some((whole, frac))
    ensures ToMinorUnitsExact(amount) == Ok(Value(whole) * 100 + Value(frac))
  {
    TwoDecimalsExact(whole, frac);
  }

  lemma SplitsAtPoint(whole: string, frac: string)
    requires whole != "" && AllDigits(whole) && AllDigits(frac) && |frac| == 2
    ensures Decimal(Trim(whole + "." + frac)) == Some((whole, frac))
  {
    var s := whole + "." + frac;
    assert s[|s| - 1] == frac[1] && s[0] == whole[0];
    DigitsNotTrimmed(s);
    assert s == whole + ("." + frac);
    DecimalAccepts(whole, frac);
  }

  lemma TwoDecimalsExact(whole: string, frac: string)
    requires AllDigits(whole) && AllDigits(frac) && |frac| == 2
    ensures MinorOf(whole, frac) == Value(whole) * 100 + Value(frac)
  {
    var padded := (frac + "000")[..3];
    assert padded[..2] == frac && padded[2] == '0';
  }

  /** Parsing what was printed gives the amount back, for every amount that can be printed. */
  lemma {:induction false} ParsePrinted(m: nat)
    requires m <= MAX_SAFE
    ensures ToMinorUnitsExact(MinorUnitsToString(m).value) == Ok(m)
  {
    var w, f := Hundreds(m);
    PartsRead(MinorUnitsToString(m).value, m, w, f);
  }

  /** What is printed: the hundreds, a point, and the rest. */
  lemma {:induction false} Hundreds(m: nat) returns (w: nat, f: nat)
    requires m <= MAX_SAFE
    ensures m == w * 100 + f && f < 100
    ensures MinorUnitsToString(m) == Ok(NatToString(w) + "." + PadTwo(f))
  {
    w, f := m / 100, m % 100;
  }

  lemma {:induction false} PartsRead(s: string, m: nat, w: nat, f: nat)
    requires m == w * 100 + f && f < 100 && s == NatToString(w) + "." + PadTwo(f)
    ensures ToMinorUnitsExact(s) == Ok(m)
  {
    NatToStringValue(w);
    PadTwoValue(f);
    DigitsRead(s, m, NatToString(w), PadTwo(f));
  }

  lemma {:induction false} DigitsRead(s: string, m: nat, whole: string, frac: string)
    requires whole != "" && AllDigits(whole) && AllDigits(frac) && |frac| == 2
    requires s == whole + "." + frac && m == Value(whole) * 100 + Value(frac)
    ensures ToMinorUnitsExact(s) == Ok(m)
  {
    ParseTwoDecimals(whole, frac);
  }

  /** Exactly two decimals, no leading zero, nothing around it. */
  predicate Canonical(s: string) {
    && |s| >= 4 && s[|s| - 3] == '.'
    && AllDigits(s[..|s| - 3]) && AllDigits(s[|s| - 2..])
    && NoLeadingZero(s[..|s| - 3])
  }

  lemma PrintedIsCanonical(m: nat)
    requires m <= MAX_SAFE
    ensures Canonical(MinorUnitsToString(m).value)
  {
    var s, whole := MinorUnitsToString(m).value, NatToString(m / 100);
    NatToStringValue(m / 100);
    PadTwoValue(m % 100);
    assert s[..|s| - 3] == whole && s[|s| - 2..] == PadTwo(m % 100);
  }

  lemma CanonicalParts(s: string)
    requires Canonical(s)
    ensures s == s[..|s| - 3] + "." + s[|s| - 2..]
  {
  }

  lemma NumeralsPrint(whole: string, frac: string)
    requires AllDigits(whole) && NoLeadingZero(whole) && AllDigits(frac) && |frac| == 2
    ensures NatToString(Value(whole)) == whole && PadTwo(Value(frac)) == frac && Value(frac) < 100
  {
    NumeralUnique(whole);
    TwoDigits(frac);
    PadTwoUnique(frac);
  }

  lemma CanonicalPrints(s: string)
    requires Canonical(s)
    ensures ToMinorUnitsExact(s).Ok?
    ensures ToMinorUnitsExact(s).value <= MAX_SAFE ==> MinorUnitsToString(ToMinorUnitsExact(s).value) == Ok(s)
  {
    var whole, frac := s[..|s| - 3], s[|s| - 2..];
    CanonicalParts(s);
    ParseTwoDecimals(whole, frac);
    NumeralsPrint(whole, frac);
    PrintParts(Value(whole), Value(frac));
  }

  lemma PrintParts(w: nat, f: nat)
    requires f < 100
    ensures w * 100 + f <= MAX_SAFE ==> MinorUnitsToString(w * 100 + f) == Ok(NatToString(w) + "." + PadTwo(f))
  {
    assert (w * 100 + f) / 100 == w && (w * 100 + f) % 100 == f;
  }

  lemma PadTwoUnique(s: string)
    requires AllDigits(s) && |s| == 2
    ensures PadTwo(Value(s)) == s
  {
    TwoDigits(s);
    DigitOf(s[0]);
    DigitOf(s[1]);
    var n := Value(s);
    assert s == [s[0]] + [s[1]];
    if n >= 10 {
      assert n / 10 == DigitValue(s[0]) && n % 10 == DigitValue(s[1]);
      assert NatToString(n / 10) == [s[0]];
      assert NatToString(n) == [s[0]] + [s[1]];
    } else {
      assert s[0] == '0' && NatToString(n) == [s[1]];
      assert "0" == [s[0]];
    }
  }

  lemma DigitOf(c: char)
    requires IsDigit(c)
    ensures Digit(DigitValue(c)) == c
  {
  }

  /** Printing what was parsed gives the text back exactly when the text was canonical. */
  lemma PrintParsedIffCanonical(s: string)
    requires ToMinorUnitsExact(s).Ok? && ToMinorUnitsExact(s).value <= MAX_SAFE
    ensures MinorUnitsToString(ToMinorUnitsExact(s).value) == Ok(s) <==> Canonical(s)
  {
    PrintedIsCanonical(ToMinorUnitsExact(s).value);
    if Canonical(s) {
      CanonicalPrints(s);
    }
  }

  // ---------------------------------------------------------------- the split

  datatype Split = Split(
    grossMinor: nat, feeMinor: int, netMinor: int, gross: string, fee: string, net: string, rate: real)

  /** Math.round of a real. */
  function Round(x: real): int {
    (x + 0.5).Floor
  }

  function FeeMinor(grossMinor: nat, rate: real): int {
    Round(grossMinor as real * rate)
  }

  predicate ValidRate(rate: real) {
    0.0 <= rate < 1.0
  }

  /** rate: None for a text or number that is not finite. */
  function SplitEscrowAmounts(grossAmount: string, rate: Option<real>): Result<Split, AmountError> {
    if rate.None? || !ValidRate(rate.value) then Err(InvalidFeeRate)
    else
      match ToMinorUnitsExact(grossAmount)
      case Err(e) => Err(e)
      case Ok(grossMinor) =>
        var feeMinor := FeeMinor(grossMinor, rate.value);
        var netMinor := grossMinor - feeMinor;
        match (MinorUnitsToString(grossMinor), MinorUnitsToString(feeMinor), MinorUnitsToString(netMinor))
        case (Ok(gross), Ok(fee), Ok(net)) => Ok(Split(grossMinor, feeMinor, netMinor, gross, fee, net, rate.value))
        case _ => Err(InvalidMinorUnits)
  }

  lemma Product(g: real, r: real)
    requires 0.0 <= g && ValidRate(r)
    ensures 0.0 <= g * r <= g && (g > 0.0 ==> g * r < g)
  {
  }

  /** The fee is within half a unit of the exact one and never above the gross. */
  lemma FeeIsRounded(g: nat, r: real)
    requires ValidRate(r)
    ensures 0 <= FeeMinor(g, r) <= g
    ensures g as real * r - 0.5 < FeeMinor(g, r) as real <= g as real * r + 0.5
  {
    Product(g as real, r);
  }

  /** One more unit of gross goes entirely to the fee or entirely to the net. */
  lemma OneMoreUnit(g: nat, r: real)
    requires ValidRate(r)
    ensures FeeMinor(g + 1, r) == FeeMinor(g, r) || FeeMinor(g + 1, r) == FeeMinor(g, r) + 1
  {
    assert (g + 1) as real * r == g as real * r + r;
  }

  function Sum(parts: seq<nat>): nat {
    if parts == [] then 0 else Sum(parts[..|parts| - 1]) + parts[|parts| - 1]
  }

  function SumFees(parts: seq<nat>, r: real): int {
    if parts == [] then 0 else SumFees(parts[..|parts| - 1], r) + FeeMinor(parts[|parts| - 1], r)
  }

  lemma {:induction false} SumFeesNear(parts: seq<nat>, r: real)
    requires ValidRate(r)
    ensures Sum(parts) as real * r - 0.5 * |parts| as real <= SumFees(parts, r) as real
    ensures SumFees(parts, r) as real <= Sum(parts) as real * r + 0.5 * |parts| as real
  {
    if parts != [] {
      var init, last := parts[..|parts| - 1], parts[|parts| - 1];
      SumFeesNear(init, r);
      OneMorePart(Sum(init), SumFees(init, r), last, |init|, r);
    }
  }

  lemma {:induction false} OneMorePart(sum: nat, fees: int, last: nat, n: nat, r: real)
    requires ValidRate(r)
    requires sum as real * r - 0.5 * n as real <= fees as real <= sum as real * r + 0.5 * n as real
    ensures (sum + last) as real * r - 0.5 * (n + 1) as real < (fees + FeeMinor(last, r)) as real
    ensures (fees + FeeMinor(last, r)) as real <= (sum + last) as real * r + 0.5 * (n + 1) as real
  {
    FeeIsRounded(last, r);
    assert (sum + last) as real * r == sum as real * r + last as real * r;
  }

  /** Splitting a gross into n parts moves the summed fee by less than (n + 1) / 2 units. */
  lemma {:induction false} SplittingTheGross(parts: seq<nat>, r: real)
    requires ValidRate(r)
    ensures var moved := (SumFees(parts, r) - FeeMinor(Sum(parts), r)) as real;
      -0.5 * (|parts| + 1) as real < moved < 0.5 * (|parts| + 1) as real
  {
    if parts == [] {
      NoParts(r);
    } else {
      SumFeesNear(parts, r);
      StrictlyNear(parts, r);
      Moved(Sum(parts), SumFees(parts, r), |parts|, r);
    }
  }

  lemma {:induction false} NoParts(r: real)
    requires ValidRate(r)
    ensures SumFees([], r) == 0 == FeeMinor(Sum([]), r)
  {
    assert 0 as real * r == 0.0;
  }

  lemma {:induction false} Moved(g: nat, fees: int, n: nat, r: real)
    requires ValidRate(r)
    requires g as real * r - 0.5 * n as real < fees as real <= g as real * r + 0.5 * n as real
    ensures -0.5 * (n + 1) as real < (fees - FeeMinor(g, r)) as real < 0.5 * (n + 1) as real
  {
    FeeIsRounded(g, r);
  }

  /** The lower side is strict as soon as there is a part: rounding is half up. */
  lemma {:induction false} StrictlyNear(parts: seq<nat>, r: real)
    requires ValidRate(r) && parts != []
    ensures Sum(parts) as real * r - 0.5 * |parts| as real < SumFees(parts, r) as real
  {
    var init, last := parts[..|parts| - 1], parts[|parts| - 1];
    SumFeesNear(init, r);
    OneMorePart(Sum(init), SumFees(init, r), last, |init|, r);
  }

  lemma {:induction false} SplitValues(grossAmount: string, rate: real)
    requires ValidRate(rate) && ToMinorUnitsExact(grossAmount).Ok?
    ensures var g := ToMinorUnitsExact(grossAmount).value;
      var fee := FeeMinor(g, rate);
      && 0 <= fee <= g
      && SplitEscrowAmounts(grossAmount, Some(rate)) ==
           if g > MAX_SAFE then Err(InvalidMinorUnits)
           else Ok(Split(g, fee, g - fee, MinorUnitsToString(g).value, MinorUnitsToString(fee).value,
                         MinorUnitsToString(g - fee).value, rate))
  {
    FeeIsRounded(ToMinorUnitsExact(grossAmount).value, rate);
  }

  lemma {:induction false} SplitAccepts(grossAmount: string, rate: Option<real>)
    ensures SplitEscrowAmounts(grossAmount, rate).Ok? <==>
      && rate.Some? && ValidRate(rate.value)
      && ToMinorUnitsExact(grossAmount).Ok? && ToMinorUnitsExact(grossAmount).value <= MAX_SAFE
  {
    if rate.Some? && ValidRate(rate.value) && ToMinorUnitsExact(grossAmount).Ok? {
      SplitValues(grossAmount, rate.value);
    }
  }

  predicate ReadsBack(s: Split) {
    && ToMinorUnitsExact(s.gross) == Ok(s.grossMinor)
    && ToMinorUnitsExact(s.fee) == Ok(s.feeMinor) && ToMinorUnitsExact(s.net) == Ok(s.netMinor)
  }

  lemma {:induction false} PrintedReadsBack(gross: nat, fee: nat, rate: real)
    requires fee <= gross <= MAX_SAFE
    ensures ReadsBack(Split(gross, fee, gross - fee, MinorUnitsToString(gross).value, MinorUnitsToString(fee).value,
                            MinorUnitsToString(gross - fee).value, rate))
  {
    ParsePrinted(gross);
    ParsePrinted(fee);
    ParsePrinted(gross - fee);
  }

  /** amount is a text of v minor units that can be printed again. */
  ghost predicate Amounts(amount: string, v: nat) {
    v <= 9007199254740991 && exists before, whole, frac, after ::
      IsAmount(amount, before, whole, frac, after) && IsValueOf(v, whole, frac)
  }

  lemma {:induction false} ParsedAmounts(amount: string)
    ensures (exists v: nat :: Amounts(amount, v)) <==>
      ToMinorUnitsExact(amount).Ok? && ToMinorUnitsExact(amount).value <= MAX_SAFE
    ensures forall v: nat :: Amounts(amount, v) ==> ToMinorUnitsExact(amount) == Ok(v)
  {
    AcceptedIffAmount(amount);
    forall v: nat | Amounts(amount, v) ensures ToMinorUnitsExact(amount) == Ok(v) {
      var before, whole, frac, after :| IsAmount(amount, before, whole, frac, after) && IsValueOf(v, whole, frac);
      assert IsValueOf(ToMinorUnitsExact(amount).value, whole, frac);
      RoundedOnce(v, ToMinorUnitsExact(amount).value, whole, frac);
    }
    if ToMinorUnitsExact(amount).Ok? && ToMinorUnitsExact(amount).value <= MAX_SAFE {
      assert Amounts(amount, ToMinorUnitsExact(amount).value);
    }
  }

  lemma RoundedOnce(v: nat, w: nat, whole: string, frac: string)
    requires AllDigits(whole) && AllDigits(frac) && IsValueOf(v, whole, frac) && IsValueOf(w, whole, frac)
    ensures v == w
  {
    var d := 2 * Pow10(|frac|);
    MulMonoIf(d, v + 1, w);
    MulMonoIf(d, w + 1, v);
  }

  /** fee is rate times gross to within half a unit, and part of the gross. */
  predicate IsFee(fee: int, gross: nat, rate: real) {
    0 <= fee <= gross && gross as real * rate - 0.5 < fee as real <= gross as real * rate + 0.5
  }

  lemma {:induction false} FeeIsFee(gross: nat, rate: real)
    requires ValidRate(rate)
    ensures IsFee(FeeMinor(gross, rate), gross, rate)
  {
    FeeIsRounded(gross, rate);
  }

  /** The split that is made of these three amounts. */
  function Printed(gross: nat, fee: nat, rate: real): Split
    requires fee <= gross <= MAX_SAFE
  {
    Split(gross, fee, gross - fee, MinorUnitsToString(gross).value, MinorUnitsToString(fee).value,
          MinorUnitsToString(gross - fee).value, rate)
  }

  lemma {:induction false} SplitIsPrinted(grossAmount: string, rate: real)
    requires ValidRate(rate) && ToMinorUnitsExact(grossAmount).Ok?
    requires ToMinorUnitsExact(grossAmount).value <= MAX_SAFE
    ensures var g := ToMinorUnitsExact(grossAmount).value;
      && 0 <= FeeMinor(g, rate) <= g
      && SplitEscrowAmounts(grossAmount, Some(rate)) == Ok(Printed(g, FeeMinor(g, rate), rate))
  {
    SplitValues(grossAmount, rate);
  }

  lemma {:induction false} PrintedConserves(grossAmount: string, gross: nat, fee: nat, rate: real)
    requires gross <= MAX_SAFE && Amounts(grossAmount, gross) && IsFee(fee, gross, rate)
    ensures Conserves(Printed(gross, fee, rate), grossAmount, rate)
  {
    PrintedReadsBack(gross, fee, rate);
  }

  /** What a split says about its gross and its rate. */
  ghost predicate Conserves(s: Split, grossAmount: string, rate: real) {
    && Amounts(grossAmount, s.grossMinor) && s.rate == rate
    && IsFee(s.feeMinor, s.grossMinor, rate) && s.feeMinor + s.netMinor == s.grossMinor
    && ReadsBack(s)
  }

  lemma {:induction false} SplitContents(grossAmount: string, rate: real)
    requires ValidRate(rate) && ToMinorUnitsExact(grossAmount).Ok?
    requires ToMinorUnitsExact(grossAmount).value <= MAX_SAFE
    requires Amounts(grossAmount, ToMinorUnitsExact(grossAmount).value)
    ensures SplitEscrowAmounts(grossAmount, Some(rate)).Ok?
    ensures Conserves(SplitEscrowAmounts(grossAmount, Some(rate)).value, grossAmount, rate)
  {
    var g := ToMinorUnitsExact(grossAmount).value;
    SplitIsPrinted(grossAmount, rate);
    FeeIsFee(g, rate);
    PrintedConserves(grossAmount, g, FeeMinor(g, rate), rate);
  }

  /** The error of a refused split. */
  ghost function Refusal(grossAmount: string, rate: Option<real>): AmountError {
    if rate.None? || rate.value < 0.0 || rate.value >= 1.0 then InvalidFeeRate
    else if !ReadsAsAmount(grossAmount) then InvalidAmount(grossAmount)
    else InvalidMinorUnits
  }

  lemma {:induction false} SplitRefuses(grossAmount: string, rate: Option<real>)
    requires SplitEscrowAmounts(grossAmount, rate).Err?
    ensures SplitEscrowAmounts(grossAmount, rate).error == Refusal(grossAmount, rate)
  {
    AcceptedIffAmount(grossAmount);
    if rate.Some? && ValidRate(rate.value) && ToMinorUnitsExact(grossAmount).Ok? {
      SplitValues(grossAmount, rate.value);
    }
  }

  /**
    Conservation end to end.  A split is returned exactly for the amounts in the safe range and the
    rates in [0, 1); other rates, other texts and larger amounts are refused in that order.  The
    gross is the amount's value, the fee within half a unit of rate times gross, 0 <= fee <= gross,
    fee + net = gross, and the three printed amounts read back as these numbers.
   */
  lemma {:induction false} SplitConserves(grossAmount: string, rate: Option<real>)
    ensures SplitEscrowAmounts(grossAmount, rate).Ok? <==>
      rate.Some? && 0.0 <= rate.value < 1.0 && exists v: nat :: Amounts(grossAmount, v)
    ensures SplitEscrowAmounts(grossAmount, rate).Ok? ==>
      Conserves(SplitEscrowAmounts(grossAmount, rate).value, grossAmount, rate.value)
    ensures SplitEscrowAmounts(grossAmount, rate).Err? ==>
      SplitEscrowAmounts(grossAmount, rate).error == Refusal(grossAmount, rate)
  {
    SplitAccepts(grossAmount, rate);
    ParsedAmounts(grossAmount);
    if SplitEscrowAmounts(grossAmount, rate).Ok? {
      SplitContents(grossAmount, rate.value);
    } else {
      SplitRefuses(grossAmount, rate);
    }
  }
}
