/**
  Two readers of the W3C traceparent header (Trace Context, section 3.2): the regular expression of
  server/kafka.ts and the parser of ai-agent/api/telemetry.py.  Headers are ASCII text.
 */
module Traceparent {
  import opened Common
  import opened Texts

  predicate IsLowerHex(c: char) {
    '0' <= c <= '9' || 'a' <= c <= 'f'
  }

  predicate IsHex(c: char) {
    IsLowerHex(c) || 'A' <= c <= 'F'
  }

  predicate AllLowerHex(s: string) {
    forall i :: 0 <= i < |s| ==> IsLowerHex(s[i])
  }

  predicate AllHex(s: string) {
    forall i :: 0 <= i < |s| ==> IsHex(s[i])
  }

  // ---------------------------------------------------------------- server/kafka.ts

  /** /^00-[0-9a-f]{32}-[0-9a-f]{16}-[0-9a-f]{2}$/ */
  predicate Matches(v: string) {
    && |v| == 55
    && v[0] == '0' && v[1] == '0' && v[2] == '-' && AllLowerHex(v[3..35])
    && v[35] == '-' && AllLowerHex(v[36..52])
    && v[52] == '-' && AllLowerHex(v[53..])
  }

  /** A header that is null or undefined is absent. */
  function ExtractKafkaTraceparent(headers: Option<map<string, string>>): Option<string> {
    if headers.None? || "traceparent" !in headers.value then None
    else
      var value := headers.value["traceparent"];
      if Matches(value) then Some(value) else None
  }

  // ---------------------------------------------------------------- Python's int(s, 16)

  /** The ASCII characters that str.strip removes. */
  predicate IsSpace(c: char) {
    IsIntSpace(c) || 28 <= c as int <= 31
  }

  /** The ASCII characters that int() skips at both ends: fewer. */
  predicate IsIntSpace(c: char) {
    c == ' ' || 9 <= c as int <= 13
  }

  function Lstrip(space: char -> bool, s: string): string {
    if s != "" && space(s[0]) then Lstrip(space, s[1..]) else s
  }

  function Rstrip(space: char -> bool, s: string): string {
    if s != "" && space(s[|s| - 1]) then Rstrip(space, s[..|s| - 1]) else s
  }

  /** s.strip() */
  function Strip(s: string): string {
    Rstrip(IsSpace, Lstrip(IsSpace, s))
  }

  function IntStrip(s: string): string {
    Rstrip(IsIntSpace, Lstrip(IsIntSpace, s))
  }

  function HexDigitValue(c: char): (d: nat)
    requires IsHex(c)
    ensures d < 16
  {
    if c <= '9' then c as int - '0' as int
    else if c <= 'F' then c as int - 'A' as int + 10
    else c as int - 'a' as int + 10
  }

  /** Digits, with single underscores between them. */
  predicate IsNumeral(s: string) {
    && s != "" && s[0] != '_' && s[|s| - 1] != '_'
    && (forall i :: 0 <= i < |s| ==> IsHex(s[i]) || s[i] == '_')
    && forall i :: 0 < i < |s| ==> s[i] != '_' || s[i - 1] != '_'
  }

  function NumeralValue(s: string): nat
    requires forall i :: 0 <= i < |s| ==> IsHex(s[i]) || s[i] == '_'
  {
    if s == "" then 0
    else
      var rest := NumeralValue(s[..|s| - 1]);
      if s[|s| - 1] == '_' then rest else 16 * rest + HexDigitValue(s[|s| - 1])
  }

  function DropSign(s: string): string {
    if s != "" && (s[0] == '+' || s[0] == '-') then s[1..] else s
  }

  /** 0x or 0X, and one underscore after it. */
  function DropPrefix(s: string): string {
    if |s| >= 2 && s[0] == '0' && (s[1] == 'x' || s[1] == 'X') then
      if |s| > 2 && s[2] == '_' then s[3..] else s[2..]
    else s
  }

  /** int(s, 16), None for ValueError. */
  function Int16(s: string): Option<int> {
    var t := IntStrip(s);
    var digits := DropPrefix(DropSign(t));
    if !IsNumeral(digits) then None
    else
      var n: int := NumeralValue(digits);
      Some(if t[0] == '-' then -n else n)
  }

  // ---------------------------------------------------------------- ai-agent/api/telemetry.py

  function LowerChar(c: char): char {
    if 'A' <= c <= 'Z' then (c as int + 32) as char else c
  }

  /** s.lower() */
  function Lower(s: string): (r: string)
    ensures |r| == |s| && forall i :: 0 <= i < |s| ==> r[i] == LowerChar(s[i])
  {
    seq(|s|, i requires 0 <= i < |s| => LowerChar(s[i]))
  }

  datatype Fields = Fields(traceId: string, parentId: string, flags: string, sampled: bool)

  function ParseParts(version: string, traceId: string, parentId: string, flags: string): Option<Fields> {
    if |traceId| != 32 || Int16(traceId).None? || Int16(traceId).value == 0 then None
    else if |parentId| != 16 || Int16(parentId).None? || Int16(parentId).value == 0 then None
    else if |flags| != 2 || Int16(version).None? || Int16(flags).None? then None
    else Some(Fields(Lower(traceId), Lower(parentId), Lower(flags), Int16(flags).value % 2 == 1))
  }

  function ParseTraceparent(header: string): Option<Fields> {
    if header == "" then None
    else
      var parts := Split('-', Strip(header));
      if |parts| != 4 then None else ParseParts(parts[0], parts[1], parts[2], parts[3])
  }

  // ---------------------------------------------------------------- plain hexadecimal fields

  predicate AllZero(s: string) {
    forall i :: 0 <= i < |s| ==> s[i] == '0'
  }

  lemma StripKeeps(s: string)
    requires s != "" ==> !IsSpace(s[0]) && !IsSpace(s[|s| - 1])
    ensures Strip(s) == s && IntStrip(s) == s
  {
  }

  lemma {:induction false} ValueIsZero(s: string)
    requires AllHex(s)
    ensures NumeralValue(s) == 0 <==> AllZero(s)
  {
    if s != "" {
      var init, last := s[..|s| - 1], s[|s| - 1];
      ValueIsZero(init);
      assert AllZero(s) <==> AllZero(init) && last == '0';
    }
  }

  /** On plain hexadecimal digits int(s, 16) is their value. */
  lemma PlainHexIsRead(s: string)
    requires s != "" && AllHex(s)
    ensures Int16(s) == Some(NumeralValue(s))
    ensures Int16(s).value == 0 <==> AllZero(s)
  {
    assert IsHex(s[0]) && IsHex(s[|s| - 1]) && (|s| >= 2 ==> IsHex(s[1]));
    StripKeeps(s);
    assert DropSign(s) == s && DropPrefix(s) == s;
    ValueIsZero(s);
  }

  lemma LastDigitDecides(s: string)
    requires s != "" && AllHex(s)
    ensures NumeralValue(s) % 2 == HexDigitValue(s[|s| - 1]) % 2
  {
    assert IsHex(s[|s| - 1]);
    Parity(NumeralValue(s[..|s| - 1]), HexDigitValue(s[|s| - 1]));
  }

  lemma Parity(rest: nat, d: nat)
    ensures (16 * rest + d) % 2 == d % 2
  {
    assert 16 * rest + d == 2 * (8 * rest) + d;
  }

  // ---------------------------------------------------------------- what a digit is worth

  const HEX := "0123456789abcdef"

  /** A hexadecimal digit, in either case, is worth its position among the sixteen. */
  lemma HexDigitIsWorthItsPlace(c: char)
    ensures IsLowerHex(c) <==> c in HEX
    ensures IsHex(c) <==> LowerChar(c) in HEX
    ensures IsHex(c) ==> HEX[HexDigitValue(c)] == LowerChar(c)
  {
    assert forall d :: 0 <= d < 10 ==> HEX[d] as int == '0' as int + d;
    assert forall d :: 10 <= d < 16 ==> HEX[d] as int == 'a' as int + d - 10;
    if IsLowerHex(c) {
      assert HEX[HexDigitValue(c)] == c;
    }
    if IsLowerHex(LowerChar(c)) {
      assert HEX[HexDigitValue(LowerChar(c))] == LowerChar(c);
    }
  }

  const CAPITALS := "ABCDEFGHIJKLMNOPQRSTUVWXYZ"
  const SMALL := "abcdefghijklmnopqrstuvwxyz"

  /** lower() turns each capital into its small letter and leaves every other ASCII character. */
  lemma LowerIsSmallLetter(c: char)
    ensures c !in CAPITALS ==> LowerChar(c) == c
    ensures forall k :: 0 <= k < 26 && c == CAPITALS[k] ==> LowerChar(c) == SMALL[k]
  {
    assert forall k :: 0 <= k < 26 ==> CAPITALS[k] as int == 'A' as int + k;
    assert forall k :: 0 <= k < 26 ==> SMALL[k] as int == 'a' as int + k;
    if 'A' <= c <= 'Z' {
      assert CAPITALS[c as int - 'A' as int] == c;
    }
  }

  /** The ASCII white space of Python's str, and of its int(). */
  lemma SpacesAreListed(c: char)
    ensures IsSpace(c) <==> c in " \t\n\r\U{0B}\U{0C}\U{1C}\U{1D}\U{1E}\U{1F}"
    ensures IsIntSpace(c) <==> c in " \t\n\r\U{0B}\U{0C}"
  {
  }

  /** The odd digits. */
  lemma OddDigit(c: char)
    requires IsLowerHex(c)
    ensures HexDigitValue(c) % 2 == 1 <==> c in "13579bdf"
  {
    HexDigitIsWorthItsPlace(c);
  }

  predicate HexOrUnderscore(s: string) {
    forall i :: 0 <= i < |s| ==> IsHex(s[i]) || s[i] == '_'
  }

  /** 16 to the number of digits in s. */
  function Weight(s: string): (w: nat)
    ensures w > 0
  {
    if s == "" then 1 else (if s[|s| - 1] == '_' then 1 else 16) * Weight(s[..|s| - 1])
  }

  /** A numeral is read by position, and underscores count for nothing. */
  lemma {:induction false} NumeralConcat(a: string, b: string)
    requires HexOrUnderscore(a) && HexOrUnderscore(b)
    ensures HexOrUnderscore(a + b) && NumeralValue(a + b) == NumeralValue(a) * Weight(b) + NumeralValue(b)
  {
    if b == "" {
      assert a + b == a;
    } else {
      var init, last := b[..|b| - 1], b[|b| - 1];
      NumeralConcat(a, init);
      NumeralSnoc(a + init, last);
      NumeralSnoc(init, last);
      assert a + b == (a + init) + [last] && b == init + [last];
      SixteenTimes(NumeralValue(a), Weight(init));
    }
  }

  lemma NumeralSnoc(s: string, c: char)
    requires HexOrUnderscore(s) && (IsHex(c) || c == '_')
    ensures HexOrUnderscore(s + [c])
    ensures NumeralValue(s + [c]) == if c == '_' then NumeralValue(s) else 16 * NumeralValue(s) + HexDigitValue(c)
    ensures Weight(s + [c]) == (if c == '_' then 1 else 16) * Weight(s)
  {
    assert (s + [c])[..|s|] == s;
  }

  lemma SixteenTimes(v: nat, w: nat)
    ensures 16 * (v * w) == v * (16 * w)
  {
  }

  /** n in hexadecimal, without leading zeros. */
  function HexOf(n: nat): (s: string)
    ensures s != "" && AllHex(s)
  {
    if n < 16 then [LowerDigit(n)] else HexOf(n / 16) + [LowerDigit(n % 16)]
  }

  function LowerDigit(d: nat): (c: char)
    requires d < 16
    ensures IsLowerHex(c) && HexDigitValue(c) == d
  {
    if d < 10 then ('0' as int + d) as char else ('a' as int + d - 10) as char
  }

  /** int(s, 16) undoes printing in hexadecimal, for every number. */
  lemma {:induction false} HexReadsBack(n: nat)
    ensures Int16(HexOf(n)) == Some(n)
  {
    PlainHexIsRead(HexOf(n));
    HexOfValue(n);
  }

  lemma {:induction false} HexOfValue(n: nat)
    ensures NumeralValue(HexOf(n)) == n
  {
    if n < 16 {
      assert [LowerDigit(n)][..0] == "";
    } else {
      HexOfValue(n / 16);
      var init := HexOf(n / 16);
      assert (init + [LowerDigit(n % 16)])[..|init|] == init;
    }
  }

  // ---------------------------------------------------------------- which texts int(s, 16) takes

  /** Nonempty runs of digits with single underscores between them. */
  predicate DigitRuns(pieces: seq<string>) {
    forall i :: 0 <= i < |pieces| ==> pieces[i] != "" && AllHex(pieces[i])
  }

  /** The same for a text whose first run may be empty. */
  predicate LaterRuns(pieces: seq<string>)
    requires pieces != []
  {
    AllHex(pieces[0]) && DigitRuns(pieces[1..])
  }

  predicate NoLooseUnderscore(s: string) {
    && HexOrUnderscore(s) && (s != "" ==> s[|s| - 1] != '_')
    && forall i :: 0 < i < |s| ==> s[i] != '_' || s[i - 1] != '_'
  }

  lemma NumeralCons(c: char, s: string)
    ensures NoLooseUnderscore([c] + s) <==> if c == '_' then IsNumeral(s) else IsHex(c) && NoLooseUnderscore(s)
  {
    var t := [c] + s;
    assert t[0] == c && forall i :: 0 < i < |t| ==> t[i] == s[i - 1];
    assert s != "" ==> t[|t| - 1] == s[|s| - 1];
    if NoLooseUnderscore(t) {
      assert forall i :: 0 <= i < |s| ==> s[i] == t[i + 1];
    }
  }

  lemma RunsCons(c: char, s: string)
    ensures Split('_', [c] + s) != []
    ensures LaterRuns(Split('_', [c] + s)) <==>
      if c == '_' then DigitRuns(Split('_', s)) else IsHex(c) && LaterRuns(Split('_', s))
  {
    var pieces := Split('_', s);
    assert ([c] + s)[1..] == s;
    if c == '_' {
      assert ([""] + pieces)[1..] == pieces;
    } else {
      var first := [c] + pieces[0];
      assert ([first] + pieces[1..])[1..] == pieces[1..];
      assert first[0] == c && forall i :: 0 < i < |first| ==> first[i] == pieces[0][i - 1];
      assert AllHex(first) ==> forall i :: 0 <= i < |pieces[0]| ==> pieces[0][i] == first[i + 1];
    }
  }

  lemma FirstRun(s: string)
    ensures DigitRuns(Split('_', s)) <==> s != "" && s[0] != '_' && LaterRuns(Split('_', s))
  {
    var pieces := Split('_', s);
    assert pieces == [pieces[0]] + pieces[1..];
  }

  lemma {:induction false} RunsAreNumerals(s: string)
    ensures LaterRuns(Split('_', s)) <==> NoLooseUnderscore(s)
    ensures DigitRuns(Split('_', s)) <==> IsNumeral(s)
  {
    FirstRun(s);
    if s != "" {
      assert s == [s[0]] + s[1..];
      RunsAreNumerals(s[1..]);
      RunsCons(s[0], s[1..]);
      NumeralCons(s[0], s[1..]);
    }
  }

  predicate AllOf(space: char -> bool, s: string) {
    forall i :: 0 <= i < |s| ==> space(s[i])
  }

  /** s is spaces, a sign, a prefix, runs of digits joined by underscores, and spaces. */
  predicate IsIntText(s: string, before: string, sign: string, prefix: string, runs: seq<string>, after: string) {
    && s == before + (sign + (prefix + (Join('_', runs) + after)))
    && AllOf(IsIntSpace, before) && AllOf(IsIntSpace, after)
    && sign in {"", "+", "-"} && prefix in {"", "0x", "0X", "0x_", "0X_"}
    && runs != [] && DigitRuns(runs)
  }

  lemma ConsAllOf(space: char -> bool, c: char, rest: string)
    requires space(c) && AllOf(space, rest)
    ensures AllOf(space, [c] + rest) && AllOf(space, rest + [c])
  {
    assert forall i :: 0 < i < |[c] + rest| ==> ([c] + rest)[i] == rest[i - 1];
  }

  lemma {:induction false} LstripCuts(space: char -> bool, s: string) returns (before: string)
    ensures s == before + Lstrip(space, s) && AllOf(space, before)
  {
    before := "";
    if s != "" && space(s[0]) {
      var rest := LstripCuts(space, s[1..]);
      ConsAllOf(space, s[0], rest);
      before := [s[0]] + rest;
      assert s == [s[0]] + s[1..];
    }
  }

  lemma {:induction false} RstripCuts(space: char -> bool, s: string) returns (after: string)
    ensures s == Rstrip(space, s) + after && AllOf(space, after)
  {
    after := "";
    if s != "" && space(s[|s| - 1]) {
      var rest := RstripCuts(space, s[..|s| - 1]);
      ConsAllOf(space, s[|s| - 1], rest);
      after := rest + [s[|s| - 1]];
      assert s == s[..|s| - 1] + [s[|s| - 1]];
    }
  }

  lemma {:induction false} LstripStart(space: char -> bool, s: string)
    ensures Lstrip(space, s) != "" ==> !space(Lstrip(space, s)[0])
  {
    if s != "" {
      LstripStart(space, s[1..]);
    }
  }

  lemma {:induction false} RstripEnd(space: char -> bool, s: string)
    ensures var t := Rstrip(space, s); t != "" ==> !space(t[|t| - 1])
  {
    if s != "" {
      RstripEnd(space, s[..|s| - 1]);
    }
  }

  lemma {:induction false} LstripDrops(space: char -> bool, before: string, s: string)
    requires AllOf(space, before) && (s != "" ==> !space(s[0]))
    ensures Lstrip(space, before + s) == s
  {
    if before == "" {
      assert before + s == s;
    } else {
      assert (before + s)[0] == before[0] && (before + s)[1..] == before[1..] + s;
      LstripDrops(space, before[1..], s);
    }
  }

  lemma {:induction false} RstripDrops(space: char -> bool, s: string, after: string)
    requires AllOf(space, after) && (s != "" ==> !space(s[|s| - 1]))
    ensures Rstrip(space, s + after) == s
  {
    if after == "" {
      assert s + after == s;
    } else {
      var n := |after| - 1;
      assert (s + after)[|s + after| - 1] == after[n] && (s + after)[..|s + after| - 1] == s + after[..n];
      RstripDrops(space, s, after[..n]);
    }
  }

  /** A sign is dropped from what does not begin with one, and a prefix from digits. */
  lemma SignDrops(sign: string, t: string)
    requires sign in {"", "+", "-"} && t != "" && t[0] != '+' && t[0] != '-'
    ensures DropSign(sign + t) == t
  {
    assert sign == "" ==> sign + t == t;
    assert sign != "" ==> (sign + t)[0] == sign[0] && (sign + t)[1..] == t;
  }

  lemma {:induction false} PrefixDrops(prefix: string, digits: string)
    requires prefix in {"", "0x", "0X", "0x_", "0X_"} && IsNumeral(digits)
    ensures DropPrefix(prefix + digits) == digits
    ensures var t := prefix + digits; t != "" && IsHex(t[0]) && t[|t| - 1] == digits[|digits| - 1]
  {
    var t := prefix + digits;
    if prefix == "" {
      assert t == digits;
    } else if |prefix| == 2 {
      assert t[0] == '0' && t[1] == prefix[1] && t[2] == digits[0] && t[2..] == digits;
    } else {
      assert t[0] == '0' && t[1] == prefix[1] && t[2] == '_' && t[3..] == digits;
    }
  }

  lemma SignCut(t: string) returns (sign: string)
    ensures sign in {"", "+", "-"} && t == sign + DropSign(t) && (t != "" ==> (t[0] == '-' <==> sign == "-"))
  {
    if t != "" && (t[0] == '+' || t[0] == '-') {
      sign := [t[0]];
      assert sign == "+" || sign == "-";
    } else {
      sign := "";
    }
  }

  lemma PrefixCut(u: string) returns (prefix: string)
    ensures prefix in {"", "0x", "0X", "0x_", "0X_"} && u == prefix + DropPrefix(u)
  {
    if |u| >= 2 && u[0] == '0' && (u[1] == 'x' || u[1] == 'X') {
      prefix := if |u| > 2 && u[2] == '_' then [u[0], u[1], '_'] else [u[0], u[1]];
      assert prefix == "0x" || prefix == "0X" || prefix == "0x_" || prefix == "0X_";
    } else {
      prefix := "";
    }
  }

  /** Such a text is read as its runs of digits, with its sign. */
  lemma IntTextIsRead(s: string, before: string, sign: string, prefix: string, runs: seq<string>, after: string)
    requires IsIntText(s, before, sign, prefix, runs, after)
    ensures IsNumeral(Join('_', runs))
    ensures Int16(s) == Some(SignedValue(sign, Join('_', runs)))
  {
    RunsSplit(runs);
    RunsAreNumerals(Join('_', runs));
    NumeralIsRead(s, before, sign, prefix, Join('_', runs), after);
  }

  lemma NumeralIsRead(s: string, before: string, sign: string, prefix: string, digits: string, after: string)
    requires s == before + (sign + (prefix + (digits + after)))
    requires AllOf(IsIntSpace, before) && AllOf(IsIntSpace, after)
    requires sign in {"", "+", "-"} && prefix in {"", "0x", "0X", "0x_", "0X_"} && IsNumeral(digits)
    ensures Int16(s) == Some(SignedValue(sign, digits))
  {
    var t := sign + (prefix + digits);
    PrefixDrops(prefix, digits);
    SignDrops(sign, prefix + digits);
    EndsOfIntText(sign, prefix + digits);
    Regroup(before, sign, prefix, digits, after);
    StripsTo(s, before, t, after);
    ReadAs(s, t, sign, digits);
  }

  lemma ReadAs(s: string, t: string, sign: string, digits: string)
    requires IntStrip(s) == t && t != "" && (t[0] == '-' <==> sign == "-")
    requires DropPrefix(DropSign(t)) == digits && IsNumeral(digits)
    ensures Int16(s) == Some(SignedValue(sign, digits))
  {
  }

  lemma Regroup(before: string, sign: string, prefix: string, digits: string, after: string)
    ensures before + (sign + (prefix + (digits + after))) == before + ((sign + (prefix + digits)) + after)
  {
    assert sign + (prefix + (digits + after)) == (sign + (prefix + digits)) + after;
  }

  lemma StripsTo(s: string, before: string, t: string, after: string)
    requires s == before + (t + after) && AllOf(IsIntSpace, before) && AllOf(IsIntSpace, after)
    requires t != "" && !IsIntSpace(t[0]) && !IsIntSpace(t[|t| - 1])
    ensures IntStrip(s) == t
  {
    assert (t + after)[0] == t[0];
    LstripDrops(IsIntSpace, before, t + after);
    RstripDrops(IsIntSpace, t, after);
  }

  lemma StripsOff(s: string) returns (before: string, after: string)
    ensures s == before + (IntStrip(s) + after) && AllOf(IsIntSpace, before) && AllOf(IsIntSpace, after)
  {
    before := LstripCuts(IsIntSpace, s);
    after := RstripCuts(IsIntSpace, Lstrip(IsIntSpace, s));
  }

  function SignedValue(sign: string, digits: string): int
    requires HexOrUnderscore(digits)
  {
    var n: int := NumeralValue(digits);
    if sign == "-" then -n else n
  }

  lemma EndsOfIntText(sign: string, u: string)
    requires sign in {"", "+", "-"} && u != "" && IsHex(u[0]) && (IsHex(u[|u| - 1]) || u[|u| - 1] == '_')
    ensures var t := sign + u;
      && t != "" && !IsIntSpace(t[0]) && !IsIntSpace(t[|t| - 1]) && (t[0] == '-' <==> sign == "-")
  {
    var t := sign + u;
    assert t[0] == if sign == "" then u[0] else sign[0];
    assert t[|t| - 1] == u[|u| - 1];
  }

  lemma RunsSplit(runs: seq<string>)
    requires runs != [] && DigitRuns(runs)
    ensures Split('_', Join('_', runs)) == runs
  {
    forall i | 0 <= i < |runs| ensures '_' !in runs[i] {
      assert AllHex(runs[i]) && !IsHex('_');
    }
    SplitJoin('_', runs);
  }

  ghost predicate IsInt(s: string) {
    exists before, sign, prefix, runs, after :: IsIntText(s, before, sign, prefix, runs, after)
  }

  /**
    int(s, 16) on the text alone: it takes spaces, a sign, a prefix 0x with or without an underscore,
    runs of hexadecimal digits joined by underscores, and spaces; and nothing else.
   */
  lemma Int16TakesIff(s: string)
    ensures Int16(s).Some? <==> IsInt(s)
    ensures forall before, sign, prefix, runs, after :: IsIntText(s, before, sign, prefix, runs, after) ==>
      && HexOrUnderscore(Join('_', runs)) && Int16(s) == Some(SignedValue(sign, Join('_', runs)))
  {
    forall before, sign, prefix, runs, after | IsIntText(s, before, sign, prefix, runs, after)
      ensures HexOrUnderscore(Join('_', runs)) && Int16(s) == Some(SignedValue(sign, Join('_', runs)))
    {
      IntTextIsRead(s, before, sign, prefix, runs, after);
    }
    if Int16(s).Some? {
      TakenIsIntText(s);
    }
  }

  lemma TakenIsIntText(s: string)
    requires Int16(s).Some?
    ensures IsInt(s)
  {
    var t := IntStrip(s);
    var digits := DropPrefix(DropSign(t));
    var before, after := StripsOff(s);
    var sign := SignCut(t);
    var prefix := PrefixCut(DropSign(t));
    RunsAreNumerals(digits);
    JoinSplit('_', digits);
    Regroup(before, sign, prefix, digits, after);
    assert IsIntText(s, before, sign, prefix, Split('_', digits), after);
  }

  /** The header of four fields. */
  function Header(version: string, traceId: string, parentId: string, flags: string): string {
    Join('-', [version, traceId, parentId, flags])
  }

  lemma HeaderIs(version: string, traceId: string, parentId: string, flags: string)
    ensures Header(version, traceId, parentId, flags)
         == version + (['-'] + (traceId + (['-'] + (parentId + (['-'] + flags)))))
  {
    JoinCons('-', version, [traceId, parentId, flags]);
    JoinCons('-', traceId, [parentId, flags]);
    JoinCons('-', parentId, [flags]);
    assert [traceId] + [parentId, flags] == [traceId, parentId, flags];
    assert [parentId] + [flags] == [parentId, flags];
    assert [version] + [traceId, parentId, flags] == [version, traceId, parentId, flags];
  }

  lemma NoDash(s: string)
    requires AllHex(s)
    ensures '-' !in s
  {
    assert !IsHex('-');
    assert forall i :: 0 <= i < |s| ==> IsHex(s[i]);
  }

  /** A header is read field by field. */
  lemma HeaderSplits(version: string, traceId: string, parentId: string, flags: string)
    requires version != "" && !IsSpace(version[0]) && flags != "" && !IsSpace(flags[|flags| - 1])
    requires '-' !in version && '-' !in traceId && '-' !in parentId && '-' !in flags
    ensures ParseTraceparent(Header(version, traceId, parentId, flags))
         == ParseParts(version, traceId, parentId, flags)
  {
    var h := Header(version, traceId, parentId, flags);
    HeaderIs(version, traceId, parentId, flags);
    assert h[0] == version[0] && h[|h| - 1] == flags[|flags| - 1];
    StripKeeps(h);
    SplitJoin('-', [version, traceId, parentId, flags]);
  }

  lemma HeaderIsRead(version: string, traceId: string, parentId: string, flags: string)
    requires version != "" && flags != ""
    requires AllHex(version) && AllHex(traceId) && AllHex(parentId) && AllHex(flags)
    ensures ParseTraceparent(Header(version, traceId, parentId, flags))
         == ParseParts(version, traceId, parentId, flags)
  {
    NoDash(version);
    NoDash(traceId);
    NoDash(parentId);
    NoDash(flags);
    assert IsHex(version[0]) && IsHex(flags[|flags| - 1]);
    HeaderSplits(version, traceId, parentId, flags);
  }

  /** The shape of the three fields of a header, plain digits of either case. */
  predicate PlainFields(traceId: string, parentId: string, flags: string) {
    |traceId| == 32 && |parentId| == 16 && |flags| == 2 && AllHex(traceId) && AllHex(parentId) && AllHex(flags)
  }

  lemma PartsAreRead(version: string, traceId: string, parentId: string, flags: string)
    requires version != "" && AllHex(version) && PlainFields(traceId, parentId, flags)
    ensures ParseParts(version, traceId, parentId, flags) ==
      if AllZero(traceId) || AllZero(parentId) then None
      else Some(Fields(Lower(traceId), Lower(parentId), Lower(flags), HexDigitValue(flags[1]) % 2 == 1))
  {
    PlainHexIsRead(version);
    PlainHexIsRead(traceId);
    PlainHexIsRead(parentId);
    PlainHexIsRead(flags);
    LastDigitDecides(flags);
  }

  // ---------------------------------------------------------------- where the two agree

  lemma LowerIsSame(s: string)
    requires AllLowerHex(s)
    ensures Lower(s) == s && AllHex(s)
  {
  }

  /** The headers the regular expression accepts are those of version 00 with lower-case fields. */
  lemma MatchesHeader(traceId: string, parentId: string, flags: string)
    requires |traceId| == 32 && |parentId| == 16 && |flags| == 2
    ensures Matches(Header("00", traceId, parentId, flags)) <==>
      AllLowerHex(traceId) && AllLowerHex(parentId) && AllLowerHex(flags)
  {
    var h := Header("00", traceId, parentId, flags);
    HeaderIs("00", traceId, parentId, flags);
    assert h[3..35] == traceId && h[36..52] == parentId && h[53..] == flags;
  }

  lemma MatchIsHeader(v: string)
    requires Matches(v)
    ensures v == Header("00", v[3..35], v[36..52], v[53..])
  {
    HeaderIs("00", v[3..35], v[36..52], v[53..]);
    assert v[..2] == "00" && v == v[..2] + ([v[2]] + (v[3..35] + ([v[35]] + (v[36..52] + ([v[52]] + v[53..])))));
  }

  /** v is version 00 and three fields of 32, 16 and 2 of the sixteen small digits, joined by dashes. */
  predicate IsCanonical(v: string, traceId: string, parentId: string, flags: string) {
    && v == Header("00", traceId, parentId, flags)
    && |traceId| == 32 && |parentId| == 16 && |flags| == 2
    && forall c :: c in traceId + parentId + flags ==> c in HEX
  }

  lemma LowerHexIsListed(s: string)
    ensures AllLowerHex(s) <==> forall c :: c in s ==> c in HEX
  {
    forall i | 0 <= i < |s| ensures IsLowerHex(s[i]) <==> s[i] in HEX {
      HexDigitIsWorthItsPlace(s[i]);
    }
    assert (forall c :: c in s ==> c in HEX) ==> forall i :: 0 <= i < |s| ==> s[i] in HEX;
  }

  lemma CanonicalIffMatches(v: string, traceId: string, parentId: string, flags: string)
    requires v == Header("00", traceId, parentId, flags) && |traceId| == 32 && |parentId| == 16 && |flags| == 2
    ensures IsCanonical(v, traceId, parentId, flags) <==> Matches(v)
  {
    MatchesHeader(traceId, parentId, flags);
    LowerHexIsListed(traceId);
    LowerHexIsListed(parentId);
    LowerHexIsListed(flags);
    assert forall c :: c in traceId + parentId + flags <==> c in traceId || c in parentId || c in flags;
  }

  /** The Kafka side hands out the header it finds, exactly if it is there and has that form. */
  lemma ExtractedIffCanonical(headers: Option<map<string, string>>, v: string)
    ensures ExtractKafkaTraceparent(headers) == Some(v) <==>
      && headers.Some? && "traceparent" in headers.value && headers.value["traceparent"] == v
      && exists traceId, parentId, flags :: IsCanonical(v, traceId, parentId, flags)
  {
    if Matches(v) {
      MatchIsHeader(v);
      CanonicalIffMatches(v, v[3..35], v[36..52], v[53..]);
    }
    if exists traceId, parentId, flags :: IsCanonical(v, traceId, parentId, flags) {
      var traceId, parentId, flags :| IsCanonical(v, traceId, parentId, flags);
      CanonicalIffMatches(v, traceId, parentId, flags);
    }
  }

  /**
    Of the headers the Kafka side accepts, the Python side accepts exactly those with non-zero ids;
    it returns their fields unchanged, sampled exactly if the last digit is odd, and the fields put
    together again with version 00 are the header.
   */
  lemma ReadersAgree(headers: map<string, string>, v: string)
    requires ExtractKafkaTraceparent(Some(headers)) == Some(v)
    ensures |v| == 55
    ensures ParseTraceparent(v).Some? <==> !AllZero(v[3..35]) && !AllZero(v[36..52])
    ensures ParseTraceparent(v).Some? ==>
      var f := ParseTraceparent(v).value;
      && f == Fields(v[3..35], v[36..52], v[53..], v[54] in "13579bdf")
      && Header("00", f.traceId, f.parentId, f.flags) == v
  {
    var traceId, parentId, flags := v[3..35], v[36..52], v[53..];
    MatchIsHeader(v);
    LowerIsSame(traceId);
    LowerIsSame(parentId);
    LowerIsSame(flags);
    assert flags[1] == v[54];
    HeaderIsRead("00", traceId, parentId, flags);
    PartsAreRead("00", traceId, parentId, flags);
    OddDigit(v[54]);
  }

  // ---------------------------------------------------------------- which headers the Python side accepts

  /** The four fields of a header and the white space around them. */
  datatype Cut = Cut(before: string, version: string, traceId: string, parentId: string, flags: string, after: string)

  predicate NonZero(s: string) {
    Int16(s).Some? && Int16(s).value != 0
  }

  /** The fields have their lengths and are numbers, the ids other than 0. */
  predicate AreNumbers(c: Cut) {
    && |c.traceId| == 32 && |c.parentId| == 16 && |c.flags| == 2
    && Int16(c.version).Some? && NonZero(c.traceId) && NonZero(c.parentId) && Int16(c.flags).Some?
  }

  /** header is white space, four fields joined by dashes, and white space; the fields are numbers. */
  ghost predicate IsHeader(header: string, c: Cut) {
    && header == c.before + (Header(c.version, c.traceId, c.parentId, c.flags) + c.after)
    && AllOf(IsSpace, c.before) && AllOf(IsSpace, c.after)
    && NoneHas('-', [c.version, c.traceId, c.parentId, c.flags])
    && AreNumbers(c)
    && c.version != "" && !IsSpace(c.version[0]) && !IsSpace(c.flags[1])
  }

  lemma HeaderIsStripped(header: string, c: Cut)
    requires IsHeader(header, c)
    ensures Strip(header) == Header(c.version, c.traceId, c.parentId, c.flags)
  {
    var h := Header(c.version, c.traceId, c.parentId, c.flags);
    HeaderIs(c.version, c.traceId, c.parentId, c.flags);
    assert h[0] == c.version[0] && h[|h| - 1] == c.flags[1] && (h + c.after)[0] == h[0];
    LstripDrops(IsSpace, c.before, h + c.after);
    RstripDrops(IsSpace, h, c.after);
  }

  lemma HeaderIsAccepted(header: string, c: Cut)
    requires IsHeader(header, c)
    ensures ParseTraceparent(header) ==
      Some(Fields(Lower(c.traceId), Lower(c.parentId), Lower(c.flags), Int16(c.flags).value % 2 == 1))
  {
    HeaderIsStripped(header, c);
    SplitJoin('-', [c.version, c.traceId, c.parentId, c.flags]);
    HeaderIs(c.version, c.traceId, c.parentId, c.flags);
  }

  lemma AcceptedNumbers(header: string, c: Cut)
    requires ParseTraceparent(header).Some?
    requires Split('-', Strip(header)) == [c.version, c.traceId, c.parentId, c.flags]
    ensures AreNumbers(c) && c.version != ""
  {
    NothingIsNoNumber(c.version);
  }

  lemma EndsOfHeader(h: string, c: Cut)
    requires h == Header(c.version, c.traceId, c.parentId, c.flags) && c.version != "" && |c.flags| == 2
    requires !IsSpace(h[0]) && !IsSpace(h[|h| - 1])
    ensures !IsSpace(c.version[0]) && !IsSpace(c.flags[1])
  {
    HeaderIs(c.version, c.traceId, c.parentId, c.flags);
    assert h[0] == c.version[0] && h[|h| - 1] == c.flags[1];
  }

  lemma StripCuts(s: string) returns (before: string, after: string)
    ensures s == before + (Strip(s) + after) && AllOf(IsSpace, before) && AllOf(IsSpace, after)
  {
    before := LstripCuts(IsSpace, s);
    after := RstripCuts(IsSpace, Lstrip(IsSpace, s));
  }

  lemma CutIsHeader(header: string, h: string, c: Cut)
    requires header == c.before + (h + c.after) && AllOf(IsSpace, c.before) && AllOf(IsSpace, c.after)
    requires Split('-', h) == [c.version, c.traceId, c.parentId, c.flags]
    requires h != "" && !IsSpace(h[0]) && !IsSpace(h[|h| - 1]) && AreNumbers(c) && c.version != ""
    ensures IsHeader(header, c)
  {
    JoinSplit('-', h);
    NoPieceHasSeparator('-', h);
    EndsOfHeader(h, c);
  }

  function CutOf(before: string, parts: seq<string>, after: string): (c: Cut)
    requires |parts| == 4
    ensures parts == [c.version, c.traceId, c.parentId, c.flags] && c.before == before && c.after == after
  {
    Cut(before, parts[0], parts[1], parts[2], parts[3], after)
  }

  lemma AcceptedHasFour(header: string)
    requires ParseTraceparent(header).Some?
    ensures |Split('-', Strip(header))| == 4 && Strip(header) != ""
  {
    assert Split('-', "") == [""];
  }

  lemma AcceptedIsHeader(header: string) returns (c: Cut)
    requires ParseTraceparent(header).Some?
    ensures IsHeader(header, c)
  {
    AcceptedHasFour(header);
    var h := Strip(header);
    var before, after := StripCuts(header);
    c := CutOf(before, Split('-', h), after);
    AcceptedNumbers(header, c);
    StripEnds(header);
    CutIsHeader(header, h, c);
  }

  lemma NothingIsNoNumber(s: string)
    requires Int16(s).Some?
    ensures s != ""
  {
  }

  lemma StripEnds(s: string)
    requires Strip(s) != ""
    ensures !IsSpace(Strip(s)[0]) && !IsSpace(Strip(s)[|Strip(s)| - 1])
  {
    var t := Lstrip(IsSpace, s);
    LstripStart(IsSpace, s);
    RstripEnd(IsSpace, t);
    var after := RstripCuts(IsSpace, t);
    assert t[0] == Strip(s)[0];
  }

  /**
    The Python side on the text of the header: it accepts exactly white space, a version, ids of 32
    and 16 characters that are not zero, flags of 2, joined by dashes, and white space, each field
    being what int(s, 16) takes; it returns the fields in small letters and the low bit of the flags.
   */
  lemma AcceptedIffHeader(header: string)
    ensures ParseTraceparent(header).Some? <==> exists c :: IsHeader(header, c)
    ensures forall c :: IsHeader(header, c) ==>
      ParseTraceparent(header) ==
        Some(Fields(Lower(c.traceId), Lower(c.parentId), Lower(c.flags), Int16(c.flags).value % 2 == 1))
  {
    if ParseTraceparent(header).Some? {
      var c := AcceptedIsHeader(header);
      assert IsHeader(header, c);
    }
    forall c | IsHeader(header, c)
      ensures ParseTraceparent(header) ==
        Some(Fields(Lower(c.traceId), Lower(c.parentId), Lower(c.flags), Int16(c.flags).value % 2 == 1))
    {
      HeaderIsAccepted(header, c);
    }
  }

  // ---------------------------------------------------------------- where they differ

  lemma LowerOfHex(s: string)
    requires AllHex(s)
    ensures AllLowerHex(Lower(s)) && (AllZero(Lower(s)) <==> AllZero(s))
    ensures forall i :: 0 <= i < |s| ==> HexDigitValue(Lower(s)[i]) == HexDigitValue(s[i])
  {
    forall i | 0 <= i < |s|
      ensures IsLowerHex(Lower(s)[i]) && (Lower(s)[i] == '0' <==> s[i] == '0')
      ensures HexDigitValue(Lower(s)[i]) == HexDigitValue(s[i])
    {
      assert IsHex(s[i]) && Lower(s)[i] == LowerChar(s[i]);
    }
    assert forall i :: 0 <= i < |s| ==> (Lower(s)[i] == '0' <==> s[i] == '0');
  }

  /**
    The Python side also accepts any hexadecimal version and upper-case digits.  The fields it
    returns, put together with version 00, are then a header both sides accept, with those fields.
   */
  lemma ParsedFieldsAreCanonical(version: string, traceId: string, parentId: string, flags: string)
    requires version != "" && AllHex(version) && PlainFields(traceId, parentId, flags)
    requires !AllZero(traceId) && !AllZero(parentId)
    ensures ParseTraceparent(Header(version, traceId, parentId, flags)).Some?
    ensures var f := ParseTraceparent(Header(version, traceId, parentId, flags)).value;
      var canonical := Header("00", f.traceId, f.parentId, f.flags);
      && Matches(canonical) && ParseTraceparent(canonical) == Some(f)
    ensures Matches(Header(version, traceId, parentId, flags)) <==>
      version == "00" && AllLowerHex(traceId) && AllLowerHex(parentId) && AllLowerHex(flags)
  {
    HeaderIsRead(version, traceId, parentId, flags);
    PartsAreRead(version, traceId, parentId, flags);
    CanonicalIsRead(traceId, parentId, flags);
    VersionIsFixed(version, traceId, parentId, flags);
  }

  lemma CanonicalIsRead(traceId: string, parentId: string, flags: string)
    requires PlainFields(traceId, parentId, flags) && !AllZero(traceId) && !AllZero(parentId)
    ensures var canonical := Header("00", Lower(traceId), Lower(parentId), Lower(flags));
      && Matches(canonical)
      && ParseTraceparent(canonical) ==
           Some(Fields(Lower(traceId), Lower(parentId), Lower(flags), HexDigitValue(flags[1]) % 2 == 1))
  {
    LowerOfHex(traceId);
    LowerOfHex(parentId);
    LowerOfHex(flags);
    LowerIsSame(Lower(traceId));
    LowerIsSame(Lower(parentId));
    LowerIsSame(Lower(flags));
    MatchesHeader(Lower(traceId), Lower(parentId), Lower(flags));
    HeaderIsRead("00", Lower(traceId), Lower(parentId), Lower(flags));
    PartsAreRead("00", Lower(traceId), Lower(parentId), Lower(flags));
  }

  lemma VersionIsFixed(version: string, traceId: string, parentId: string, flags: string)
    requires AllHex(version) && PlainFields(traceId, parentId, flags)
    ensures Matches(Header(version, traceId, parentId, flags)) <==>
      version == "00" && AllLowerHex(traceId) && AllLowerHex(parentId) && AllLowerHex(flags)
  {
    var h := Header(version, traceId, parentId, flags);
    HeaderIs(version, traceId, parentId, flags);
    MatchesHeader(traceId, parentId, flags);
    if Matches(h) {
      assert |version| == 2 && h[0] == version[0] && h[1] == version[1];
      assert version == "00";
    }
  }

  /** int(s, 16) also takes the prefix 0x. */
  lemma PrefixIsRead(s: string)
    requires |s| > 2 && s[0] == '0' && s[1] == 'x' && AllHex(s[2..])
    ensures Int16(s) == Some(NumeralValue(s[2..]))
    ensures '-' !in s
  {
    var digits := s[2..];
    assert digits[|digits| - 1] == s[|s| - 1] && IsHex(s[|s| - 1]) && digits[0] == s[2] && IsHex(s[2]);
    StripKeeps(s);
    assert DropSign(s) == s && DropPrefix(s) == digits;
    NoDash(digits);
    assert s == ['0', 'x'] + digits;
  }

  /**
    So a trace id of 0x and thirty digits is accepted there, although its 32 characters are not
    hexadecimal digits: such fields are no header for the Kafka side.
   */
  lemma PrefixedIdIsAccepted(traceId: string, parentId: string, flags: string)
    requires |traceId| == 32 && traceId[0] == '0' && traceId[1] == 'x'
    requires AllHex(traceId[2..]) && !AllZero(traceId[2..])
    requires |parentId| == 16 && AllHex(parentId) && !AllZero(parentId) && |flags| == 2 && AllHex(flags)
    ensures ParseTraceparent(Header("00", traceId, parentId, flags)).Some?
    ensures !Matches(Header("00", Lower(traceId), Lower(parentId), Lower(flags)))
  {
    PrefixIsRead(traceId);
    ValueIsZero(traceId[2..]);
    OtherPartsAreRead(traceId, parentId, flags);
    PrefixedHeaderSplits(traceId, parentId, flags);
    PrefixedIsNoMatch(traceId, parentId, flags);
  }

  lemma PrefixedHeaderSplits(traceId: string, parentId: string, flags: string)
    requires '-' !in traceId && AllHex(parentId) && |flags| == 2 && AllHex(flags)
    ensures ParseTraceparent(Header("00", traceId, parentId, flags)) == ParseParts("00", traceId, parentId, flags)
  {
    NoDash(parentId);
    NoDash(flags);
    assert IsHex(flags[1]);
    HeaderSplits("00", traceId, parentId, flags);
  }

  lemma PrefixedIsNoMatch(traceId: string, parentId: string, flags: string)
    requires |traceId| == 32 && traceId[1] == 'x' && |parentId| == 16 && |flags| == 2
    ensures !Matches(Header("00", Lower(traceId), Lower(parentId), Lower(flags)))
  {
    MatchesHeader(Lower(traceId), Lower(parentId), Lower(flags));
    assert Lower(traceId)[1] == 'x' && !IsLowerHex('x');
  }

  lemma OtherPartsAreRead(traceId: string, parentId: string, flags: string)
    requires |traceId| == 32 && Int16(traceId).Some? && Int16(traceId).value != 0
    requires |parentId| == 16 && AllHex(parentId) && !AllZero(parentId) && |flags| == 2 && AllHex(flags)
    ensures ParseParts("00", traceId, parentId, flags).Some?
  {
    PlainHexIsRead("00");
    PlainHexIsRead(parentId);
    PlainHexIsRead(flags);
  }

  /** The parts of a header as the Python side cuts it. */
  function Parts(header: string): seq<string> {
    Split('-', Strip(header))
  }

  lemma LowerHexIffHex(s: string)
    ensures AllLowerHex(Lower(s)) <==> AllHex(s)
  {
    if AllHex(s) {
      LowerOfHex(s);
    }
    if AllLowerHex(Lower(s)) {
      forall i | 0 <= i < |s| ensures IsHex(s[i]) {
        assert IsLowerHex(Lower(s)[i]) && Lower(s)[i] == LowerChar(s[i]);
      }
    }
  }

  /**
    For every header the Python side accepts: the fields it returns, put together with version 00,
    are a header for the Kafka side exactly when the last three parts of the header are plain
    hexadecimal digits, that is without a sign, a prefix, an underscore or a space.
   */
  lemma RejoinedIffPlain(header: string)
    requires ParseTraceparent(header).Some?
    ensures |Parts(header)| == 4
    ensures var f := ParseTraceparent(header).value;
      Matches(Header("00", f.traceId, f.parentId, f.flags)) <==>
        AllHex(Parts(header)[1]) && AllHex(Parts(header)[2]) && AllHex(Parts(header)[3])
  {
    var parts := Parts(header);
    LowerHexIffHex(parts[1]);
    LowerHexIffHex(parts[2]);
    LowerHexIffHex(parts[3]);
    MatchesHeader(Lower(parts[1]), Lower(parts[2]), Lower(parts[3]));
  }

  /** And the header itself is one exactly when it is that canonical text to begin with. */
  lemma KafkaAcceptsIff(header: string)
    requires ParseTraceparent(header).Some?
    ensures |Parts(header)| == 4
    ensures var parts := Parts(header);
      Matches(header) <==>
        && Strip(header) == header && parts[0] == "00"
        && AllLowerHex(parts[1]) && AllLowerHex(parts[2]) && AllLowerHex(parts[3])
  {
    if Matches(header) {
      MatchIsStripped(header);
      MatchIsSplit(header);
    }
    if Strip(header) == header {
      CanonicalMatches(header);
    }
  }

  lemma CanonicalMatches(header: string)
    requires |Split('-', header)| == 4
    ensures var parts := Split('-', header);
      (parts[0] == "00" && |parts[1]| == 32 && |parts[2]| == 16 && |parts[3]| == 2
       && AllLowerHex(parts[1]) && AllLowerHex(parts[2]) && AllLowerHex(parts[3])) ==> Matches(header)
  {
    var parts := Split('-', header);
    JoinSplit('-', header);
    if parts[0] == "00" && |parts[1]| == 32 && |parts[2]| == 16 && |parts[3]| == 2 {
      assert parts == ["00", parts[1], parts[2], parts[3]];
      MatchesHeader(parts[1], parts[2], parts[3]);
    }
  }

  lemma MatchIsStripped(v: string)
    requires Matches(v)
    ensures Strip(v) == v
  {
    assert IsLowerHex(v[53..][1]);
    StripKeeps(v);
  }

  lemma MatchIsSplit(v: string)
    requires Matches(v)
    ensures Split('-', v) == ["00", v[3..35], v[36..52], v[53..]]
  {
    MatchIsHeader(v);
    LowerIsSame(v[3..35]);
    LowerIsSame(v[36..52]);
    LowerIsSame(v[53..]);
    NoDash("00");
    NoDash(v[3..35]);
    NoDash(v[36..52]);
    NoDash(v[53..]);
    SplitJoin('-', ["00", v[3..35], v[36..52], v[53..]]);
  }
}
