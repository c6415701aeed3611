/** Small datatypes shared by the modules of this project. */
module Common {

  datatype Option<+T> = None | Some(value: T)

  datatype Result<+T, +E> = Ok(value: T) | Err(error: E)
}

module Powers {

  function Pow2(n: nat): (p: nat)
    ensures p > 0
  {
    if n == 0 then 1 else 2 * Pow2(n - 1)
  }
}

/** Decimal digits and the printing of a natural number. */
module Digits {

  predicate IsDigit(c: char) {
    '0' <= c <= '9'
  }

  predicate AllDigits(s: string) {
    forall i :: 0 <= i < |s| ==> IsDigit(s[i])
  }

  function DigitValue(c: char): (d: nat)
    requires IsDigit(c)
    ensures d < 10
  {
    c as int - '0' as int
  }

  const DIGITS := "0123456789"

  /** A digit is worth its position among the digits. */
  lemma DigitIsWorthItsPlace(c: char)
    ensures IsDigit(c) <==> c in DIGITS
    ensures IsDigit(c) ==> DIGITS[DigitValue(c)] == c
  {
    assert forall d :: 0 <= d < 10 ==> DIGITS[d] as int == '0' as int + d;
    if IsDigit(c) {
      assert DIGITS[c as int - '0' as int] == c;
    }
  }

  function Digit(d: nat): (c: char)
    requires d < 10
    ensures IsDigit(c) && DigitValue(c) == d
  {
    ('0' as int + d) as char
  }

  /** n.toString() */
  function NatToString(n: nat): (s: string)
    ensures s != "" && AllDigits(s)
  {
    if n < 10 then [Digit(n)] else NatToString(n / 10) + [Digit(n % 10)]
  }

  /** parseInt(s, 10) on digits. */
  function Value(s: string): nat
    requires AllDigits(s)
  {
    if s == "" then 0 else Value(s[..|s| - 1]) * 10 + DigitValue(s[|s| - 1])
  }

  /** How many digits the text begins with. */
  function LeadingDigits(s: string): (k: nat)
    ensures k <= |s| && AllDigits(s[..k]) && (k < |s| ==> !IsDigit(s[k]))
  {
    if s == "" || !IsDigit(s[0]) then 0 else 1 + LeadingDigits(s[1..])
  }

  predicate NoLeadingZero(s: string) {
    s != "" && (|s| == 1 || s[0] != '0')
  }

  lemma {:induction false} NatToStringValue(n: nat)
    ensures Value(NatToString(n)) == n && NoLeadingZero(NatToString(n))
  {
    if n >= 10 {
      var s := NatToString(n / 10);
      NatToStringValue(n / 10);
      assert (s + [Digit(n % 10)])[..|s|] == s;
      assert |s| == 1 ==> s[..0] == "" && Value(s) == DigitValue(s[0]);
    } else {
      assert [Digit(n)][..0] == "";
    }
  }
}

/** Splitting a text at a separator, and joining with one. */
module Texts {

  /** One character more in front of some pieces. */
  function Glue(sep: char, c: char, pieces: seq<string>): (r: seq<string>)
    requires pieces != []
    ensures r != []
  {
    if c == sep then [""] + pieces else [[c] + pieces[0]] + pieces[1..]
  }

  /** s.split(sep) */
  function Split(sep: char, s: string): (pieces: seq<string>)
    ensures pieces != []
  {
    if s == "" then [""] else Glue(sep, s[0], Split(sep, s[1..]))
  }

  /** pieces.join(sep) */
  function Join(sep: char, pieces: seq<string>): string {
    if pieces == [] then ""
    else if |pieces| == 1 then pieces[0]
    else pieces[0] + ([sep] + Join(sep, pieces[1..]))
  }

  lemma JoinCons(sep: char, piece: string, rest: seq<string>)
    requires rest != []
    ensures Join(sep, [piece] + rest) == piece + ([sep] + Join(sep, rest))
  {
    assert ([piece] + rest)[1..] == rest;
  }

  lemma JoinGlue(sep: char, c: char, pieces: seq<string>)
    requires pieces != []
    ensures Join(sep, Glue(sep, c, pieces)) == [c] + Join(sep, pieces)
  {
    if c == sep {
      JoinCons(sep, "", pieces);
    } else if |pieces| > 1 {
      JoinCons(sep, [c] + pieces[0], pieces[1..]);
    }
  }

  lemma {:induction false} JoinSplit(sep: char, s: string)
    ensures Join(sep, Split(sep, s)) == s
  {
    if s != "" {
      JoinSplit(sep, s[1..]);
      JoinGlue(sep, s[0], Split(sep, s[1..]));
      assert s == [s[0]] + s[1..];
    }
  }

  lemma GlueConcat(sep: char, c: char, a: seq<string>, b: seq<string>)
    requires a != []
    ensures Glue(sep, c, a + b) == Glue(sep, c, a) + b
  {
    assert (a + b)[1..] == a[1..] + b;
  }

  /** A separator cuts the pieces of a text in two. */
  lemma {:induction false} SplitAt(sep: char, s: string, k: nat)
    requires 0 < k <= |s| && s[k - 1] == sep
    ensures Split(sep, s) == Split(sep, s[..k - 1]) + Split(sep, s[k..])
  {
    if k == 1 {
      assert s[..0] == "";
    } else {
      SplitAt(sep, s[1..], k - 1);
      assert s[1..][k - 1..] == s[k..] && s[..k - 1][1..] == s[1..][..k - 2];
      GlueConcat(sep, s[0], Split(sep, s[..k - 1][1..]), Split(sep, s[k..]));
    }
  }

  lemma {:induction false} SplitOfOne(sep: char, s: string)
    requires forall i :: 0 <= i < |s| ==> s[i] != sep
    ensures Split(sep, s) == [s]
  {
    if s != "" {
      SplitOfOne(sep, s[1..]);
      assert s == [s[0]] + s[1..];
    }
  }

  ghost predicate NoneHas(sep: char, pieces: seq<string>) {
    forall i :: 0 <= i < |pieces| ==> sep !in pieces[i]
  }

  /** Splitting undoes joining when no piece holds the separator. */
  lemma {:induction false} SplitJoin(sep: char, pieces: seq<string>)
    requires pieces != [] && NoneHas(sep, pieces)
    ensures Split(sep, Join(sep, pieces)) == pieces
  {
    var first := pieces[0];
    SplitOfOne(sep, first);
    if |pieces| > 1 {
      var rest := Join(sep, pieces[1..]);
      var s := Join(sep, pieces);
      assert s == first + ([sep] + rest) && s[|first|] == sep;
      assert s[..|first|] == first && s[|first| + 1..] == rest;
      SplitAt(sep, s, |first| + 1);
      SplitJoin(sep, pieces[1..]);
      assert pieces == [first] + pieces[1..];
    } else {
      assert pieces == [first];
    }
  }

  lemma {:induction false} NoPieceHasSeparator(sep: char, s: string)
    ensures NoneHas(sep, Split(sep, s))
  {
    if s != "" {
      NoPieceHasSeparator(sep, s[1..]);
      var pieces := Split(sep, s[1..]);
      assert sep !in pieces[0];
      assert s[0] != sep ==> sep !in [s[0]] + pieces[0];
    }
  }

  /** The pieces are the only ones without the separator that join to the text. */
  lemma SplitIsUnique(sep: char, s: string, pieces: seq<string>)
    ensures Split(sep, s) == pieces <==> pieces != [] && NoneHas(sep, pieces) && Join(sep, pieces) == s
  {
    JoinSplit(sep, s);
    NoPieceHasSeparator(sep, s);
    if pieces != [] && NoneHas(sep, pieces) {
      SplitJoin(sep, pieces);
    }
  }
}
