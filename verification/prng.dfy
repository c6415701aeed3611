/**
  The seeded generator of simulation code paths: FNV-1a over the 16-bit code units of a text
  gives a 32-bit seed, and mulberry32 draws from it.  JavaScript's 32-bit operators are written
  out on unsigned words: Math.imul is the product modulo 2^32, >>> a division, and ^ and | go
  bit by bit.
 */
module Prng {
  import opened Powers

  type Word = x: int | 0 <= x < 0x1_0000_0000

  type Unit = x: int | 0 <= x < 0x1_0000

  // ---------------------------------------------------------------- bits

  function Xor(x: nat, y: nat): nat
    decreases x + y
  {
    if x == 0 && y == 0 then 0
    else 2 * Xor(x / 2, y / 2) + if x % 2 == y % 2 then 0 else 1
  }

  function Or(x: nat, y: nat): nat
    decreases x + y
  {
    if x == 0 && y == 0 then 0
    else 2 * Or(x / 2, y / 2) + if x % 2 == 0 && y % 2 == 0 then 0 else 1
  }

  lemma {:induction false} BitsFit(k: nat, x: nat, y: nat)
    requires x < Pow2(k) && y < Pow2(k)
    ensures Xor(x, y) < Pow2(k) && Or(x, y) < Pow2(k)
  {
    if k > 0 {
      BitsFit(k - 1, x / 2, y / 2);
    }
  }

  lemma Width()
    ensures Pow2(32) == 0x1_0000_0000
  {
    assert Pow2(8) == 0x100;
    assert Pow2(16) == 0x1_0000;
    assert Pow2(24) == 0x100_0000;
  }

  lemma {:induction false} XorCancels(x: nat, y: nat)
    ensures Xor(Xor(x, y), y) == x
    ensures Xor(x, Xor(x, y)) == y
    decreases x + y
  {
    if x != 0 || y != 0 {
      XorCancels(x / 2, y / 2);
      var z := Xor(x, y);
      assert z / 2 == Xor(x / 2, y / 2);
      assert z % 2 == if x % 2 == y % 2 then 0 else 1;
    }
  }

  function Xor32(x: Word, y: Word): Word {
    Width();
    BitsFit(32, x, y);
    Xor(x, y)
  }

  function Or32(x: Word, y: Word): Word {
    Width();
    BitsFit(32, x, y);
    Or(x, y)
  }

  function Imul(x: Word, y: Word): Word {
    (x * y) % 0x1_0000_0000
  }

  /** Bit i of x, the lowest being bit 0. */
  function Bit(x: nat, i: nat): nat {
    x / Pow2(i) % 2
  }

  lemma LowestBit(x: nat)
    ensures Bit(x, 0) == x % 2
  {
  }

  lemma BitOfHalf(x: nat, i: nat)
    requires i > 0
    ensures Bit(x, i) == Bit(x / 2, i - 1)
  {
    HalfThenDivide(x, Pow2(i - 1));
  }

  lemma HalfThenDivide(x: nat, p: nat)
    requires p > 0
    ensures x / (2 * p) == x / 2 / p
  {
    var h := x / 2;
    var q, r := h / p, h % p;
    var d := p * q;
    assert h == d + r;
    assert 2 * p * q == 2 * d && 2 * p * (q + 1) == 2 * d + 2 * p by {
      Times(p, q);
    }
    QuotientIs(x, 2 * p, q);
  }

  lemma Times(p: nat, q: nat)
    ensures 2 * p * q == 2 * (p * q) && 2 * p * (q + 1) == 2 * (p * q) + 2 * p
  {
  }

  lemma QuotientIs(x: nat, y: nat, q: nat)
    requires y > 0 && y * q <= x < y * (q + 1)
    ensures x / y == q
  {
    var k := x / y;
    assert y * k <= x < y * (k + 1);
    if k < q {
      Larger(y, k + 1, q);
    } else if q < k {
      Larger(y, q + 1, k);
    }
  }

  lemma Larger(y: nat, a: nat, b: nat)
    requires a <= b
    ensures y * a <= y * b
  {
  }

  /** The two operators go bit by bit: exclusive or, and or. */
  lemma {:induction false} BitByBit(x: nat, y: nat, i: nat)
    ensures Bit(Xor(x, y), i) == (if Bit(x, i) == Bit(y, i) then 0 else 1)
    ensures Bit(Or(x, y), i) == (if Bit(x, i) == 1 || Bit(y, i) == 1 then 1 else 0)
    decreases i
  {
    if i == 0 {
      LowestBit(x);
      LowestBit(y);
      LowestBit(Xor(x, y));
      LowestBit(Or(x, y));
    } else {
      hide Bit;
      BitByBit(x / 2, y / 2, i - 1);
      BitOfHalf(x, i);
      BitOfHalf(y, i);
      BitOfHalf(Xor(x, y), i);
      BitOfHalf(Or(x, y), i);
      assert Xor(x, y) / 2 == Xor(x / 2, y / 2) && Or(x, y) / 2 == Or(x / 2, y / 2);
    }
  }

  // ---------------------------------------------------------------- JavaScript's operators

  /** ToInt32 of ECMA-262, section 7.1.6: the signed number that bitwise operators work on. */
  function ToInt32(n: int): int {
    var w := n % 0x1_0000_0000;
    if w >= 0x8000_0000 then w - 0x1_0000_0000 else w
  }

  function ToUint32(n: int): Word {
    n % 0x1_0000_0000
  }

  function JsXor(x: int, y: int): int {
    ToInt32(Xor32(ToUint32(x), ToUint32(y)))
  }

  function JsOr(x: int, y: int): int {
    ToInt32(Or32(ToUint32(x), ToUint32(y)))
  }

  /** Math.imul */
  function JsImul(x: int, y: int): int {
    ToInt32(x * y)
  }

  /** k halvings. */
  function Shift(w: Word, k: nat): Word {
    if k == 0 then w else Shift(w / 2, k - 1)
  }

  lemma {:induction false} ShiftDivides(w: Word, k: nat)
    ensures Shift(w, k) == w / Pow2(k)
  {
    if k > 0 {
      ShiftDivides(w / 2, k - 1);
      HalfThenDivide(w, Pow2(k - 1));
    }
  }

  /** x >>> k */
  function JsShift(x: int, k: nat): Word {
    Shift(ToUint32(x), k)
  }

  lemma WordsStay(w: Word)
    ensures ToUint32(w) == w && Shift(w, 0) == w
  {
  }

  lemma SignIsDropped(n: int)
    ensures ToUint32(ToInt32(n)) == ToUint32(n)
    ensures ToInt32(ToUint32(n)) == ToInt32(n) == ToInt32(ToInt32(n))
  {
  }

  lemma Expand(p: int, u: int, y: int, q: int, v: int)
    requires y == 0x1_0000_0000 * q + v
    ensures (0x1_0000_0000 * p + u) * y == u * v + 0x1_0000_0000 * (p * y + u * q)
  {
    var m := 0x1_0000_0000;
    assert (m * p + u) * y == m * (p * y) + u * y by {
      Distributes(m * p, u, y);
      Associates(m, p, y);
    }
    assert u * y == m * (u * q) + u * v by {
      Distributes(m * q, v, u);
      Associates(m, q, u);
    }
  }

  lemma Distributes(a: int, b: int, c: int)
    ensures (a + b) * c == a * c + b * c
  {
  }

  lemma Associates(a: int, b: int, c: int)
    ensures (a * b) * c == a * (b * c)
  {
  }

  /** Products and sums may be taken of signed or of unsigned words. */
  lemma ProductOfWords(x: int, y: int)
    ensures ToUint32(JsImul(x, y)) == Imul(ToUint32(x), ToUint32(y))
  {
    var p, q := x / 0x1_0000_0000, y / 0x1_0000_0000;
    Expand(p, ToUint32(x), y, q, ToUint32(y));
    SignIsDropped(x * y);
    Congruent(x * y, ToUint32(x) * ToUint32(y), p * y + ToUint32(x) * q);
  }

  lemma XorOfSigned(x: int, y: int)
    ensures ToUint32(JsXor(x, y)) == Xor32(ToUint32(x), ToUint32(y))
    ensures ToUint32(JsOr(x, y)) == Or32(ToUint32(x), ToUint32(y))
  {
    SignIsDropped(Xor32(ToUint32(x), ToUint32(y)));
    SignIsDropped(Or32(ToUint32(x), ToUint32(y)));
  }

  lemma SumOfWords(x: int, y: int)
    ensures ToUint32(x + y) == (ToUint32(x) + ToUint32(y)) % 0x1_0000_0000
  {
  }

  lemma Congruent(a: int, b: int, k: int)
    requires a == b + 0x1_0000_0000 * k
    ensures a % 0x1_0000_0000 == b % 0x1_0000_0000
  {
  }

  // ---------------------------------------------------------------- FNV-1a

  const OFFSET_BASIS: Word := 0x811c9dc5

  /** h ^= c; h = Math.imul(h, 0x01000193) */
  function Step(h: Word, c: Unit): Word {
    Imul(Xor32(h, c), 0x01000193)
  }

  /** The prime is odd, so multiplying by its inverse modulo 2^32 undoes the step. */
  function Unstep(h: Word, c: Unit): Word {
    Xor32(Imul(h, 0x359c449b), c)
  }

  lemma PrimeHasInverse(x: Word)
    ensures Imul(Imul(x, 0x01000193), 0x359c449b) == x
    ensures Imul(Imul(x, 0x359c449b), 0x01000193) == x
  {
    var n: int := x;
    var p: int, q: int := n * 0x01000193 / 0x1_0000_0000, n * 0x359c449b / 0x1_0000_0000;
    var r: int, t: int := Imul(x, 0x01000193), Imul(x, 0x359c449b);
    Remainder(r * 0x359c449b, n * 0x359c99 - p * 0x359c449b, x);
    Remainder(t * 0x01000193, n * 0x359c99 - q * 0x01000193, x);
  }

  lemma Remainder(n: int, q: int, r: Word)
    requires n == r + 0x1_0000_0000 * q
    ensures n % 0x1_0000_0000 == r
  {
  }

  lemma StepIsBijective(h: Word, c: Unit)
    ensures Unstep(Step(h, c), c) == h
    ensures Step(Unstep(h, c), c) == h
  {
    PrimeHasInverse(Xor32(h, c));
    PrimeHasInverse(h);
    XorCancels(h, c);
    XorCancels(Imul(h, 0x359c449b), c);
  }

  /** From the same state, two units lead to the same state only if they are the same unit. */
  lemma StepTellsUnits(h: Word, c: Unit, d: Unit)
    requires Step(h, c) == Step(h, d)
    ensures c == d
  {
    PrimeHasInverse(Xor32(h, c));
    PrimeHasInverse(Xor32(h, d));
    XorCancels(h, c);
    XorCancels(h, d);
  }

  /** The state after feeding a text, from any state. */
  function HashFrom(h: Word, s: seq<Unit>): Word
    decreases |s|
  {
    if s == [] then h else Step(HashFrom(h, s[..|s| - 1]), s[|s| - 1])
  }

  function Seed(s: seq<Unit>): Word {
    HashFrom(OFFSET_BASIS, s)
  }

  method SeedFromString(s: seq<Unit>) returns (h: Word)
    ensures h == Seed(s)
  {
    h := OFFSET_BASIS;
    for i := 0 to |s|
      invariant h == HashFrom(OFFSET_BASIS, s[..i])
    {
      assert s[..i + 1][..i] == s[..i];
      h := Xor32(h, s[i]);
      h := Imul(h, 0x01000193);
    }
    assert s[..|s|] == s;
  }

  /** The loop of seedFromString in JavaScript's signed words, before the final >>> 0. */
  function JsHash(s: seq<Unit>): int {
    if s == [] then 0x811c9dc5
    else JsImul(JsXor(JsHash(s[..|s| - 1]), s[|s| - 1]), 0x01000193)
  }

  /** The seed is what JavaScript computes. */
  lemma {:induction false} SeedIsJs(s: seq<Unit>)
    ensures Seed(s) == JsShift(JsHash(s), 0)
  {
    WordsStay(ToUint32(JsHash(s)));
    if s == [] {
      WordsStay(OFFSET_BASIS);
    } else {
      var h, c := JsHash(s[..|s| - 1]), s[|s| - 1];
      SeedIsJs(s[..|s| - 1]);
      WordsStay(ToUint32(h));
      StepIsJs(h, c);
    }
  }

  lemma StepIsJs(h: int, c: Unit)
    ensures ToUint32(JsImul(JsXor(h, c), 0x01000193)) == Step(ToUint32(h), c)
  {
    XorOfSigned(h, c);
    WordsStay(c);
    WordsStay(0x01000193);
    ProductOfWords(JsXor(h, c), 0x01000193);
  }

  function Unhash(h: Word, s: seq<Unit>): Word
    decreases |s|
  {
    if s == [] then h else Unhash(Unstep(h, s[|s| - 1]), s[..|s| - 1])
  }

  /** Feeding a fixed text is a bijection on the 32-bit states. */
  lemma {:induction false} HashIsBijective(h: Word, s: seq<Unit>)
    ensures Unhash(HashFrom(h, s), s) == h
    ensures HashFrom(Unhash(h, s), s) == h
    decreases |s|
  {
    if s != [] {
      var init, last := s[..|s| - 1], s[|s| - 1];
      StepIsBijective(HashFrom(h, init), last);
      StepIsBijective(h, last);
      HashIsBijective(h, init);
      HashIsBijective(Unstep(h, last), init);
    }
  }

  lemma {:induction false} HashConcat(h: Word, s: seq<Unit>, t: seq<Unit>)
    ensures HashFrom(h, s + t) == HashFrom(HashFrom(h, s), t)
    decreases |t|
  {
    if t == [] {
      assert s + t == s;
    } else {
      var init := t[..|t| - 1];
      assert (s + t)[..|s + t| - 1] == s + init;
      HashConcat(h, s, init);
    }
  }

  /** Two texts of the same length that agree everywhere except possibly at i. */
  ghost predicate AgreeExceptAt(s: seq<Unit>, t: seq<Unit>, i: nat) {
    |s| == |t| && i < |s| && forall k :: 0 <= k < |s| && k != i ==> s[k] == t[k]
  }

  /** Such texts have the same seed exactly when they are the same text. */
  lemma OneUnitDecides(s: seq<Unit>, t: seq<Unit>, i: nat)
    requires AgreeExceptAt(s, t, i)
    ensures Seed(s) == Seed(t) <==> s == t
  {
    var before, after := s[..i], s[i + 1..];
    assert t[..i] == before && t[i + 1..] == after;
    SeedAround(s, i);
    SeedAround(t, i);
    var h := HashFrom(OFFSET_BASIS, before);
    if Seed(s) == Seed(t) {
      HashIsBijective(Step(h, s[i]), after);
      HashIsBijective(Step(h, t[i]), after);
      StepTellsUnits(h, s[i], t[i]);
      assert s == t;
    }
  }

  lemma SeedAround(s: seq<Unit>, i: nat)
    requires i < |s|
    ensures Seed(s) == HashFrom(Step(HashFrom(OFFSET_BASIS, s[..i]), s[i]), s[i + 1..])
  {
    var upTo := s[..i + 1];
    assert upTo[..|upTo| - 1] == s[..i] && upTo + s[i + 1..] == s;
    HashConcat(OFFSET_BASIS, upTo, s[i + 1..]);
  }

  /**
    One unit is the most that can be promised: from every state there are two texts of the same
    length, differing in their last two units only, that lead to the same state.
   */
  lemma TwoUnitsCanCollide(h: Word)
    ensures HashFrom(h, [h % 0x1_0000, 0, 0]) == HashFrom(h, [h % 0x1_0000, 0xa2ff, 0x976d])
  {
    var hi, lo := h / 0x1_0000, h % 0x1_0000;
    ZeroThenZero(hi, lo);
    UnitThenUnit(hi, lo);
    HashOfThree(h, lo, 0, 0);
    HashOfThree(h, lo, 0xa2ff, 0x976d);
  }

  lemma ZeroThenZero(hi: Unit, lo: Unit)
    ensures Step(Step(Step(0x1_0000 * hi + lo, lo), 0), 0) == 0x1_0000 * Carried(Carried(Carried(hi)))
  {
    ClearingStep(hi, lo);
    UpperStep(Carried(hi), 0, 0, 0);
    UpperStep(Carried(Carried(hi)), 0, 0, 0);
  }

  lemma UnitThenUnit(hi: Unit, lo: Unit)
    ensures Step(Step(Step(0x1_0000 * hi + lo, lo), 0xa2ff), 0x976d) == 0x1_0000 * Carried(Carried(Carried(hi)))
  {
    ClearingStep(hi, lo);
    UpperStep(Carried(hi), 0xa2ff, 163, 0x976d);
    ClearingStep(Carried(Carried(hi)), 0x976d);
  }

  /** What the multiplication leaves of the upper half of a state whose lower half is 0. */
  function Carried(hi: Unit): Unit {
    (hi * 0x01000193) % 0x1_0000
  }

  /** 0xa2ff * 0x01000193 == 163 * 2^32 + 0x976d: the product fits in the lower half. */
  lemma UpperStep(hi: Unit, c: Unit, k: nat, out: Unit)
    requires c * 0x01000193 == k * 0x1_0000_0000 + out
    ensures Step(0x1_0000 * hi, c) == 0x1_0000 * Carried(hi) + out
  {
    LowerHalf(hi, 0, c);
    XorUnits(c);
    var x: int, p: int := hi, hi * 0x01000193 / 0x1_0000;
    Remainder((0x1_0000 * x + c) * 0x01000193, p + k, 0x1_0000 * Carried(hi) + out);
  }

  lemma ClearingStep(hi: Unit, c: Unit)
    ensures Step(0x1_0000 * hi + c, c) == 0x1_0000 * Carried(hi)
  {
    LowerHalf(hi, c, c);
    XorUnits(c);
    var x: int, p: int := hi, hi * 0x01000193 / 0x1_0000;
    Remainder(0x1_0000 * x * 0x01000193, p, 0x1_0000 * Carried(hi));
  }

  lemma LowerHalf(hi: Unit, lo: Unit, c: Unit)
    ensures Xor(0x1_0000 * hi + lo, c) == 0x1_0000 * hi + Xor(lo, c)
  {
    assert Pow2(8) == 0x100 && Pow2(16) == 0x1_0000;
    XorLow(16, hi, lo, c);
  }

  lemma HashOfThree(h: Word, c: Unit, d: Unit, e: Unit)
    ensures HashFrom(h, [c, d, e]) == Step(Step(Step(h, c), d), e)
  {
    var s, t, u := [c, d, e], [c, d], [c];
    assert s[..|s| - 1] == t && t[..|t| - 1] == u && u[..|u| - 1] == [];
    assert HashFrom(h, u) == Step(h, c);
    assert HashFrom(h, t) == Step(Step(h, c), d);
  }

  lemma {:induction false} XorUnits(c: nat)
    ensures Xor(0, c) == c && Xor(c, c) == 0
  {
    if c > 0 {
      XorUnits(c / 2);
    }
  }

  /** What fits in k bits leaves the bits above untouched. */
  lemma {:induction false} XorLow(k: nat, hi: nat, lo: nat, c: nat)
    requires lo < Pow2(k) && c < Pow2(k)
    ensures Xor(hi * Pow2(k) + lo, c) == hi * Pow2(k) + Xor(lo, c)
  {
    if k > 0 {
      XorLow(k - 1, hi, lo / 2, c / 2);
      TimesTwice(hi, Pow2(k - 1));
    } else {
      XorZero(hi);
    }
  }

  lemma TimesTwice(a: nat, b: nat)
    ensures a * (2 * b) == 2 * (a * b)
  {
  }

  lemma {:induction false} XorZero(x: nat)
    ensures Xor(x, 0) == x
  {
    if x > 0 {
      XorZero(x / 2);
    }
  }

  // ---------------------------------------------------------------- mulberry32

  /** a |= 0; a = (a + 0x6d2b79f5) | 0, read as an unsigned word. */
  function Advance(a: Word): Word {
    (a + 0x6d2b79f5) % 0x1_0000_0000
  }

  /** The output mix of a state. */
  function Mix(a: Word): Word {
    MixAgain(Imul(Xor32(a, a / 0x8000), Or32(1, a)))
  }

  function MixAgain(t: Word): Word {
    MixLast(Xor32((t + Imul(Xor32(t, t / 0x80), Or32(61, t))) % 0x1_0000_0000, t))
  }

  function MixLast(u: Word): Word {
    Xor32(u, u / 0x4000)
  }

  function Output(a: Word): (r: real)
    ensures 0.0 <= r < 1.0
  {
    Mix(a) as real / 4294967296.0
  }

  /** The state after n draws; seed >>> 0 is the seed modulo 2^32. */
  function StateAfter(seed: int, n: nat): Word {
    if n == 0 then seed % 0x1_0000_0000 else Advance(StateAfter(seed, n - 1))
  }

  /** The n-th output, counting from 0. */
  function Draw(seed: int, n: nat): real {
    Output(StateAfter(seed, n + 1))
  }

  /** The output of the closure in JavaScript's signed words. */
  function JsMix(a: int): Word {
    JsMixEnd(JsImul(JsXor(a, JsShift(a, 15)), JsOr(1, a)))
  }

  function JsMixEnd(t: int): Word {
    JsMixLast(JsXor(t + JsImul(JsXor(t, JsShift(t, 7)), JsOr(61, t)), t))
  }

  function JsMixLast(u: int): Word {
    JsShift(JsXor(u, JsShift(u, 14)), 0)
  }

  /** The variable a after n calls. */
  function JsState(seed: int, n: nat): int {
    if n == 0 then JsShift(seed, 0) else ToInt32(ToInt32(JsState(seed, n - 1)) + 0x6d2b79f5)
  }

  lemma Shifts(a: Word)
    ensures Shift(a, 7) == a / 0x80 && Shift(a, 14) == a / 0x4000 && Shift(a, 15) == a / 0x8000
  {
    assert Pow2(7) == 0x80 && Pow2(14) == 0x4000 && Pow2(15) == 0x8000;
    ShiftDivides(a, 7);
    ShiftDivides(a, 14);
    ShiftDivides(a, 15);
  }

  /** One round on words: xor with a shifted copy, times an odd number. */
  function Round(a: Word, k: nat, m: Word): Word {
    Imul(Xor32(a, Shift(a, k)), Or32(m, a))
  }

  lemma RoundIsJs(a: int, k: nat, m: Word)
    ensures ToUint32(JsImul(JsXor(a, JsShift(a, k)), JsOr(m, a))) == Round(ToUint32(a), k, m)
  {
    WordsStay(JsShift(a, k));
    WordsStay(m);
    XorOfSigned(a, JsShift(a, k));
    XorOfSigned(m, a);
    ProductOfWords(JsXor(a, JsShift(a, k)), JsOr(m, a));
  }

  lemma RoundWith(a: Word, k: nat, m: Word, shifted: Word)
    requires shifted == Shift(a, k)
    ensures Imul(Xor32(a, shifted), Or32(m, a)) == Round(a, k, m)
  {
  }

  lemma MixLastIsJs(u: int)
    ensures MixLast(ToUint32(u)) == JsMixLast(u)
  {
    Shifts(ToUint32(u));
    WordsStay(JsShift(u, 14));
    XorOfSigned(u, JsShift(u, 14));
    WordsStay(ToUint32(JsXor(u, JsShift(u, 14))));
  }

  lemma MixAgainIsJs(t: int)
    ensures MixAgain(ToUint32(t)) == JsMixEnd(t)
  {
    hide Imul, JsImul, JsXor, JsOr, JsShift, Xor32, Or32, ToUint32, MixLast, JsMixLast;
    var i := JsImul(JsXor(t, JsShift(t, 7)), JsOr(61, t));
    RoundIsJs(t, 7, 61);
    Shifts(ToUint32(t));
    RoundWith(ToUint32(t), 7, 61, ToUint32(t) / 0x80);
    SumIsJs(t, i);
    MixLastIsJs(JsXor(t + i, t));
  }

  lemma SumIsJs(t: int, i: int)
    ensures ToUint32(JsXor(t + i, t)) == Xor32((ToUint32(t) + ToUint32(i)) % 0x1_0000_0000, ToUint32(t))
  {
    SumOfWords(t, i);
    XorOfSigned(t + i, t);
  }

  lemma MixIsJs(a: int)
    ensures Mix(ToUint32(a)) == JsMix(a)
  {
    hide Imul, JsImul, MixAgain, JsMixEnd;
    var w := ToUint32(a);
    Shifts(w);
    RoundWith(w, 15, 1, w / 0x8000);
    RoundIsJs(a, 15, 1);
    MixAgainIsJs(JsImul(JsXor(a, JsShift(a, 15)), JsOr(1, a)));
  }

  lemma {:induction false} StateIsJs(seed: int, n: nat)
    ensures StateAfter(seed, n) == ToUint32(JsState(seed, n))
  {
    if n > 0 {
      var a := JsState(seed, n - 1);
      StateIsJs(seed, n - 1);
      SignIsDropped(a);
      SumOfWords(ToInt32(a), 0x6d2b79f5);
      SignIsDropped(ToInt32(a) + 0x6d2b79f5);
    } else {
      WordsStay(ToUint32(seed));
    }
  }

  /**
    The stream is the one JavaScript computes: its signed 32-bit operators, and the unsigned words
    of this model, give the same output at every call.
   */
  lemma DrawIsJs(seed: int, n: nat)
    ensures Draw(seed, n) == JsMix(JsState(seed, n + 1)) as real / 4294967296.0
  {
    StateIsJs(seed, n + 1);
    MixIsJs(JsState(seed, n + 1));
  }

  lemma {:induction false} StateIsLinear(seed: int, n: nat)
    ensures StateAfter(seed, n) == (seed + n * 0x6d2b79f5) % 0x1_0000_0000
  {
    if n > 0 {
      StateIsLinear(seed, n - 1);
      AdvanceAdds(seed + (n - 1) * 0x6d2b79f5);
    }
  }

  lemma AdvanceAdds(x: int)
    ensures Advance(x % 0x1_0000_0000) == (x + 0x6d2b79f5) % 0x1_0000_0000
  {
  }

  /** Dropping k draws is the same as starting from seed + k * 0x6d2b79f5. */
  lemma DroppingIsReseeding(seed: int, k: nat, n: nat)
    ensures Draw(seed, k + n) == Draw(seed + k * 0x6d2b79f5, n)
  {
    StateIsLinear(seed, k + n + 1);
    StateIsLinear(seed + k * 0x6d2b79f5, n + 1);
  }

  /** The increment is odd, so it is invertible modulo 2^32. */
  lemma MultipleOfIncrement(d: int)
    ensures (d * 0x6d2b79f5) % 0x1_0000_0000 == 0 <==> d % 0x1_0000_0000 == 0
  {
    var q, p := (d * 0x6d2b79f5) / 0x1_0000_0000, d / 0x1_0000_0000;
    if (d * 0x6d2b79f5) % 0x1_0000_0000 == 0 {
      assert d * 0x6d2b79f5 == 0x1_0000_0000 * q;
      Remainder(d, q * 0xdc58aa5d - d * 1576479847, 0);
    }
    if d % 0x1_0000_0000 == 0 {
      Remainder(d * 0x6d2b79f5, p * 0x6d2b79f5, 0);
    }
  }

  lemma SameRemainder(x: int, y: int)
    ensures x % 0x1_0000_0000 == y % 0x1_0000_0000 <==> (x - y) % 0x1_0000_0000 == 0
  {
  }

  /** The state sequence has period exactly 2^32: two states are equal iff 2^32 divides their distance. */
  lemma PeriodIsExact(seed: int, i: nat, j: nat)
    ensures StateAfter(seed, i) == StateAfter(seed, j) <==> (i - j) % 0x1_0000_0000 == 0
  {
    StateIsLinear(seed, i);
    StateIsLinear(seed, j);
    SameRemainder(seed + i * 0x6d2b79f5, seed + j * 0x6d2b79f5);
    MultipleOfIncrement(i - j);
  }

  /** The first 2^32 states are all the 32-bit states, each exactly once. */
  lemma EveryStateOnce(seed: int, w: Word)
    ensures exists n: nat :: n < 0x1_0000_0000 && StateAfter(seed, n) == w
    ensures forall i: nat, j: nat ::
      i < 0x1_0000_0000 && j < 0x1_0000_0000 && StateAfter(seed, i) == StateAfter(seed, j) ==> i == j
  {
    var n := ((w - seed) * 0xdc58aa5d) % 0x1_0000_0000;
    ReachedAt(seed, w, n);
    assert StateAfter(seed, n) == w;
    forall i: nat, j: nat | i < 0x1_0000_0000 && j < 0x1_0000_0000 && StateAfter(seed, i) == StateAfter(seed, j)
      ensures i == j
    {
      PeriodIsExact(seed, i, j);
    }
  }

  lemma ReachedAt(seed: int, w: Word, n: nat)
    requires n == ((w - seed) * 0xdc58aa5d) % 0x1_0000_0000
    ensures StateAfter(seed, n) == w
  {
    StateIsLinear(seed, n);
    var d := w - seed;
    var q := (d * 0xdc58aa5d) / 0x1_0000_0000;
    Remainder(seed + n * 0x6d2b79f5, d * 1576479847 - q * 0x6d2b79f5, w);
  }

  lemma StatesRepeat(seed: int, n: nat)
    ensures StateAfter(seed, n + 0x1_0000_0000) == StateAfter(seed, n)
  {
    PeriodIsExact(seed, n + 0x1_0000_0000, n);
  }

  /** Hence the outputs repeat after 2^32 draws. */
  lemma {:induction false} OutputsRepeat(seed: int, n: nat)
    ensures Draw(seed, n + 0x1_0000_0000) == Draw(seed, n)
  {
    StatesRepeat(seed, n + 1);
  }

  /** The closure that mulberry32 returns, with the seed and the number of draws as ghosts. */
  class Mulberry32 {
    var a: Word
    ghost const seed: int
    ghost var draws: nat

    ghost predicate Valid()
      reads this
    {
      a == StateAfter(seed, draws)
    }

    constructor (seed: int)
      ensures Valid() && this.seed == seed && draws == 0
    {
      a := seed % 0x1_0000_0000;
      this.seed := seed;
      draws := 0;
    }

    /** Each call returns the next output of the stream of the seed. */
    method Next() returns (r: real)
      requires Valid()
      modifies this
      ensures Valid() && draws == old(draws) + 1
      ensures r == Draw(seed, old(draws)) && 0.0 <= r < 1.0
    {
      hide Output;
      a := (a + 0x6d2b79f5) % 0x1_0000_0000;
      draws := draws + 1;
      r := Output(a);
    }
  }

  datatype SeedInput = Number(n: int) | Text(s: seq<Unit>)

  function SeedOf(input: SeedInput): int {
    match input
    case Number(n) => n
    case Text(s) => Seed(s)
  }

  method SeededRng(input: SeedInput) returns (rng: Mulberry32)
    ensures fresh(rng) && rng.Valid() && rng.draws == 0 && rng.seed == SeedOf(input)
    ensures input.Number? ==> rng.seed == input.n
    ensures input.Text? ==> rng.seed == JsShift(JsHash(input.s), 0)
  {
    match input {
      case Number(n) =>
        rng := new Mulberry32(n);
      case Text(s) =>
        var h := SeedFromString(s);
        SeedIsJs(s);
        rng := new Mulberry32(h);
    }
  }
}
