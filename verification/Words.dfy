/** Words of 32 bits as numbers: what the operations on them do to the values their bits stand for. */
module Words {

  const TWO_TO_32 := 0x1_0000_0000

  function Half(x: bv32): bv32 { x >> 1 }

  predicate Odd(x: bv32) { x & 1 == 1 }

  /** The number that the bits of a word stand for. */
  function Value(x: bv32): (n: nat)
    decreases x
  {
    if x == 0 then 0 else 2 * Value(Half(x)) + (if Odd(x) then 1 else 0)
  }

  function Pow2(k: nat): (p: nat)
    ensures p > 0
  {
    if k == 0 then 1 else 2 * Pow2(k - 1)
  }

  // ---- one bit at a time

  lemma Halves(x: bv32)
    ensures Value(x) == 2 * Value(Half(x)) + (if Odd(x) then 1 else 0)
  {
  }

  lemma ValueZero()
    ensures Value(0) == 0
  {
  }

  lemma NextEven(x: bv32)
    requires !Odd(x)
    ensures Half(x + 1) == Half(x) && Odd(x + 1)
  {
  }

  lemma NextOdd(x: bv32)
    requires Odd(x) && x != 0xFFFF_FFFF
    ensures Half(x + 1) == (Half(x)) + 1 && !Odd(x + 1) && Half(x) != 0xFFFF_FFFF
  {
  }

  lemma ValueOfNext(x: bv32)
    requires !Odd(x) || (x != 0xFFFF_FFFF && Value((Half(x)) + 1) == Value(Half(x)) + 1)
    ensures Value(x + 1) == Value(x) + 1
  {
    hide Value, Half, Odd;
    Halves(x);
    Halves(x + 1);
    if !Odd(x) { NextEven(x); } else { NextOdd(x); }
  }

  lemma {:induction false} ValueNext(x: bv32)
    requires x != 0xFFFF_FFFF
    ensures Value(x + 1) == Value(x) + 1
    decreases Value(x)
  {
    hide Value, Half, Odd;
    if Odd(x) {
      NextOdd(x);
      Halves(x);
      ValueNext(Half(x));
    } else {
      }
    ValueOfNext(x);
  }

  // ---- shifts to the right

  /** A shift by n, one place at a time. */
  function Right(x: bv32, n: nat): bv32 {
    if n == 0 then x else Right(Half(x), n - 1)
  }

  lemma {:induction false} RightSplit(x: bv32, n: nat, m: nat)
    ensures Right(x, n + m) == Right(Right(x, n), m)
    decreases n
  {
    hide Half, Odd;
    if n > 0 { RightSplit(Half(x), n - 1, m); }
  }

  lemma RightOne(x: bv32)
    ensures Right(x, 1) == x >> 1
  {
  }

  lemma RightTwice(x: bv32, y: bv32, z: bv32, n: nat)
    requires Right(x, n) == y && Right(y, n) == z
    ensures Right(x, n + n) == z
  {
    RightSplit(x, n, n);
  }

  lemma RightTwo(x: bv32)
    ensures Right(x, 2) == x >> 2
  {
    hide Right;
    RightOne(x);
    RightOne(x >> 1);
    RightTwice(x, x >> 1, (x >> 1) >> 1, 1);
  }

  lemma RightFour(x: bv32)
    ensures Right(x, 4) == x >> 4
  {
    hide Right;
    RightTwo(x);
    RightTwo(x >> 2);
    RightTwice(x, x >> 2, (x >> 2) >> 2, 2);
  }

  lemma RightEight(x: bv32)
    ensures Right(x, 8) == x >> 8
  {
    hide Right;
    RightFour(x);
    RightFour(x >> 4);
    RightTwice(x, x >> 4, (x >> 4) >> 4, 4);
  }

  lemma RightSixteen(x: bv32)
    ensures Right(x, 16) == x >> 16
  {
    hide Right;
    RightEight(x);
    RightEight(x >> 8);
    RightTwice(x, x >> 8, (x >> 8) >> 8, 8);
  }

  lemma RightAll(x: bv32)
    ensures Right(x, 32) == 0
  {
    hide Right;
    RightSixteen(x);
    RightSixteen(x >> 16);
    RightTwice(x, x >> 16, (x >> 16) >> 16, 16);
  }

  /** A shift to the right divides. */
  lemma {:induction false} ValueRight(x: bv32, n: nat)
    ensures Value(Right(x, n)) == Value(x) / Pow2(n)
    decreases n
  {
    hide Half, Odd;
    if n > 0 {
      ValueRight(Half(x), n - 1);
      Halves(x);
      HalfFirst(Value(x), Pow2(n - 1));
    }
  }

  lemma HalfFirst(a: nat, p: nat)
    requires p > 0
    ensures a / 2 / p == a / (2 * p) && a % (2 * p) == 2 * (a / 2 % p) + a % 2
  {
    var h := a / 2;
    var q, r := h / p, h % p;
    assert h == p * q + r && a == 2 * h + a % 2;
    assert a == (2 * p) * q + (2 * r + a % 2) by { assert (2 * p) * q == 2 * (p * q); }
    QuotientIs(a, 2 * p, q, 2 * r + a % 2);
  }

  lemma QuotientIs(n: nat, d: nat, q: nat, r: nat)
    requires n == d * q + r && r < d
    ensures n / d == q && n % d == r
  {
    var e := q - n / d;
    assert d * e == d * q - d * (n / d);
    assert d * e == n % d - r;
    Multiple(d, e);
  }

  lemma Multiple(d: nat, e: int)
    ensures e >= 1 ==> d * e >= d
    ensures e <= -1 ==> d * e + d <= 0
  {
    if e >= 1 { assert d * (e - 1) >= 0; }
    if e <= -1 { assert d * (-e - 1) >= 0; }
  }

  lemma {:induction false} Pow2Split(n: nat, m: nat)
    ensures Pow2(n + m) == Pow2(n) * Pow2(m)
  {
    if n > 0 { Pow2Split(n - 1, m); }
  }

  lemma Pow2Word()
    ensures Pow2(32) == TWO_TO_32
  {
    assert Pow2(4) == 16;
    Pow2Split(4, 4);
    Pow2Split(8, 8);
    Pow2Split(16, 16);
  }

  lemma {:induction false} ValueFits(x: bv32, k: nat)
    requires Right(x, k) == 0
    ensures Value(x) < Pow2(k)
    decreases k
  {
    hide Value, Half, Odd;
    if k == 0 {
      ValueZero();
    } else {
      ValueFits(Half(x), k - 1);
      Halves(x);
    }
  }

  lemma ValueBelow(x: bv32)
    ensures Value(x) < TWO_TO_32
  {
    hide Value;
    RightAll(x);
    ValueFits(x, 32);
    Pow2Word();
  }

  // ---- sums, differences and products

  function Plus(x: bv32, y: bv32): bv32 { x + y }

  lemma Regroup(x: bv32, y: bv32) returns (x1: bv32, y1: bv32)
    requires y != 0
    ensures y1 != 0xFFFF_FFFF && Plus(y1, 1) == y && Plus(x, 1) == x1 && Plus(x, y) == Plus(x1, y1)
  {
    x1, y1 := x + 1, y - 1;
  }

  /** The lowest k bits are set. */
  predicate Ones(x: bv32, k: nat) { k == 0 || (Odd(x) && Ones(Half(x), k - 1)) }

  lemma {:induction false} OnesSplit(x: bv32, n: nat, m: nat)
    requires Ones(x, n) && Ones(Right(x, n), m)
    ensures Ones(x, n + m)
    decreases n
  {
    hide Half, Odd;
    if n > 0 { OnesSplit(Half(x), n - 1, m); }
  }

  lemma OnesTwo(x: bv32)
    requires x & 3 == 3
    ensures Ones(x, 2)
  {
    assert Ones(x >> 1, 1) by { assert (x >> 1) & 1 == 1; }
  }

  lemma OnesFour(x: bv32)
    requires x & 0xF == 0xF
    ensures Ones(x, 4)
  {
    hide Ones, Right;
    OnesTwo(x);
    RightTwo(x);
    OnesTwo(x >> 2);
    OnesSplit(x, 2, 2);
  }

  lemma OnesEight(x: bv32)
    requires x & 0xFF == 0xFF
    ensures Ones(x, 8)
  {
    hide Ones, Right;
    OnesFour(x);
    RightFour(x);
    OnesFour(x >> 4);
    OnesSplit(x, 4, 4);
  }

  lemma OnesSixteen(x: bv32)
    requires x & 0xFFFF == 0xFFFF
    ensures Ones(x, 16)
  {
    hide Ones, Right;
    OnesEight(x);
    RightEight(x);
    OnesEight(x >> 8);
    OnesSplit(x, 8, 8);
  }

  lemma OnesAll()
    ensures Ones(0xFFFF_FFFF, 32)
  {
    hide Ones, Right;
    OnesSixteen(0xFFFF_FFFF);
    RightSixteen(0xFFFF_FFFF);
    OnesSixteen(0xFFFF_FFFF >> 16);
    OnesSplit(0xFFFF_FFFF, 16, 16);
  }

  lemma {:induction false} ValueOfOnes(x: bv32, k: nat)
    requires Right(x, k) == 0 && Ones(x, k)
    ensures Value(x) == Pow2(k) - 1
    decreases k
  {
    hide Value, Half, Odd;
    if k == 0 {
      ValueZero();
    } else {
      ValueOfOnes(Half(x), k - 1);
      Halves(x);
    }
  }

  lemma ValueTop()
    ensures Value(0xFFFF_FFFF) == TWO_TO_32 - 1
  {
    hide Value, Ones, Right;
    OnesAll();
    RightAll(0xFFFF_FFFF);
    ValueOfOnes(0xFFFF_FFFF, 32);
    Pow2Word();
  }

  lemma NextUnwrapped(x: bv32)
    requires x != 0xFFFF_FFFF
    ensures Value(Plus(x, 1)) == Value(x) + 1
  {
    hide Value;
    ValueNext(x);
  }

  lemma NextWraps(x: bv32)
    ensures Value(Plus(x, 1)) == (Value(x) + 1) % TWO_TO_32
  {
    hide Value;
    if x == 0xFFFF_FFFF {
      ValueTop();
      ValueZero();
    } else {
      NextUnwrapped(x);
      ValueBelow(x + 1);
    }
  }

  lemma SumZero(x: bv32)
    ensures Plus(x, 0) == x && Value(x) == Value(x) % TWO_TO_32
  {
    hide Value;
    ValueBelow(x);
  }

  lemma SumStep(a: nat, b: nat, s: nat)
    requires s == ((a + 1) % TWO_TO_32 + b) % TWO_TO_32
    ensures s == (a + (b + 1)) % TWO_TO_32
  {
  }

  /** A sum is the sum of the values, modulo 2^32. */
  lemma {:induction false} ValueSum(x: bv32, y: bv32)
    ensures Value(Plus(x, y)) == (Value(x) + Value(y)) % TWO_TO_32
    decreases Value(y)
  {
    hide Value, Plus;
    if y == 0 {
      SumZero(x);
      ValueZero();
    } else {
      var x1, y1 := Regroup(x, y);
      NextUnwrapped(y1);
      NextWraps(x);
      ValueSum(x1, y1);
      SumStep(Value(x), Value(y1), Value(Plus(x, y)));
    }
  }

  lemma BackAgain(x: bv32, y: bv32)
    ensures Plus(x - y, y) == x
  {
  }

  lemma ValueDifference(x: bv32, y: bv32)
    ensures Value(x - y) == (Value(x) - Value(y)) % TWO_TO_32
  {
    hide Value, Plus;
    BackAgain(x, y);
    DifferenceTo(x - y, y, x);
  }

  lemma DifferenceTo(d: bv32, y: bv32, x: bv32)
    requires Plus(d, y) == x
    ensures Value(d) == (Value(x) - Value(y)) % TWO_TO_32
  {
    hide Value, Plus;
    ValueSum(d, y);
    ValueBelow(d);
    ValueBelow(y);
    DifferenceOf(Value(d), Value(y), Value(x));
  }

  lemma DifferenceOf(d: nat, v: nat, w: nat)
    requires d < TWO_TO_32 && v < TWO_TO_32 && w == (d + v) % TWO_TO_32
    ensures d == (w - v) % TWO_TO_32
  {
  }

  function Times(x: bv32, y: bv32): bv32 { x * y }

  lemma TimesZero(x: bv32)
    ensures Times(x, 0) == 0
  {
  }

  lemma ProductNext(x: bv32, y: bv32)
    ensures x * (y + 1) == x * y + x
  {
  }

  lemma TimesPlus(x: bv32, y: bv32)
    ensures Times(x, y + 1) == Plus(x * y, x)
  {
    ProductNext(x, y);
  }

  lemma TimesNext(x: bv32, y: bv32)
    ensures Times(x, y + 1) == Plus(Times(x, y), x)
  {
    TimesPlus(x, y);
  }

  lemma Before(y: bv32) returns (y1: bv32)
    requires y != 0
    ensures y1 != 0xFFFF_FFFF && y1 + 1 == y
  {
    y1 := y - 1;
  }

  lemma {:induction false} ValueProduct(x: bv32, y: bv32)
    ensures Value(Times(x, y)) == Value(x) * Value(y) % TWO_TO_32
    decreases Value(y)
  {
    hide Value, Plus, Times;
    ValueZero();
    if y == 0 {
      TimesZero(x);
    } else {
      var y1 := Before(y);
      TimesNext(x, y1);
      ValueNext(y1);
      ValueProduct(x, y1);
      ValueSum(Times(x, y1), x);
      ProductStep(Value(x), Value(y1), Value(Times(x, y1)));
    }
  }

  lemma ProductStep(a: nat, b: nat, s: nat)
    requires s == a * b % TWO_TO_32
    ensures (s + a) % TWO_TO_32 == a * (b + 1) % TWO_TO_32
  {
    assert a * (b + 1) == a * b + a;
    SumMod(a * b, a);
  }

  lemma SumMod(a: nat, b: nat)
    ensures (a % TWO_TO_32 + b) % TWO_TO_32 == (a + b) % TWO_TO_32
  {
  }

  // ---- shifts to the left and rotations

  function Left(x: bv32, n: nat): bv32
    decreases n
  {
    if n == 0 then x else Left(Plus(x, x), n - 1)
  }

  lemma {:induction false} LeftSplit(x: bv32, n: nat, m: nat)
    ensures Left(x, n + m) == Left(Left(x, n), m)
    decreases n
  {
    hide Plus;
    if n > 0 { LeftSplit(Plus(x, x), n - 1, m); }
  }

  /** A shift to the left multiplies, modulo 2^32. */
  lemma {:induction false} ValueLeft(x: bv32, n: nat)
    ensures Value(Left(x, n)) == Value(x) * Pow2(n) % TWO_TO_32
    decreases n
  {
    hide Value, Plus;
    ValueBelow(x);
    if n > 0 {
      ValueLeft(Plus(x, x), n - 1);
      ValueSum(x, x);
      TwiceFirst(Value(x), Pow2(n - 1));
    }
  }

  lemma TwiceFirst(v: nat, p: nat)
    ensures (v + v) % TWO_TO_32 * p % TWO_TO_32 == v * (2 * p) % TWO_TO_32
  {
    var q, r := (v + v) / TWO_TO_32, (v + v) % TWO_TO_32;
    assert v * (2 * p) == (v + v) * p;
    assert (TWO_TO_32 * q + r) * p == TWO_TO_32 * (q * p) + r * p;
    WholeWords(q * p, r * p);
  }

  lemma WholeWords(k: nat, r: nat)
    ensures (TWO_TO_32 * k + r) % TWO_TO_32 == r % TWO_TO_32
  {
  }

  lemma LeftOne(x: bv32)
    ensures Left(x, 1) == x << 1
  {
    assert x + x == x << 1;
  }

  lemma LeftTwice(x: bv32, y: bv32, z: bv32, n: nat)
    requires Left(x, n) == y && Left(y, n) == z
    ensures Left(x, n + n) == z
  {
    LeftSplit(x, n, n);
  }

  lemma LeftTwo(x: bv32)
    ensures Left(x, 2) == x << 2
  {
    hide Left;
    LeftOne(x);
    LeftOne(x << 1);
    LeftTwice(x, x << 1, (x << 1) << 1, 1);
  }

  lemma LeftFour(x: bv32)
    ensures Left(x, 4) == x << 4
  {
    hide Left;
    LeftTwo(x);
    LeftTwo(x << 2);
    LeftTwice(x, x << 2, (x << 2) << 2, 2);
  }

  lemma LeftEight(x: bv32)
    ensures Left(x, 8) == x << 8
  {
    hide Left;
    LeftFour(x);
    LeftFour(x << 4);
    LeftTwice(x, x << 4, (x << 4) << 4, 4);
  }

  lemma LeftSixteen(x: bv32)
    ensures Left(x, 16) == x << 16
  {
    hide Left;
    LeftEight(x);
    LeftEight(x << 8);
    LeftTwice(x, x << 8, (x << 8) << 8, 8);
  }

  lemma RightJoin(x: bv32, y: bv32, z: bv32, n: nat, m: nat)
    requires Right(x, n) == y && Right(y, m) == z
    ensures Right(x, n + m) == z
  {
    hide Right, Half, Plus;
    RightSplit(x, n, m);
  }

  lemma LeftJoin(x: bv32, y: bv32, z: bv32, n: nat, m: nat)
    requires Left(x, n) == y && Left(y, m) == z
    ensures Left(x, n + m) == z
  {
    hide Left, Half, Plus;
    LeftSplit(x, n, m);
  }

  lemma LeftNone(x: bv32)
    ensures Left(x, 0) == x
  {
  }

  /** A number of 32 bits rotated to the right: its low n bits in front of the others. */
  function Rotated(v: nat, n: nat): nat
    requires n <= 32
  {
    hide Pow2;
    v / Pow2(n) + v % Pow2(n) * Pow2(32 - n)
  }

  lemma ValueRotated(x: bv32, n: nat, r: bv32)
    requires 0 < n < 32 && r == Plus(Right(x, n), Left(x, 32 - n))
    ensures Value(r) == Rotated(Value(x), n)
  {
    hide Value, Right, Left, Plus, Pow2;
    ValueSum(Right(x, n), Left(x, 32 - n));
    ValueRight(x, n);
    ValueLeft(x, 32 - n);
    ValueBelow(x);
    RotatedSum(Value(x), n);
  }

  lemma RotatedSum(v: nat, n: nat)
    requires 0 < n < 32 && v < TWO_TO_32
    ensures (v / Pow2(n) + v * Pow2(32 - n) % TWO_TO_32) % TWO_TO_32 == Rotated(v, n)
  {
    hide Pow2;
    Pow2Split(n, 32 - n);
    Pow2Word();
    RotatedParts(v, Pow2(n), Pow2(32 - n), v / Pow2(n), v % Pow2(n));
  }

  lemma RotatedParts(v: nat, p: nat, q: nat, h: nat, l: nat)
    requires v < TWO_TO_32 && p > 0 && q > 0 && p * q == TWO_TO_32 && v == p * h + l && l < p
    ensures (h + v * q % TWO_TO_32) % TWO_TO_32 == h + l * q
  {
    assert v * q == TWO_TO_32 * h + l * q by {
      assert (p * h + l) * q == (p * h) * q + l * q;
      assert (p * h) * q == (p * q) * h;
    }
    assert l * q + q <= TWO_TO_32 by { Scale(l + 1, p, q); assert (l + 1) * q == l * q + q; }
    QuotientIs(v * q, TWO_TO_32, h, l * q);
    if h >= q {
      Scale(q, h, p);
      assert false;
    }
  }

  lemma Scale(a: nat, b: nat, k: nat)
    requires a <= b
    ensures a * k <= b * k && k * a <= k * b
  {
    assert (b - a) * k >= 0;
  }

  // ---- bits

  predicate Bit(v: nat, i: nat) { v / Pow2(i) % 2 == 1 }

  /** Exclusive or, bit by bit. */
  function Xor(a: nat, b: nat): nat {
    if a == 0 && b == 0 then 0 else 2 * Xor(a / 2, b / 2) + (a + b) % 2
  }

  function And(a: nat, b: nat): nat {
    if a == 0 || b == 0 then 0 else 2 * And(a / 2, b / 2) + (if a % 2 == 1 && b % 2 == 1 then 1 else 0)
  }

  lemma BitNext(v: nat, i: nat)
    ensures Bit(v, i + 1) == Bit(v / 2, i) && Bit(v, 0) == (v % 2 == 1)
  {
    HalfFirst(v, Pow2(i));
    assert Pow2(0) == 1;
  }

  lemma XorHalf(a: nat, b: nat)
    ensures Xor(a, b) / 2 == Xor(a / 2, b / 2) && Xor(a, b) % 2 == (a + b) % 2
  {
  }

  lemma AndHalf(a: nat, b: nat)
    ensures And(a, b) / 2 == And(a / 2, b / 2) && And(a, b) % 2 == if a % 2 == 1 && b % 2 == 1 then 1 else 0
  {
    if a == 0 || b == 0 { assert And(a / 2, b / 2) == 0; }
  }

  lemma {:induction false} BitOfXor(a: nat, b: nat, i: nat)
    ensures Bit(Xor(a, b), i) <==> Bit(a, i) != Bit(b, i)
    decreases i
  {
    hide Xor, Bit;
    XorHalf(a, b);
    if i == 0 {
      BitNext(Xor(a, b), 0);
      BitNext(a, 0);
      BitNext(b, 0);
    } else {
      BitNext(Xor(a, b), i - 1);
      BitNext(a, i - 1);
      BitNext(b, i - 1);
      BitOfXor(a / 2, b / 2, i - 1);
    }
  }

  lemma {:induction false} BitOfAnd(a: nat, b: nat, i: nat)
    ensures Bit(And(a, b), i) <==> Bit(a, i) && Bit(b, i)
    decreases i
  {
    hide And, Bit;
    AndHalf(a, b);
    if i == 0 {
      BitNext(And(a, b), 0);
      BitNext(a, 0);
      BitNext(b, 0);
    } else {
      BitNext(And(a, b), i - 1);
      BitNext(a, i - 1);
      BitNext(b, i - 1);
      BitOfAnd(a / 2, b / 2, i - 1);
    }
  }

  lemma XorLow(x: bv32, y: bv32)
    ensures (x ^ y) >> 1 == (x >> 1) ^ (y >> 1) && (x ^ y) & 1 == (x & 1) ^ (y & 1)
  {
  }

  lemma AndLow(x: bv32, y: bv32)
    ensures (x & y) >> 1 == (x >> 1) & (y >> 1) && (x & y) & 1 == (x & 1) & (y & 1)
  {
  }

  lemma OnesLow()
    ensures 1 ^ 1 == 0 as bv32 && 1 ^ 0 == 1 as bv32 && 0 ^ 1 == 1 as bv32 && 0 ^ 0 == 0 as bv32
    ensures 1 & 1 == 1 as bv32 && 1 & 0 == 0 as bv32 && 0 & 1 == 0 as bv32 && 0 & 0 == 0 as bv32
  {
  }

  function XorWord(x: bv32, y: bv32): bv32 { x ^ y }

  function AndWord(x: bv32, y: bv32): bv32 { x & y }

  lemma XorOdd(x: bv32, y: bv32)
    ensures Odd(x ^ y) <==> Odd(x) != Odd(y)
  {
    hide Odd;
    OddBits(x);
    OddBits(y);
    OddBits(x ^ y);
    XorLow(x, y);
    OnesLow();
  }

  lemma AndOdd(x: bv32, y: bv32)
    ensures Odd(x & y) <==> Odd(x) && Odd(y)
  {
    hide Odd;
    OddBits(x);
    OddBits(y);
    OddBits(x & y);
    AndLow(x, y);
    OnesLow();
  }

  lemma OddBits(x: bv32)
    ensures Odd(x) ==> x & 1 == 1
    ensures !Odd(x) ==> x & 1 == 0
  {
  }

  lemma XorHalves(x: bv32, y: bv32)
    ensures Half(XorWord(x, y)) == XorWord(Half(x), Half(y)) && (Odd(XorWord(x, y)) <==> Odd(x) != Odd(y))
  {
    hide Odd;
    XorLow(x, y);
    XorOdd(x, y);
  }

  lemma AndHalves(x: bv32, y: bv32)
    ensures Half(AndWord(x, y)) == AndWord(Half(x), Half(y)) && (Odd(AndWord(x, y)) <==> Odd(x) && Odd(y))
  {
    hide Odd;
    AndLow(x, y);
    AndOdd(x, y);
  }

  lemma {:induction false} XorFits(x: bv32, y: bv32, k: nat)
    requires Right(x, k) == 0 && Right(y, k) == 0
    ensures Value(XorWord(x, y)) == Xor(Value(x), Value(y))
    decreases k
  {
    hide Value, XorWord, Xor, Half, Odd, Right;
    if k == 0 {
      RightZero(x);
      RightZero(y);
      NothingToXor();
    } else {
      RightStep(x, k);
      RightStep(y, k);
      XorFits(Half(x), Half(y), k - 1);
      XorHalves(x, y);
      HalfValue(x);
      HalfValue(y);
      HalfValue(XorWord(x, y));
      XorHalf(Value(x), Value(y));
      SameNumber(Value(XorWord(x, y)), Xor(Value(x), Value(y)));
    }
  }

  lemma RightZero(x: bv32)
    ensures Right(x, 0) == x
  {
  }

  lemma RightStep(x: bv32, k: nat)
    requires k > 0
    ensures Right(x, k) == Right(Half(x), k - 1)
  {
    hide Half;
  }

  lemma HalfValue(x: bv32)
    ensures Value(x) / 2 == Value(Half(x)) && (Value(x) % 2 == 1 <==> Odd(x))
  {
    hide Value, Half, Odd;
    Halves(x);
  }

  lemma SameNumber(a: nat, b: nat)
    requires a / 2 == b / 2 && (a % 2 == 1 <==> b % 2 == 1)
    ensures a == b
  {
  }

  lemma NothingToXor()
    ensures XorWord(0, 0) == 0 && AndWord(0, 0) == 0 && Value(0) == 0 && Xor(0, 0) == 0 && And(0, 0) == 0
  {
  }

  lemma {:induction false} AndFits(x: bv32, y: bv32, k: nat)
    requires Right(x, k) == 0 && Right(y, k) == 0
    ensures Value(AndWord(x, y)) == And(Value(x), Value(y))
    decreases k
  {
    hide Value, AndWord, And, Half, Odd, Right;
    if k == 0 {
      RightZero(x);
      RightZero(y);
      NothingToXor();
    } else {
      RightStep(x, k);
      RightStep(y, k);
      AndFits(Half(x), Half(y), k - 1);
      AndHalves(x, y);
      HalfValue(x);
      HalfValue(y);
      HalfValue(AndWord(x, y));
      AndHalf(Value(x), Value(y));
      SameNumber(Value(AndWord(x, y)), And(Value(x), Value(y)));
    }
  }

  lemma ValueXor(x: bv32, y: bv32)
    ensures Value(XorWord(x, y)) == Xor(Value(x), Value(y))
  {
    hide *;
    RightAll(x);
    RightAll(y);
    XorFits(x, y, 32);
  }

  lemma ValueAnd(x: bv32, y: bv32)
    ensures Value(AndWord(x, y)) == And(Value(x), Value(y))
  {
    hide *;
    RightAll(x);
    RightAll(y);
    AndFits(x, y, 32);
  }

  lemma TwoXors(a: bv32, b: bv32, c: bv32)
    ensures a ^ b ^ c == XorWord(XorWord(a, b), c)
  {
  }

  lemma BitsTell(x: bv32, y: bv32)
    requires x >> 1 == y >> 1 && x & 1 == y & 1
    ensures x == y
  {
  }

  lemma HalvesTell(x: bv32, y: bv32)
    requires Half(x) == Half(y) && Odd(x) == Odd(y)
    ensures x == y
  {
    hide Value, Odd;
    OddBits(x);
    OddBits(y);
    BitsTell(x, y);
  }

  lemma ZeroHalves()
    ensures Half(0) == 0 && !Odd(0)
  {
  }

  lemma {:induction false} OnlyZero(x: bv32)
    requires Value(x) == 0
    ensures x == 0
    decreases x
  {
    hide Odd;
    if x != 0 {
      OnlyZero(Half(x));
      ZeroHalves();
      HalvesTell(x, 0);
    }
  }

  /** Words with one value are one word. */
  lemma {:induction false} ValueTells(x: bv32, y: bv32)
    requires Value(x) == Value(y)
    ensures x == y
    decreases Value(x)
  {
    hide Value, Half, Odd;
    if Value(x) == 0 {
      OnlyZero(x);
      OnlyZero(y);
    } else {
      Halves(x);
      Halves(y);
      ValueTells(Half(x), Half(y));
      HalvesTell(x, y);
    }
  }
}
