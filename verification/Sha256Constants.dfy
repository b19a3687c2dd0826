/** Where the constants of SHA-256 come from (sections 4.2.2 and 5.3.2 of FIPS 180-2). */
module Sha256Constants {
  import opened Sha256

  // ---- primes, counted from 0

  ghost predicate IsPrime(n: nat) {
    n >= 2 && forall d :: 2 <= d < n ==> n % d != 0
  }

  ghost function PrimesBelow(n: nat): nat {
    if n == 0 then 0 else PrimesBelow(n - 1) + if IsPrime(n - 1) then 1 else 0
  }

  /** p is the prime before which t primes stand. */
  ghost predicate Nth(t: nat, p: nat) { IsPrime(p) && PrimesBelow(p) == t }

  predicate Divides(d: nat, n: nat)
    requires d > 0
  {
    d < n && n % d == 0
  }

  /** The trial divisions that settle the numbers below 361. */
  predicate Sifted(n: nat) {
    Divides(2, n) || Divides(3, n) || Divides(5, n) || Divides(7, n) || Divides(11, n) || Divides(13, n) || Divides(17, n)
  }

  predicate SiftedBetween(p: nat, q: nat)
    decreases q - p
  {
    p + 1 >= q || (Sifted(p + 1) && SiftedBetween(p + 1, q))
  }

  lemma Cofactor(n: nat, d: nat)
    requires d > 1 && Divides(d, n)
    ensures n / d > 1 && Divides(n / d, n) && d * (n / d) == n
  {
    var e := n / d;
    assert n == d * e;
    if e >= n { AtLeast(d - 1, e); }
    Multiple(d, e);
  }

  lemma Multiple(a: nat, b: nat)
    requires b > 0
    ensures (a * b) % b == 0
  {
    var q, r := a * b / b, a * b % b;
    assert a * b == q * b + r;
    Quotient(a - q, b, r);
  }

  lemma Quotient(k: int, b: nat, r: nat)
    requires k * b == r && r < b
    ensures r == 0
  {
    if k > 0 { AtLeast(k, b); } else if k < 0 { AtLeast(-k, b); }
  }

  lemma AtLeast(k: nat, b: nat)
    requires k > 0
    ensures k * b >= b
  {
  }

  lemma DividesThrough(d: nat, e: nat, n: nat)
    requires d > 0 && Divides(d, e) && Divides(e, n)
    ensures Divides(d, n)
  {
    var a, b := e / d, n / e;
    assert e == a * d && n == b * e;
    assert n == (b * a) * d by { assert b * (a * d) == (b * a) * d; }
    Multiple(b * a, d);
  }

  lemma SmallIsSifted(d: nat, n: nat)
    requires 2 <= d < 19 && Divides(d, n)
    ensures Sifted(n)
  {
    if d % 2 == 0 && d > 2 { DividesThrough(2, d, n); }
    else if d % 3 == 0 && d > 3 { DividesThrough(3, d, n); }
  }

  /** A number below 361 is prime exactly if the trial divisions leave it. */
  lemma PrimeIff(n: nat)
    requires 2 <= n < 361
    ensures IsPrime(n) <==> !Sifted(n)
  {
    if !IsPrime(n) {
      var d :| 2 <= d < n && n % d == 0;
      Cofactor(n, d);
      var e := n / d;
      if d < 19 { SmallIsSifted(d, n); }
      else if e < 19 { SmallIsSifted(e, n); }
      else { assert d * e >= 19 * 19 by { Products(d, e); } }
    }
  }

  lemma Products(d: nat, e: nat)
    requires d >= 19 && e >= 19
    ensures d * e >= 19 * 19
  {
  }

  lemma {:induction false} SameCount(p: nat, q: nat)
    requires 2 <= p < q <= 361 && SiftedBetween(p, q)
    ensures PrimesBelow(q) == PrimesBelow(p + 1)
    decreases q - p
  {
    if p + 1 < q {
      SameCount(p + 1, q);
      PrimeIff(p + 1);
    }
  }

  lemma Next(t: nat, p: nat, q: nat)
    requires Nth(t, p) && p < q < 361 && SiftedBetween(p, q) && !Sifted(q)
    ensures Nth(t + 1, q)
  {
    SameCount(p, q);
    PrimeIff(q);
  }

  lemma First()
    ensures Nth(0, 2)
  {
    assert PrimesBelow(1) == 0;
    assert PrimesBelow(2) == 0;
  }

  lemma Primes0()
    ensures Nth(0, 2) && Nth(1, 3) && Nth(2, 5) && Nth(3, 7)
  {
    hide Nth, PrimesBelow;
    First();
    Next(0, 2, 3);
    Next(1, 3, 5);
    Next(2, 5, 7);
  }

  lemma Primes4()
    ensures Nth(4, 11) && Nth(5, 13) && Nth(6, 17) && Nth(7, 19)
  {
    hide Nth, PrimesBelow;
    Primes0();
    Next(3, 7, 11);
    Next(4, 11, 13);
    Next(5, 13, 17);
    Next(6, 17, 19);
  }

  lemma Primes8()
    ensures Nth(8, 23) && Nth(9, 29) && Nth(10, 31) && Nth(11, 37)
  {
    hide Nth, PrimesBelow;
    Primes4();
    Next(7, 19, 23);
    Next(8, 23, 29);
    Next(9, 29, 31);
    Next(10, 31, 37);
  }

  lemma Primes12()
    ensures Nth(12, 41) && Nth(13, 43) && Nth(14, 47) && Nth(15, 53)
  {
    hide Nth, PrimesBelow;
    Primes8();
    Next(11, 37, 41);
    Next(12, 41, 43);
    Next(13, 43, 47);
    Next(14, 47, 53);
  }

  lemma Primes16()
    ensures Nth(16, 59) && Nth(17, 61) && Nth(18, 67) && Nth(19, 71)
  {
    hide Nth, PrimesBelow;
    Primes12();
    Next(15, 53, 59);
    Next(16, 59, 61);
    Next(17, 61, 67);
    Next(18, 67, 71);
  }

  lemma Primes20()
    ensures Nth(20, 73) && Nth(21, 79) && Nth(22, 83) && Nth(23, 89)
  {
    hide Nth, PrimesBelow;
    Primes16();
    Next(19, 71, 73);
    Next(20, 73, 79);
    Next(21, 79, 83);
    Next(22, 83, 89);
  }

  lemma Primes24()
    ensures Nth(24, 97) && Nth(25, 101) && Nth(26, 103) && Nth(27, 107)
  {
    hide Nth, PrimesBelow;
    Primes20();
    Next(23, 89, 97);
    Next(24, 97, 101);
    Next(25, 101, 103);
    Next(26, 103, 107);
  }

  lemma Primes28()
    ensures Nth(28, 109) && Nth(29, 113) && Nth(30, 127) && Nth(31, 131)
  {
    hide Nth, PrimesBelow;
    Primes24();
    Next(27, 107, 109);
    Next(28, 109, 113);
    Next(29, 113, 127);
    Next(30, 127, 131);
  }

  lemma Primes32()
    ensures Nth(32, 137) && Nth(33, 139) && Nth(34, 149) && Nth(35, 151)
  {
    hide Nth, PrimesBelow;
    Primes28();
    Next(31, 131, 137);
    Next(32, 137, 139);
    Next(33, 139, 149);
    Next(34, 149, 151);
  }

  lemma Primes36()
    ensures Nth(36, 157) && Nth(37, 163) && Nth(38, 167) && Nth(39, 173)
  {
    hide Nth, PrimesBelow;
    Primes32();
    Next(35, 151, 157);
    Next(36, 157, 163);
    Next(37, 163, 167);
    Next(38, 167, 173);
  }

  lemma Primes40()
    ensures Nth(40, 179) && Nth(41, 181) && Nth(42, 191) && Nth(43, 193)
  {
    hide Nth, PrimesBelow;
    Primes36();
    Next(39, 173, 179);
    Next(40, 179, 181);
    Next(41, 181, 191);
    Next(42, 191, 193);
  }

  lemma Primes44()
    ensures Nth(44, 197) && Nth(45, 199) && Nth(46, 211) && Nth(47, 223)
  {
    hide Nth, PrimesBelow;
    Primes40();
    Next(43, 193, 197);
    Next(44, 197, 199);
    Next(45, 199, 211);
    Next(46, 211, 223);
  }

  lemma Primes48()
    ensures Nth(48, 227) && Nth(49, 229) && Nth(50, 233) && Nth(51, 239)
  {
    hide Nth, PrimesBelow;
    Primes44();
    Next(47, 223, 227);
    Next(48, 227, 229);
    Next(49, 229, 233);
    Next(50, 233, 239);
  }

  lemma Primes52()
    ensures Nth(52, 241) && Nth(53, 251) && Nth(54, 257) && Nth(55, 263)
  {
    hide Nth, PrimesBelow;
    Primes48();
    Next(51, 239, 241);
    Next(52, 241, 251);
    Next(53, 251, 257);
    Next(54, 257, 263);
  }

  lemma Primes56()
    ensures Nth(56, 269) && Nth(57, 271) && Nth(58, 277) && Nth(59, 281)
  {
    hide Nth, PrimesBelow;
    Primes52();
    Next(55, 263, 269);
    Next(56, 269, 271);
    Next(57, 271, 277);
    Next(58, 277, 281);
  }

  lemma Primes60()
    ensures Nth(60, 283) && Nth(61, 293) && Nth(62, 307) && Nth(63, 311)
  {
    hide Nth, PrimesBelow;
    Primes56();
    Next(59, 281, 283);
    Next(60, 283, 293);
    Next(61, 293, 307);
    Next(62, 307, 311);
  }

  // ---- fractions of roots

  function Cube(x: nat): nat { x * x * x }

  function Square(x: nat): nat { x * x }

  /** The cube root of p lies between n and k times 2^-32, and n and k + 1 times 2^-32. */
  predicate CubeBetween(n: nat, k: nat, p: nat) {
    Cube(n * TWO_TO_32 + k) <= p * Cube(TWO_TO_32) < Cube(n * TWO_TO_32 + k + 1)
  }

  predicate SquareBetween(n: nat, k: nat, p: nat) {
    Square(n * TWO_TO_32 + k) <= p * Square(TWO_TO_32) < Square(n * TWO_TO_32 + k + 1)
  }

  /** k holds the first 32 bits of the fraction of the cube root of p. */
  ghost predicate CubeRootBits(p: nat, k: int) {
    0 <= k < TWO_TO_32 && exists n: nat :: CubeBetween(n, k, p)
  }

  /** k holds the first 32 bits of the fraction of the square root of p. */
  ghost predicate SquareRootBits(p: nat, k: int) {
    0 <= k < TWO_TO_32 && exists n: nat :: SquareBetween(n, k, p)
  }

  lemma Row0()
    ensures K[0] == 0x428a2f98 && K[1] == 0x71374491 && K[2] == 0xb5c0fbcf && K[3] == 0xe9b5dba5 && K[4] == 0x3956c25b && K[5] == 0x59f111f1 && K[6] == 0x923f82a4 && K[7] == 0xab1c5ed5
  {
  }

  lemma Row8()
    ensures K[8] == 0xd807aa98 && K[9] == 0x12835b01 && K[10] == 0x243185be && K[11] == 0x550c7dc3 && K[12] == 0x72be5d74 && K[13] == 0x80deb1fe && K[14] == 0x9bdc06a7 && K[15] == 0xc19bf174
  {
  }

  lemma Row16()
    ensures K[16] == 0xe49b69c1 && K[17] == 0xefbe4786 && K[18] == 0x0fc19dc6 && K[19] == 0x240ca1cc && K[20] == 0x2de92c6f && K[21] == 0x4a7484aa && K[22] == 0x5cb0a9dc && K[23] == 0x76f988da
  {
  }

  lemma Row24()
    ensures K[24] == 0x983e5152 && K[25] == 0xa831c66d && K[26] == 0xb00327c8 && K[27] == 0xbf597fc7 && K[28] == 0xc6e00bf3 && K[29] == 0xd5a79147 && K[30] == 0x06ca6351 && K[31] == 0x14292967
  {
  }

  lemma Row32()
    ensures K[32] == 0x27b70a85 && K[33] == 0x2e1b2138 && K[34] == 0x4d2c6dfc && K[35] == 0x53380d13 && K[36] == 0x650a7354 && K[37] == 0x766a0abb && K[38] == 0x81c2c92e && K[39] == 0x92722c85
  {
  }

  lemma Row40()
    ensures K[40] == 0xa2bfe8a1 && K[41] == 0xa81a664b && K[42] == 0xc24b8b70 && K[43] == 0xc76c51a3 && K[44] == 0xd192e819 && K[45] == 0xd6990624 && K[46] == 0xf40e3585 && K[47] == 0x106aa070
  {
  }

  lemma Row48()
    ensures K[48] == 0x19a4c116 && K[49] == 0x1e376c08 && K[50] == 0x2748774c && K[51] == 0x34b0bcb5 && K[52] == 0x391c0cb3 && K[53] == 0x4ed8aa4a && K[54] == 0x5b9cca4f && K[55] == 0x682e6ff3
  {
  }

  lemma Row56()
    ensures K[56] == 0x748f82ee && K[57] == 0x78a5636f && K[58] == 0x84c87814 && K[59] == 0x8cc70208 && K[60] == 0x90befffa && K[61] == 0xa4506ceb && K[62] == 0xbef9a3f7 && K[63] == 0xc67178f2
  {
  }

  lemma InitialRow()
    ensures INITIAL[0] == 0x6a09e667 && INITIAL[1] == 0xbb67ae85 && INITIAL[2] == 0x3c6ef372 && INITIAL[3] == 0xa54ff53a && INITIAL[4] == 0x510e527f && INITIAL[5] == 0x9b05688c && INITIAL[6] == 0x1f83d9ab && INITIAL[7] == 0x5be0cd19
  {
  }

  /** Constant t holds the first 32 bits of the fraction of the cube root of the prime with number t. */
  ghost predicate RoundConstantIs(t: nat)
    requires t < 64
  {
    exists p: nat :: Nth(t, p) && CubeRootBits(p, K[t] as int)
  }

  /** Word t of the initial hash value holds those of the square root. */
  ghost predicate InitialWordIs(t: nat)
    requires t < 8
  {
    exists p: nat :: Nth(t, p) && SquareRootBits(p, INITIAL[t] as int)
  }

  lemma Roots0()
    ensures RoundConstantIs(0) && RoundConstantIs(1) && RoundConstantIs(2) && RoundConstantIs(3)
  {
    hide K, Nth;
    Primes0();
    Row0();
    assert CubeBetween(1, 0x428a2f98, 2) && Nth(0, 2);
    assert CubeBetween(1, 0x71374491, 3) && Nth(1, 3);
    assert CubeBetween(1, 0xb5c0fbcf, 5) && Nth(2, 5);
    assert CubeBetween(1, 0xe9b5dba5, 7) && Nth(3, 7);
  }

  lemma Roots4()
    ensures RoundConstantIs(4) && RoundConstantIs(5) && RoundConstantIs(6) && RoundConstantIs(7)
  {
    hide K, Nth;
    Primes4();
    Row0();
    assert CubeBetween(2, 0x3956c25b, 11) && Nth(4, 11);
    assert CubeBetween(2, 0x59f111f1, 13) && Nth(5, 13);
    assert CubeBetween(2, 0x923f82a4, 17) && Nth(6, 17);
    assert CubeBetween(2, 0xab1c5ed5, 19) && Nth(7, 19);
  }

  lemma Roots8()
    ensures RoundConstantIs(8) && RoundConstantIs(9) && RoundConstantIs(10) && RoundConstantIs(11)
  {
    hide K, Nth;
    Primes8();
    Row8();
    assert CubeBetween(2, 0xd807aa98, 23) && Nth(8, 23);
    assert CubeBetween(3, 0x12835b01, 29) && Nth(9, 29);
    assert CubeBetween(3, 0x243185be, 31) && Nth(10, 31);
    assert CubeBetween(3, 0x550c7dc3, 37) && Nth(11, 37);
  }

  lemma Roots12()
    ensures RoundConstantIs(12) && RoundConstantIs(13) && RoundConstantIs(14) && RoundConstantIs(15)
  {
    hide K, Nth;
    Primes12();
    Row8();
    assert CubeBetween(3, 0x72be5d74, 41) && Nth(12, 41);
    assert CubeBetween(3, 0x80deb1fe, 43) && Nth(13, 43);
    assert CubeBetween(3, 0x9bdc06a7, 47) && Nth(14, 47);
    assert CubeBetween(3, 0xc19bf174, 53) && Nth(15, 53);
  }

  lemma Roots16()
    ensures RoundConstantIs(16) && RoundConstantIs(17) && RoundConstantIs(18) && RoundConstantIs(19)
  {
    hide K, Nth;
    Primes16();
    Row16();
    assert CubeBetween(3, 0xe49b69c1, 59) && Nth(16, 59);
    assert CubeBetween(3, 0xefbe4786, 61) && Nth(17, 61);
    assert CubeBetween(4, 0x0fc19dc6, 67) && Nth(18, 67);
    assert CubeBetween(4, 0x240ca1cc, 71) && Nth(19, 71);
  }

  lemma Roots20()
    ensures RoundConstantIs(20) && RoundConstantIs(21) && RoundConstantIs(22) && RoundConstantIs(23)
  {
    hide K, Nth;
    Primes20();
    Row16();
    assert CubeBetween(4, 0x2de92c6f, 73) && Nth(20, 73);
    assert CubeBetween(4, 0x4a7484aa, 79) && Nth(21, 79);
    assert CubeBetween(4, 0x5cb0a9dc, 83) && Nth(22, 83);
    assert CubeBetween(4, 0x76f988da, 89) && Nth(23, 89);
  }

  lemma Roots24()
    ensures RoundConstantIs(24) && RoundConstantIs(25) && RoundConstantIs(26) && RoundConstantIs(27)
  {
    hide K, Nth;
    Primes24();
    Row24();
    assert CubeBetween(4, 0x983e5152, 97) && Nth(24, 97);
    assert CubeBetween(4, 0xa831c66d, 101) && Nth(25, 101);
    assert CubeBetween(4, 0xb00327c8, 103) && Nth(26, 103);
    assert CubeBetween(4, 0xbf597fc7, 107) && Nth(27, 107);
  }

  lemma Roots28()
    ensures RoundConstantIs(28) && RoundConstantIs(29) && RoundConstantIs(30) && RoundConstantIs(31)
  {
    hide K, Nth;
    Primes28();
    Row24();
    assert CubeBetween(4, 0xc6e00bf3, 109) && Nth(28, 109);
    assert CubeBetween(4, 0xd5a79147, 113) && Nth(29, 113);
    assert CubeBetween(5, 0x06ca6351, 127) && Nth(30, 127);
    assert CubeBetween(5, 0x14292967, 131) && Nth(31, 131);
  }

  lemma Roots32()
    ensures RoundConstantIs(32) && RoundConstantIs(33) && RoundConstantIs(34) && RoundConstantIs(35)
  {
    hide K, Nth;
    Primes32();
    Row32();
    assert CubeBetween(5, 0x27b70a85, 137) && Nth(32, 137);
    assert CubeBetween(5, 0x2e1b2138, 139) && Nth(33, 139);
    assert CubeBetween(5, 0x4d2c6dfc, 149) && Nth(34, 149);
    assert CubeBetween(5, 0x53380d13, 151) && Nth(35, 151);
  }

  lemma Roots36()
    ensures RoundConstantIs(36) && RoundConstantIs(37) && RoundConstantIs(38) && RoundConstantIs(39)
  {
    hide K, Nth;
    Primes36();
    Row32();
    assert CubeBetween(5, 0x650a7354, 157) && Nth(36, 157);
    assert CubeBetween(5, 0x766a0abb, 163) && Nth(37, 163);
    assert CubeBetween(5, 0x81c2c92e, 167) && Nth(38, 167);
    assert CubeBetween(5, 0x92722c85, 173) && Nth(39, 173);
  }

  lemma Roots40()
    ensures RoundConstantIs(40) && RoundConstantIs(41) && RoundConstantIs(42) && RoundConstantIs(43)
  {
    hide K, Nth;
    Primes40();
    Row40();
    assert CubeBetween(5, 0xa2bfe8a1, 179) && Nth(40, 179);
    assert CubeBetween(5, 0xa81a664b, 181) && Nth(41, 181);
    assert CubeBetween(5, 0xc24b8b70, 191) && Nth(42, 191);
    assert CubeBetween(5, 0xc76c51a3, 193) && Nth(43, 193);
  }

  lemma Roots44()
    ensures RoundConstantIs(44) && RoundConstantIs(45) && RoundConstantIs(46) && RoundConstantIs(47)
  {
    hide K, Nth;
    Primes44();
    Row40();
    assert CubeBetween(5, 0xd192e819, 197) && Nth(44, 197);
    assert CubeBetween(5, 0xd6990624, 199) && Nth(45, 199);
    assert CubeBetween(5, 0xf40e3585, 211) && Nth(46, 211);
    assert CubeBetween(6, 0x106aa070, 223) && Nth(47, 223);
  }

  lemma Roots48()
    ensures RoundConstantIs(48) && RoundConstantIs(49) && RoundConstantIs(50) && RoundConstantIs(51)
  {
    hide K, Nth;
    Primes48();
    Row48();
    assert CubeBetween(6, 0x19a4c116, 227) && Nth(48, 227);
    assert CubeBetween(6, 0x1e376c08, 229) && Nth(49, 229);
    assert CubeBetween(6, 0x2748774c, 233) && Nth(50, 233);
    assert CubeBetween(6, 0x34b0bcb5, 239) && Nth(51, 239);
  }

  lemma Roots52()
    ensures RoundConstantIs(52) && RoundConstantIs(53) && RoundConstantIs(54) && RoundConstantIs(55)
  {
    hide K, Nth;
    Primes52();
    Row48();
    assert CubeBetween(6, 0x391c0cb3, 241) && Nth(52, 241);
    assert CubeBetween(6, 0x4ed8aa4a, 251) && Nth(53, 251);
    assert CubeBetween(6, 0x5b9cca4f, 257) && Nth(54, 257);
    assert CubeBetween(6, 0x682e6ff3, 263) && Nth(55, 263);
  }

  lemma Roots56()
    ensures RoundConstantIs(56) && RoundConstantIs(57) && RoundConstantIs(58) && RoundConstantIs(59)
  {
    hide K, Nth;
    Primes56();
    Row56();
    assert CubeBetween(6, 0x748f82ee, 269) && Nth(56, 269);
    assert CubeBetween(6, 0x78a5636f, 271) && Nth(57, 271);
    assert CubeBetween(6, 0x84c87814, 277) && Nth(58, 277);
    assert CubeBetween(6, 0x8cc70208, 281) && Nth(59, 281);
  }

  lemma Roots60()
    ensures RoundConstantIs(60) && RoundConstantIs(61) && RoundConstantIs(62) && RoundConstantIs(63)
  {
    hide K, Nth;
    Primes60();
    Row56();
    assert CubeBetween(6, 0x90befffa, 283) && Nth(60, 283);
    assert CubeBetween(6, 0xa4506ceb, 293) && Nth(61, 293);
    assert CubeBetween(6, 0xbef9a3f7, 307) && Nth(62, 307);
    assert CubeBetween(6, 0xc67178f2, 311) && Nth(63, 311);
  }

  /** Each constant of the rounds comes from the cube root of the prime with its number. */
  lemma RoundConstants(t: nat)
    requires t < 64
    ensures RoundConstantIs(t)
  {
    hide RoundConstantIs;
    Roots0();
    Roots4();
    Roots8();
    Roots12();
    Roots16();
    Roots20();
    Roots24();
    Roots28();
    Roots32();
    Roots36();
    Roots40();
    Roots44();
    Roots48();
    Roots52();
    Roots56();
    Roots60();
  }

  /** The initial hash value comes from the square roots of the first eight primes. */
  lemma InitialHash(t: nat)
    requires t < 8
    ensures InitialWordIs(t)
  {
    hide Nth, INITIAL;
    Primes0();
    Primes4();
    InitialRow();
    assert SquareBetween(1, 0x6a09e667, 2) && Nth(0, 2);
    assert SquareBetween(1, 0xbb67ae85, 3) && Nth(1, 3);
    assert SquareBetween(2, 0x3c6ef372, 5) && Nth(2, 5);
    assert SquareBetween(2, 0xa54ff53a, 7) && Nth(3, 7);
    assert SquareBetween(3, 0x510e527f, 11) && Nth(4, 11);
    assert SquareBetween(3, 0x9b05688c, 13) && Nth(5, 13);
    assert SquareBetween(4, 0x1f83d9ab, 17) && Nth(6, 17);
    assert SquareBetween(4, 0x5be0cd19, 19) && Nth(7, 19);
  }
}
