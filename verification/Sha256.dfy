/** Streaming SHA-256 against the definition of FIPS 180-2: padding of section 5.1.1, hash computation
    of section 6.2.2. */
module Sha256 {

  newtype Byte = x: int | 0 <= x < 256
  type Word = bv32

  const TWO_TO_32 := 0x1_0000_0000
  const TWO_TO_64 := 0x1_0000_0000_0000_0000

  const K0: seq<Word> := [
    0x428a2f98, 0x71374491, 0xb5c0fbcf, 0xe9b5dba5, 0x3956c25b, 0x59f111f1, 0x923f82a4, 0xab1c5ed5,
    0xd807aa98, 0x12835b01, 0x243185be, 0x550c7dc3, 0x72be5d74, 0x80deb1fe, 0x9bdc06a7, 0xc19bf174
  ]
  const K16: seq<Word> := [
    0xe49b69c1, 0xefbe4786, 0x0fc19dc6, 0x240ca1cc, 0x2de92c6f, 0x4a7484aa, 0x5cb0a9dc, 0x76f988da,
    0x983e5152, 0xa831c66d, 0xb00327c8, 0xbf597fc7, 0xc6e00bf3, 0xd5a79147, 0x06ca6351, 0x14292967
  ]
  const K32: seq<Word> := [
    0x27b70a85, 0x2e1b2138, 0x4d2c6dfc, 0x53380d13, 0x650a7354, 0x766a0abb, 0x81c2c92e, 0x92722c85,
    0xa2bfe8a1, 0xa81a664b, 0xc24b8b70, 0xc76c51a3, 0xd192e819, 0xd6990624, 0xf40e3585, 0x106aa070
  ]
  const K48: seq<Word> := [
    0x19a4c116, 0x1e376c08, 0x2748774c, 0x34b0bcb5, 0x391c0cb3, 0x4ed8aa4a, 0x5b9cca4f, 0x682e6ff3,
    0x748f82ee, 0x78a5636f, 0x84c87814, 0x8cc70208, 0x90befffa, 0xa4506ceb, 0xbef9a3f7, 0xc67178f2
  ]
  const K: seq<Word> := K0 + K16 + K32 + K48

  const INITIAL: seq<Word> := [
    0x6a09e667, 0xbb67ae85, 0x3c6ef372, 0xa54ff53a, 0x510e527f, 0x9b05688c, 0x1f83d9ab, 0x5be0cd19
  ]

  // ---- section 4.1.2: the functions

  /** Addition modulo 2^32. */
  function Add(x: Word, y: Word): Word { x + y }

  function Ch(x: Word, y: Word, z: Word): Word { (x & y) ^ (!x & z) }
  function Xor3(x: Word, y: Word, z: Word): Word { x ^ y ^ z }
  function Maj(x: Word, y: Word, z: Word): Word { Xor3(x & y, x & z, y & z) }

  function RotR2(x: Word): Word { (x >> 2) | (x << 30) }
  function RotR6(x: Word): Word { (x >> 6) | (x << 26) }
  function RotR7(x: Word): Word { (x >> 7) | (x << 25) }
  function RotR11(x: Word): Word { (x >> 11) | (x << 21) }
  function RotR13(x: Word): Word { (x >> 13) | (x << 19) }
  function RotR17(x: Word): Word { (x >> 17) | (x << 15) }
  function RotR18(x: Word): Word { (x >> 18) | (x << 14) }
  function RotR19(x: Word): Word { (x >> 19) | (x << 13) }
  function RotR22(x: Word): Word { (x >> 22) | (x << 10) }
  function RotR25(x: Word): Word { (x >> 25) | (x << 7) }
  function ShR3(x: Word): Word { x >> 3 }
  function ShR10(x: Word): Word { x >> 10 }

  function BigSigma0(x: Word): Word { Xor3(RotR2(x), RotR13(x), RotR22(x)) }
  function BigSigma1(x: Word): Word { Xor3(RotR6(x), RotR11(x), RotR25(x)) }
  function SmallSigma0(x: Word): Word { Xor3(RotR7(x), RotR18(x), ShR3(x)) }
  function SmallSigma1(x: Word): Word { Xor3(RotR17(x), RotR19(x), ShR10(x)) }

  // ---- section 6.2.2: the computation

  function FromBytes(b0: Byte, b1: Byte, b2: Byte, b3: Byte): Word {
    (b0 as Word << 24) | (b1 as Word << 16) | (b2 as Word << 8) | (b3 as Word)
  }

  function WordAt(block: seq<Byte>, t: nat): Word
    requires 4 * t + 4 <= |block|
  {
    FromBytes(block[4 * t], block[4 * t + 1], block[4 * t + 2], block[4 * t + 3])
  }

  function Schedule(block: seq<Byte>, t: nat): Word
    requires |block| == 64
  {
    if t < 16 then WordAt(block, t)
    else Add(Add(Add(SmallSigma1(Schedule(block, t - 2)), Schedule(block, t - 7)), SmallSigma0(Schedule(block, t - 15))), Schedule(block, t - 16))
  }

  datatype Vars = Vars(a: Word, b: Word, c: Word, d: Word, e: Word, f: Word, g: Word, h: Word)

  function Round(v: Vars, k: Word, w: Word): Vars {
    var t1 := Add(Add(Add(Add(v.h, BigSigma1(v.e)), Ch(v.e, v.f, v.g)), k), w);
    var t2 := Add(BigSigma0(v.a), Maj(v.a, v.b, v.c));
    Vars(Add(t1, t2), v.a, v.b, v.c, Add(v.d, t1), v.e, v.f, v.g)
  }

  function Rounds(v: Vars, block: seq<Byte>, t: nat): Vars
    requires |block| == 64 && t <= 64
  {
    if t == 0 then v else Round(Rounds(v, block, t - 1), K[t - 1], Schedule(block, t - 1))
  }

  function Unpack(h: seq<Word>): Vars
    requires |h| == 8
  {
    Vars(h[0], h[1], h[2], h[3], h[4], h[5], h[6], h[7])
  }

  function Compress(h: seq<Word>, block: seq<Byte>): (r: seq<Word>)
    requires |h| == 8 && |block| == 64
    ensures |r| == 8
  {
    var v := Rounds(Unpack(h), block, 64);
    [Add(h[0], v.a), Add(h[1], v.b), Add(h[2], v.c), Add(h[3], v.d), Add(h[4], v.e), Add(h[5], v.f), Add(h[6], v.g), Add(h[7], v.h)]
  }

  /** The hash value after the blocks of a message of whole blocks. */
  function HashBlocks(m: seq<Byte>): (h: seq<Word>)
    requires |m| % 64 == 0
    ensures |h| == 8
  {
    if m == [] then INITIAL else Compress(HashBlocks(m[..|m| - 64]), m[|m| - 64..])
  }

  // ---- section 5.1.1: padding

  function Zeros(n: nat): (z: seq<Byte>)
    ensures |z| == n
  {
    seq(n, _ => 0)
  }

  /** The last k base-256 digits of x, most significant first. */
  function BigEndian(x: nat, k: nat): (r: seq<Byte>)
    ensures |r| == k
  {
    if k == 0 then [] else BigEndian(x / 256, k - 1) + [(x % 256) as Byte]
  }

  function Pad(m: seq<Byte>): (p: seq<Byte>)
    ensures |p| % 64 == 0 && m <= p
  {
    m + [0x80] + Zeros((55 - |m|) % 64) + BigEndian(8 * |m|, 8)
  }

  function WordBytes(w: Word): (r: seq<Byte>)
    ensures |r| == 4
  {
    [((w >> 24) & 0xff) as Byte, ((w >> 16) & 0xff) as Byte, ((w >> 8) & 0xff) as Byte, (w & 0xff) as Byte]
  }

  function Bytes(h: seq<Word>): (r: seq<Byte>)
    ensures |r| == 4 * |h|
  {
    if h == [] then [] else Bytes(h[..|h| - 1]) + WordBytes(h[|h| - 1])
  }

  /** The digest of a message. */
  function Digest(m: seq<Byte>): (d: seq<Byte>)
    ensures |d| == 32
  {
    Bytes(HashBlocks(Pad(m)))
  }

  // ---- padding keeps messages apart

  lemma {:induction false} DigitsTell(x: nat, y: nat, k: nat)
    requires x < Power256(k) && y < Power256(k) && BigEndian(x, k) == BigEndian(y, k)
    ensures x == y
  {
    if k > 0 {
      var a, b := BigEndian(x, k), BigEndian(y, k);
      assert a[..k - 1] == BigEndian(x / 256, k - 1) && b[..k - 1] == BigEndian(y / 256, k - 1);
      assert a[k - 1] == (x % 256) as Byte && b[k - 1] == (y % 256) as Byte;
      DigitsTell(x / 256, y / 256, k - 1);
    }
  }

  function Power256(k: nat): nat { if k == 0 then 1 else 256 * Power256(k - 1) }

  /** Different messages of less than 2^64 bits have different padded forms. */
  lemma PadTellsApart(m: seq<Byte>, m': seq<Byte>)
    requires 8 * |m| < TWO_TO_64 && 8 * |m'| < TWO_TO_64 && Pad(m) == Pad(m')
    ensures m == m'
  {
    var p := Pad(m);
    assert p[|p| - 8..] == BigEndian(8 * |m|, 8);
    assert p[|p| - 8..] == BigEndian(8 * |m'|, 8);
    PowerEight();
    DigitsTell(8 * |m|, 8 * |m'|, 8);
    assert m == p[..|m|] && m' == p[..|m'|];
  }

  /** The padded message after its w bytes of whole blocks is one block or two. */
  lemma PadBlocks(m: seq<Byte>, w: nat)
    requires w <= |m| && w % 64 == 0 && |m| - w < 64
    ensures var rest, len := |m| - w, BigEndian(8 * |m|, 8);
            var h := HashBlocks(m[..w]);
            HashBlocks(Pad(m)) ==
              if rest < 56 then Compress(h, m[w..] + [0x80] + Zeros(55 - rest) + len)
              else Compress(Compress(h, m[w..] + [0x80] + Zeros(63 - rest)), Zeros(56) + len)
  {
    hide HashBlocks, Compress, BigEndian, Pad, Zeros;
    if |m| - w < 56 { OneMore(m, w); } else { TwoMore(m, w); }
  }

  lemma OneMore(m: seq<Byte>, w: nat)
    requires w <= |m| && w % 64 == 0 && |m| - w < 56
    ensures HashBlocks(Pad(m)) == Compress(HashBlocks(m[..w]), m[w..] + [0x80] + Zeros(55 - (|m| - w)) + BigEndian(8 * |m|, 8))
  {
    hide HashBlocks, Compress, BigEndian, Pad, Zeros;
    PadOne(m, w);
    LastBlock(m[..w], m[w..] + [0x80] + Zeros(55 - (|m| - w)) + BigEndian(8 * |m|, 8));
  }

  lemma TwoMore(m: seq<Byte>, w: nat)
    requires w <= |m| && w % 64 == 0 && 56 <= |m| - w < 64
    ensures var one := m[w..] + [0x80] + Zeros(63 - (|m| - w));
            HashBlocks(Pad(m)) == Compress(Compress(HashBlocks(m[..w]), one), Zeros(56) + BigEndian(8 * |m|, 8))
  {
    hide HashBlocks, Compress, BigEndian, Pad, Zeros;
    var one := m[w..] + [0x80] + Zeros(63 - (|m| - w));
    PadTwo(m, w);
    LastBlock(m[..w], one);
    LastBlock(m[..w] + one, Zeros(56) + BigEndian(8 * |m|, 8));
  }

  lemma LastBlock(a: seq<Byte>, b: seq<Byte>)
    requires |a| % 64 == 0 && |b| == 64
    ensures |a + b| % 64 == 0 && HashBlocks(a + b) == Compress(HashBlocks(a), b)
  {
    hide Compress;
    assert (a + b)[..|a|] == a && (a + b)[|a|..] == b;
  }

  lemma Gap(len: nat, w: nat)
    requires w <= len && w % 64 == 0 && len - w < 64
    ensures (55 - len) % 64 == if len - w < 56 then 55 - (len - w) else 119 - (len - w)
  {
  }

  lemma PadWith(m: seq<Byte>, z: nat)
    requires z == (55 - |m|) % 64
    ensures Pad(m) == m + [0x80] + Zeros(z) + BigEndian(8 * |m|, 8)
  {
    hide BigEndian, Zeros;
  }

  lemma SplitAt(m: seq<Byte>, w: nat)
    requires w <= |m|
    ensures m == m[..w] + m[w..]
  {
  }

  lemma PadOne(m: seq<Byte>, w: nat)
    requires w <= |m| && w % 64 == 0 && |m| - w < 56
    ensures Pad(m) == m[..w] + (m[w..] + [0x80] + Zeros(55 - (|m| - w)) + BigEndian(8 * |m|, 8))
  {
    hide BigEndian, Zeros, Pad;
    Gap(|m|, w);
    PadWith(m, 55 - (|m| - w));
    SplitAt(m, w);
    Regroup(m[..w], m[w..], [0x80], Zeros(55 - (|m| - w)), BigEndian(8 * |m|, 8));
  }

  lemma PadTwo(m: seq<Byte>, w: nat)
    requires w <= |m| && w % 64 == 0 && 56 <= |m| - w < 64
    ensures Pad(m) == m[..w] + (m[w..] + [0x80] + Zeros(63 - (|m| - w))) + (Zeros(56) + BigEndian(8 * |m|, 8))
  {
    hide BigEndian, Zeros, Pad;
    var rest := |m| - w;
    Gap(|m|, w);
    PadWith(m, 119 - rest);
    SplitAt(m, w);
    MoreZeros(63 - rest, 56);
    RegroupTwo(m[..w], m[w..], [0x80], Zeros(63 - rest), Zeros(56), BigEndian(8 * |m|, 8));
  }

  lemma MoreZeros(a: nat, b: nat)
    ensures Zeros(a + b) == Zeros(a) + Zeros(b)
  {
  }

  lemma RegroupTwo(a: seq<Byte>, b: seq<Byte>, c: seq<Byte>, d: seq<Byte>, e: seq<Byte>, f: seq<Byte>)
    ensures (a + b) + c + (d + e) + f == a + (b + c + d) + (e + f)
  {
  }

  lemma Regroup(a: seq<Byte>, b: seq<Byte>, c: seq<Byte>, d: seq<Byte>, e: seq<Byte>)
    ensures (a + b) + c + d + e == a + (b + c + d + e)
  {
  }

  lemma EightDigits(x: nat)
    ensures BigEndian(x, 8) == [
      (x / 0x100_0000_0000_0000 % 0x100) as Byte, (x / 0x1_0000_0000_0000 % 0x100) as Byte,
      (x / 0x100_0000_0000 % 0x100) as Byte, (x / 0x1_0000_0000 % 0x100) as Byte,
      (x / 0x100_0000 % 0x100) as Byte, (x / 0x1_0000 % 0x100) as Byte, (x / 0x100 % 0x100) as Byte, (x % 0x100) as Byte]
  {
    TwoDigits(x, 6);
    TwoDigits(x / 0x1_0000, 4);
    TwoDigits(x / 0x1_0000_0000, 2);
    TwoDigits(x / 0x1_0000_0000_0000, 0);
    assert x / 0x1_0000 / 0x1_0000 == x / 0x1_0000_0000;
    assert x / 0x1_0000_0000 / 0x1_0000 == x / 0x1_0000_0000_0000;
    assert x / 0x1_0000 / 0x100 == x / 0x100_0000;
    assert x / 0x1_0000_0000 / 0x100 == x / 0x100_0000_0000;
    assert x / 0x1_0000_0000_0000 / 0x100 == x / 0x100_0000_0000_0000;
  }

  lemma TwoDigits(x: nat, k: nat)
    ensures BigEndian(x, k + 2) == BigEndian(x / 0x1_0000, k) + [(x / 0x100 % 0x100) as Byte] + [(x % 0x100) as Byte]
  {
    assert x / 256 / 256 == x / 0x1_0000;
  }

  /** Eight digits do not see beyond 2^64. */
  lemma {:induction false} DigitsWrap(x: nat, k: nat)
    ensures Power256(k) > 0 && BigEndian(x % Power256(k), k) == BigEndian(x, k)
  {
    if k > 0 {
      DigitsWrap(x / 256, k - 1);
      var p := Power256(k - 1);
      assert x % (256 * p) / 256 == x / 256 % p && x % (256 * p) % 256 == x % 256 by { SplitMod(x, p); }
    }
  }

  lemma SplitMod(x: nat, p: nat)
    requires p > 0
    ensures x % (256 * p) / 256 == x / 256 % p && x % (256 * p) % 256 == x % 256
  {
    var a, b := x / 256, x % 256;
    var c, d := a / p, a % p;
    assert x == 256 * a + b && a == p * c + d;
    assert x == (256 * p) * c + (256 * d + b) by { assert 256 * (p * c) == (256 * p) * c; }
    assert 256 * d + b < 256 * p;
    ModIs(x, 256 * p, c, 256 * d + b);
  }

  lemma ModIs(x: nat, n: nat, q: nat, r: nat)
    requires x == n * q + r && r < n
    ensures x % n == r
  {
    var d := q - x / n;
    assert n * d == n * q - n * (x / n);
    assert n * d == x % n - r;
    Multiple(n, d);
  }

  lemma Multiple(n: nat, d: int)
    ensures d >= 1 ==> n * d >= n
    ensures d <= -1 ==> n * d + n <= 0
  {
    if d >= 1 { assert n * (d - 1) >= 0; }
    if d <= -1 { assert n * (-d - 1) >= 0; }
  }

  lemma TotalBits(n: nat, w: nat)
    requires w <= n
    ensures BigEndian((8 * w % TWO_TO_64 + (n - w) * 8) % TWO_TO_64, 8) == BigEndian(8 * n, 8)
  {
    hide BigEndian, Power256;
    PowerEight();
    DigitsWrap(8 * n, 8);
    WrappedSum(8 * w, (n - w) * 8);
  }

  lemma WrappedSum(a: nat, b: nat)
    ensures (a % TWO_TO_64 + b) % TWO_TO_64 == (a + b) % TWO_TO_64
  {
  }

  lemma PowerEight()
    ensures Power256(8) == TWO_TO_64
  {
    assert Power256(2) == 0x1_0000;
    assert Power256(4) == 0x1_0000_0000;
    assert Power256(6) == 0x1_0000_0000_0000;
  }

  lemma BytesOf(h: seq<Word>, d: seq<Byte>)
    requires |h| == 8 && |d| == 32
    requires forall k, j :: 0 <= k < 8 && 0 <= j < 4 ==> d[4 * k + j] == ByteOf(h[k], j)
    ensures d == Bytes(h)
  {
    hide WordBytes;
    BytesPrefix(h, d, 8);
    assert h[..8] == h && d[..32] == d;
  }

  lemma {:induction false} BytesPrefix(h: seq<Word>, d: seq<Byte>, n: nat)
    requires |d| == 4 * |h| && n <= |h|
    requires forall k, j :: 0 <= k < |h| && 0 <= j < 4 ==> d[4 * k + j] == ByteOf(h[k], j)
    ensures d[..4 * n] == Bytes(h[..n])
  {
    hide WordBytes;
    if n > 0 {
      BytesPrefix(h, d, n - 1);
      assert h[..n][..n - 1] == h[..n - 1];
      var e, o := WordBytes(h[n - 1]), 4 * (n - 1);
      assert forall j :: 0 <= j < 4 ==> ByteOf(h[n - 1], j) == e[j];
      assert d[o + 0] == e[0] && d[o + 1] == e[1] && d[o + 2] == e[2] && d[o + 3] == e[3];
      assert d[..4 * n] == d[..4 * (n - 1)] + e;
    }
  }

  function ByteOf(w: Word, i: nat): Byte
    requires i < 4
  {
    WordBytes(w)[i]
  }

  // ---- the context

  /** The buffer holds what is left of the message after its whole blocks; the state has taken those in. */
  ghost predicate Tracks(data: seq<Byte>, datalen: nat, bitlen: nat, state: seq<Word>, message: seq<Byte>) {
    && |data| == 64 && datalen < 64 && datalen <= |message| && (|message| - datalen) % 64 == 0
    && data[..datalen] == message[|message| - datalen..]
    && state == HashBlocks(message[..|message| - datalen])
    && bitlen == 8 * (|message| - datalen) % TWO_TO_64
  }

  lemma InBuffer(data: seq<Byte>, datalen: nat, bitlen: nat, state: seq<Word>, message: seq<Byte>)
    requires Tracks(data, datalen, bitlen, state, message)
    ensures datalen < 64 && |state| == 8
  {
  }

  lemma FeedMore(data: seq<Byte>, datalen: nat, bitlen: nat, state: seq<Word>, message: seq<Byte>, b: Byte)
    requires Tracks(data, datalen, bitlen, state, message) && datalen < 63
    ensures Tracks(data[datalen := b], datalen + 1, bitlen, state, message + [b])
  {
    hide HashBlocks;
    var w := |message| - datalen;
    assert (message + [b])[..w] == message[..w] && (message + [b])[w..] == message[w..] + [b];
    assert data[datalen := b][..datalen + 1] == data[..datalen] + [b];
  }

  lemma FeedLast(data: seq<Byte>, bitlen: nat, state: seq<Word>, message: seq<Byte>, b: Byte)
    requires Tracks(data, 63, bitlen, state, message)
    ensures |state| == 8
    ensures Tracks(data[63 := b], 0, (bitlen + 512) % TWO_TO_64, Compress(state, data[63 := b]), message + [b])
  {
    hide HashBlocks, Compress;
    var w, m, d := |message| - 63, message + [b], data[63 := b];
    assert d == data[..63] + [b];
    assert m == message[..w] + d;
    LastBlock(message[..w], d);
    BitsOfBlock(w);
    assert m[..|m|] == m && d[..0] == m[|m|..];
  }

  // ---- the counter of an update

  /** The 32-bit counter after k rounds of the loop. */
  function Counter(k: nat): nat {
    if k == 0 then 0 else (Counter(k - 1) + 1) % TWO_TO_32
  }

  lemma {:induction false} CounterAt(k: nat)
    ensures Counter(k) == k % TWO_TO_32
  {
    if k > 0 { CounterAt(k - 1); }
  }

  /** After k rounds the loop over `len` bytes is at its end. */
  ghost predicate UpdateEnds(len: nat, k: nat) { !(Counter(k) < len) }

  /** Some number of rounds ends the loop exactly if the length is below 2^32; it ends after as many
      rounds as there are bytes, and not before. */
  lemma UpdateEndsIff(len: nat)
    ensures (exists k :: UpdateEnds(len, k)) <==> len < TWO_TO_32
    ensures len < TWO_TO_32 ==> UpdateEnds(len, len) && forall k: nat :: k < len ==> !UpdateEnds(len, k)
  {
    hide Counter;
    forall k: nat ensures Counter(k) == k % TWO_TO_32 { CounterAt(k); }
    assert len < TWO_TO_32 ==> UpdateEnds(len, len);
  }

  /** An update of 2^32 bytes never ends: after 2^32 rounds the counter is where it started. */
  lemma UpdateOfAll32()
    ensures Counter(TWO_TO_32) == Counter(0) && forall k :: !UpdateEnds(TWO_TO_32, k)
  {
    hide Counter;
    CounterAt(TWO_TO_32);
    CounterAt(0);
    UpdateEndsIff(TWO_TO_32);
  }

  /** The bytes that k rounds feed to the context. */
  function Fed(chunk: seq<Byte>, k: nat): (f: seq<Byte>)
    requires k <= |chunk| || |chunk| >= TWO_TO_32
    ensures |f| == k
  {
    seq(k, j requires 0 <= j < k => chunk[j % TWO_TO_32])
  }

  lemma FedNothing(chunk: seq<Byte>)
    ensures Fed(chunk, 0) == [] && Counter(0) == 0
  {
  }

  lemma FedNext(chunk: seq<Byte>, k: nat)
    requires k < |chunk| || |chunk| >= TWO_TO_32
    ensures Counter(k + 1) == (Counter(k) + 1) % TWO_TO_32
    ensures Fed(chunk, k + 1) == Fed(chunk, k) + [chunk[k % TWO_TO_32]]
  {
  }

  class Context {
    const data: array<Byte>
    var datalen: nat
    var bitlen: nat
    var state: seq<Word>
    ghost var message: seq<Byte>      // everything fed in so far

    ghost predicate Valid()
      reads this, data
    {
      data.Length == 64 && Tracks(data[..], datalen, bitlen, state, message)
    }

    constructor ()
      ensures Valid() && message == [] && fresh(data)
    {
      data := new Byte[64](_ => 0);
      datalen, bitlen, message := 0, 0, [];
      state := INITIAL;
    }

    /** One block into the state. */
    method Transform()
      requires data.Length == 64 && |state| == 8
      modifies `state
      ensures state == Compress(old(state), data[..])
    {
      hide Schedule, Rounds, Add;
      var m := ExpandBlock(data);
      var v := Vars(state[0], state[1], state[2], state[3], state[4], state[5], state[6], state[7]);
      v := Mix(v, m, data[..]);
      state := [Add(state[0], v.a), Add(state[1], v.b), Add(state[2], v.c), Add(state[3], v.d),
                Add(state[4], v.e), Add(state[5], v.f), Add(state[6], v.g), Add(state[7], v.h)];
    }

    /** The caller's bytes, one at a time, counted in 32 bits. The condition is exactly the one under
        which the loop ends: see UpdateEndsIff. */
    method Update(chunk: seq<Byte>)
      requires Valid() && |chunk| < TWO_TO_32
      modifies this, data
      ensures Valid() && message == old(message) + chunk
    {
      hide Valid, Tracks;
      var i: nat := 0;
      while i < |chunk|
        invariant i <= |chunk| && Valid() && message == old(message) + chunk[..i]
      {
        assert chunk[..i + 1] == chunk[..i] + [chunk[i]];
        Feed(chunk[i]);
        i := (i + 1) % TWO_TO_32;
      }
      assert chunk[..|chunk|] == chunk;
    }

    /** The first k rounds of the loop of an update of any length, or fewer if it ends before: the
        context has then taken in the bytes that a counter of 32 bits leads to. */
    method UpdateRounds(chunk: seq<Byte>, k: nat) returns (ended: bool)
      requires Valid()
      modifies this, data
      ensures Valid() && ended == (|chunk| < TWO_TO_32 && |chunk| <= k)
      ensures message == old(message) + Fed(chunk, if ended then |chunk| else k)
    {
      hide Valid, Tracks, Fed, Counter;
      var i: nat := 0;
      FedNothing(chunk);
      for j := 0 to k
        invariant j <= |chunk| || |chunk| >= TWO_TO_32
        invariant i == Counter(j) && Valid() && message == old(message) + Fed(chunk, j)
      {
        CounterAt(j);
        if i >= |chunk| { return true; }
        FedNext(chunk, j);
        Feed(chunk[i]);
        i := (i + 1) % TWO_TO_32;
      }
      CounterAt(k);
      ended := i >= |chunk|;
    }

    method Feed(b: Byte)
      requires Valid()
      modifies this, data
      ensures Valid() && message == old(message) + [b]
    {
      hide Tracks, Compress;
      InBuffer(data[..], datalen, bitlen, state, message);
      if datalen < 63 {
        FeedMore(data[..], datalen, bitlen, state, message, b);
      } else {
        FeedLast(data[..], bitlen, state, message, b);
      }
      data[datalen] := b;
      datalen := datalen + 1;
      message := message + [b];
      assert data[..] == old(data[..])[old(datalen) := b];
      if datalen == 64 {
        Transform();
        bitlen := (bitlen + 512) % TWO_TO_64;
        datalen := 0;
      }
    }

    /** Padding, length, last block; the state in big-endian bytes. */
    method Final() returns (hash: array<Byte>)
      requires Valid()
      modifies this, data
      ensures fresh(hash) && hash[..] == Digest(message) && message == old(message)
    {
      hide HashBlocks, Compress, BigEndian, Bytes, WordBytes, Pad;
      ghost var w := |message| - datalen;
      PadBlocks(message, w);
      PadData(message[w..]);
      TotalBits(|message|, w);
      bitlen := (bitlen + datalen * 8) % TWO_TO_64;
      PutLength();
      assert data[..] == data[..56] + data[56..];
      Transform();
      assert state == HashBlocks(Pad(message));
      hash := OutBytes(state);
    }

    /** Padding up to the length field, with one more block if it does not fit. */
    method PadData(ghost tail: seq<Byte>)
      requires data.Length == 64 && datalen < 64 && |state| == 8 && data[..datalen] == tail
      modifies `state, data
      ensures datalen < 56 ==> data[..56] == tail + [0x80] + Zeros(55 - datalen) && state == old(state)
      ensures datalen >= 56 ==> data[..56] == Zeros(56) && state == Compress(old(state), tail + [0x80] + Zeros(63 - datalen))
    {
      hide Compress;
      var i := datalen;
      if datalen < 56 {
        data[i] := 0x80;
        i := i + 1;
        ClearTo(i, 56);
        assert data[..56] == tail + [0x80] + Zeros(55 - datalen);
      } else {
        data[i] := 0x80;
        i := i + 1;
        ClearTo(i, 64);
        assert data[..] == tail + [0x80] + Zeros(63 - datalen);
        Transform();
        ClearTo(0, 56);
        assert data[..56] == Zeros(56);
      }
    }

    method ClearTo(from: nat, to: nat)
      requires from <= to <= data.Length
      modifies data
      ensures data[..] == old(data[..from]) + Zeros(to - from) + old(data[to..])
    {
      var i := from;
      while i < to
        invariant from <= i <= to
        invariant forall k :: 0 <= k < data.Length ==> data[k] == if from <= k < i then 0 else old(data[k])
      {
        data[i] := 0;
        i := i + 1;
      }
    }

    method PutLength()
      requires data.Length == 64
      modifies data
      ensures data[..56] == old(data[..56]) && data[56..] == BigEndian(bitlen, 8)
    {
      hide BigEndian;
      data[63] := (bitlen % 0x100) as Byte;
      data[62] := (bitlen / 0x100 % 0x100) as Byte;
      data[61] := (bitlen / 0x1_0000 % 0x100) as Byte;
      data[60] := (bitlen / 0x100_0000 % 0x100) as Byte;
      data[59] := (bitlen / 0x1_0000_0000 % 0x100) as Byte;
      data[58] := (bitlen / 0x100_0000_0000 % 0x100) as Byte;
      data[57] := (bitlen / 0x1_0000_0000_0000 % 0x100) as Byte;
      data[56] := (bitlen / 0x100_0000_0000_0000 % 0x100) as Byte;
      EightDigits(bitlen);
    }
  }

  method OutBytes(state: seq<Word>) returns (hash: array<Byte>)
    requires |state| == 8
    ensures fresh(hash) && hash[..] == Bytes(state)
  {
    hide Bytes, ByteOf;
    hash := new Byte[32];
    for i := 0 to 4
      invariant forall k, j :: 0 <= k < 8 && 0 <= j < i ==> hash[4 * k + j] == ByteOf(state[k], j)
    {
      for k := 0 to 8
        invariant forall k', j :: 0 <= k' < 8 && 0 <= j < i ==> hash[4 * k' + j] == ByteOf(state[k'], j)
        invariant forall k' :: 0 <= k' < k ==> hash[4 * k' + i] == ByteOf(state[k'], i)
      {
        hash[4 * k + i] := ByteOf(state[k], i);
      }
    }
    BytesOf(state, hash[..]);
  }

  lemma BitsOfBlock(w: nat)
    ensures (8 * w % TWO_TO_64 + 512) % TWO_TO_64 == 8 * (w + 64) % TWO_TO_64
  {
  }

  lemma ScheduleFirst(block: seq<Byte>, t: nat)
    requires |block| == 64 && t < 16
    ensures Schedule(block, t) == FromBytes(block[4 * t], block[4 * t + 1], block[4 * t + 2], block[4 * t + 3])
  {
    hide FromBytes;
  }

  lemma ScheduleNext(block: seq<Byte>, t: nat)
    requires |block| == 64 && t >= 16
    ensures Schedule(block, t) ==
              Add(Add(Add(SmallSigma1(Schedule(block, t - 2)), Schedule(block, t - 7)), SmallSigma0(Schedule(block, t - 15))), Schedule(block, t - 16))
  {
    hide Add, SmallSigma0, SmallSigma1;
  }

  /** The first loops of a transform: the message schedule. */
  method ExpandBlock(data: array<Byte>) returns (m: array<Word>)
    requires data.Length == 64
    ensures fresh(m) && m.Length == 64 && forall t :: 0 <= t < 64 ==> m[t] == Schedule(data[..], t)
  {
    hide SmallSigma0, SmallSigma1, Add, FromBytes, Schedule;
    m := new Word[64];
    for i := 0 to 16
      invariant forall t :: 0 <= t < i ==> m[t] == Schedule(data[..], t)
    {
      m[i] := FromBytes(data[4 * i], data[4 * i + 1], data[4 * i + 2], data[4 * i + 3]);
      ScheduleFirst(data[..], i);
    }
    for i := 16 to 64
      invariant forall t :: 0 <= t < i ==> m[t] == Schedule(data[..], t)
    {
      ScheduleNext(data[..], i);
      m[i] := Add(Add(Add(SmallSigma1(m[i - 2]), m[i - 7]), SmallSigma0(m[i - 15])), m[i - 16]);
    }
  }

  /** The last loop of a transform: sixty-four rounds. */
  method Mix(start: Vars, m: array<Word>, ghost block: seq<Byte>) returns (v: Vars)
    requires |block| == 64 && m.Length == 64 && forall t :: 0 <= t < 64 ==> m[t] == Schedule(block, t)
    ensures v == Rounds(start, block, 64)
  {
    hide Schedule, BigSigma0, BigSigma1, Ch, Maj, Add;
    v := start;
    for i := 0 to 64
      invariant v == Rounds(start, block, i)
    {
      var t1 := Add(Add(Add(Add(v.h, BigSigma1(v.e)), Ch(v.e, v.f, v.g)), K[i]), m[i]);
      var t2 := Add(BigSigma0(v.a), Maj(v.a, v.b, v.c));
      v := Vars(Add(t1, t2), v.a, v.b, v.c, Add(v.d, t1), v.e, v.f, v.g);
    }
  }

  function Joined(chunks: seq<seq<Byte>>): seq<Byte> {
    if chunks == [] then [] else Joined(chunks[..|chunks| - 1]) + chunks[|chunks| - 1]
  }

  /** However a message is cut into updates, the result is its digest. */
  method DigestOf(chunks: seq<seq<Byte>>) returns (hash: array<Byte>)
    requires forall c :: c in chunks ==> |c| < TWO_TO_32
    ensures hash[..] == Digest(Joined(chunks))
  {
    hide Digest, Context.Valid, Tracks;
    var ctx := new Context();
    for i := 0 to |chunks|
      invariant ctx.Valid() && fresh(ctx) && fresh(ctx.data) && ctx.message == Joined(chunks[..i])
    {
      assert chunks[..i + 1][..i] == chunks[..i];
      ctx.Update(chunks[i]);
    }
    assert chunks[..|chunks|] == chunks;
    hash := ctx.Final();
  }
}
