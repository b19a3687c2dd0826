/** What the functions of section 4.1.2 of FIPS 180-2 and the constants of sections 4.2.2 and 5.3.2 are, on
    the numbers that words stand for. */
module Sha256Words {
  import opened Words
  import Sha256

  // ---- choice and majority, bit by bit

  /** Where x has a one, Ch has the bit of y, elsewhere that of z. */
  lemma ChSelects(x: bv32, y: bv32, z: bv32, i: nat)
    ensures Bit(Value(Sha256.Ch(x, y, z)), i) <==> if Bit(Value(x), i) then Bit(Value(y), i) else Bit(Value(z), i)
  {
    hide Value, Bit, XorWord, AndWord, Xor, And, Sha256.Ch;
    ChByXor(x, y, z);
    var a, b := AndWord(x, y), AndWord(x, z);
    ValueAnd(x, y);
    ValueAnd(x, z);
    ValueXor(z, b);
    ValueXor(a, XorWord(z, b));
    BitOfAnd(Value(x), Value(y), i);
    BitOfAnd(Value(x), Value(z), i);
    BitOfXor(Value(z), Value(b), i);
    BitOfXor(Value(a), Value(XorWord(z, b)), i);
  }

  lemma NotAnd(x: bv32, z: bv32)
    ensures !x & z == z ^ (x & z)
  {
  }

  lemma ChByXor(x: bv32, y: bv32, z: bv32)
    ensures Sha256.Ch(x, y, z) == XorWord(AndWord(x, y), XorWord(z, AndWord(x, z)))
  {
    hide Value, Right, Left, Xor, And, Bit, Pow2, Rotated, Ones, Times, Half, Odd;
    NotAnd(x, z);
  }

  lemma MajByAnd(x: bv32, y: bv32, z: bv32)
    ensures Sha256.Maj(x, y, z) == Sha256.Xor3(AndWord(x, y), AndWord(x, z), AndWord(y, z))
  {
    hide Sha256.Xor3;
  }

  lemma Xor3ByXor(a: bv32, b: bv32, c: bv32)
    ensures Sha256.Xor3(a, b, c) == XorWord(XorWord(a, b), c)
  {
    hide XorWord;
    TwoXors(a, b, c);
  }

  lemma ValueXor3(a: bv32, b: bv32, c: bv32)
    ensures Value(Sha256.Xor3(a, b, c)) == Xor(Xor(Value(a), Value(b)), Value(c))
  {
    hide Value, XorWord, Xor, Sha256.Xor3;
    Xor3ByXor(a, b, c);
    ValueXor(a, b);
    ValueXor(XorWord(a, b), c);
  }

  lemma ValueOfXor3(s: bv32, a: bv32, b: bv32, c: bv32, l: nat, m: nat, n: nat)
    requires s == Sha256.Xor3(a, b, c) && Value(a) == l && Value(b) == m && Value(c) == n
    ensures Value(s) == Xor(Xor(l, m), n)
  {
    hide *;
    ValueXor3(a, b, c);
  }

  function Ones3(a: bool, b: bool, c: bool): nat {
    (if a then 1 else 0) + (if b then 1 else 0) + (if c then 1 else 0)
  }

  /** Maj has the bit that at least two of the three have. */
  lemma MajIsMajority(x: bv32, y: bv32, z: bv32, i: nat)
    ensures Bit(Value(Sha256.Maj(x, y, z)), i) <==> Ones3(Bit(Value(x), i), Bit(Value(y), i), Bit(Value(z), i)) >= 2
  {
    hide *;
    var a, b, c := AndWord(x, y), AndWord(x, z), AndWord(y, z);
    MajByAnd(x, y, z);
    ValueAnd(x, y);
    ValueAnd(x, z);
    ValueAnd(y, z);
    ValueXor3(a, b, c);
    BitOfAnd(Value(x), Value(y), i);
    BitOfAnd(Value(x), Value(z), i);
    BitOfAnd(Value(y), Value(z), i);
    BitOfXor(Value(a), Value(b), i);
    BitOfXor(Xor(Value(a), Value(b)), Value(c), i);
    TwoOfThree(Bit(Value(x), i), Bit(Value(y), i), Bit(Value(z), i));
  }

  lemma TwoOfThree(a: bool, b: bool, c: bool)
    ensures (((a && b) != (a && c)) != (b && c)) <==> Ones3(a, b, c) >= 2
  {
  }

  /** Addition is that of the numbers, modulo 2^32. */
  lemma AddIsModular(x: bv32, y: bv32)
    ensures Value(Sha256.Add(x, y)) == (Value(x) + Value(y)) % TWO_TO_32
  {
    hide Value;
    ValueSum(x, y);
  }

  // ---- rotations and shifts by the distances of the standard

  lemma Rotation2(x: bv32)
    ensures Value(Sha256.RotR2(x)) == Rotated(Value(x), 2)
  {
    hide Value, Right, Left, Plus, Sha256.RotR2;
    RightTwo(x);
    Left30(x);
    Apart2(x);
    ValueRotated(x, 2, Sha256.RotR2(x));
  }

  lemma Apart2(x: bv32)
    ensures Sha256.RotR2(x) == Plus(x >> 2, x << 30)
  {
    assert (x >> 2) | (x << 30) == (x >> 2) + (x << 30);
  }

  lemma Rotation6(x: bv32)
    ensures Value(Sha256.RotR6(x)) == Rotated(Value(x), 6)
  {
    hide Value, Right, Left, Plus, Sha256.RotR6;
    Right6(x);
    Left26(x);
    Apart6(x);
    ValueRotated(x, 6, Sha256.RotR6(x));
  }

  lemma Apart6(x: bv32)
    ensures Sha256.RotR6(x) == Plus(x >> 6, x << 26)
  {
    assert (x >> 6) | (x << 26) == (x >> 6) + (x << 26);
  }

  lemma Rotation7(x: bv32)
    ensures Value(Sha256.RotR7(x)) == Rotated(Value(x), 7)
  {
    hide Value, Right, Left, Plus, Sha256.RotR7;
    Right7(x);
    Left25(x);
    Apart7(x);
    ValueRotated(x, 7, Sha256.RotR7(x));
  }

  lemma Apart7(x: bv32)
    ensures Sha256.RotR7(x) == Plus(x >> 7, x << 25)
  {
    assert (x >> 7) | (x << 25) == (x >> 7) + (x << 25);
  }

  lemma Rotation11(x: bv32)
    ensures Value(Sha256.RotR11(x)) == Rotated(Value(x), 11)
  {
    hide Value, Right, Left, Plus, Sha256.RotR11;
    Right11(x);
    Left21(x);
    Apart11(x);
    ValueRotated(x, 11, Sha256.RotR11(x));
  }

  lemma Apart11(x: bv32)
    ensures Sha256.RotR11(x) == Plus(x >> 11, x << 21)
  {
    assert (x >> 11) | (x << 21) == (x >> 11) + (x << 21);
  }

  lemma Rotation13(x: bv32)
    ensures Value(Sha256.RotR13(x)) == Rotated(Value(x), 13)
  {
    hide Value, Right, Left, Plus, Sha256.RotR13;
    Right13(x);
    Left19(x);
    Apart13(x);
    ValueRotated(x, 13, Sha256.RotR13(x));
  }

  lemma Apart13(x: bv32)
    ensures Sha256.RotR13(x) == Plus(x >> 13, x << 19)
  {
    assert (x >> 13) | (x << 19) == (x >> 13) + (x << 19);
  }

  lemma Rotation17(x: bv32)
    ensures Value(Sha256.RotR17(x)) == Rotated(Value(x), 17)
  {
    hide Value, Right, Left, Plus, Sha256.RotR17;
    Right17(x);
    Left15(x);
    Apart17(x);
    ValueRotated(x, 17, Sha256.RotR17(x));
  }

  lemma Apart17(x: bv32)
    ensures Sha256.RotR17(x) == Plus(x >> 17, x << 15)
  {
    assert (x >> 17) | (x << 15) == (x >> 17) + (x << 15);
  }

  lemma Rotation18(x: bv32)
    ensures Value(Sha256.RotR18(x)) == Rotated(Value(x), 18)
  {
    hide Value, Right, Left, Plus, Sha256.RotR18;
    Right18(x);
    Left14(x);
    Apart18(x);
    ValueRotated(x, 18, Sha256.RotR18(x));
  }

  lemma Apart18(x: bv32)
    ensures Sha256.RotR18(x) == Plus(x >> 18, x << 14)
  {
    assert (x >> 18) | (x << 14) == (x >> 18) + (x << 14);
  }

  lemma Rotation19(x: bv32)
    ensures Value(Sha256.RotR19(x)) == Rotated(Value(x), 19)
  {
    hide Value, Right, Left, Plus, Sha256.RotR19;
    Right19(x);
    Left13(x);
    Apart19(x);
    ValueRotated(x, 19, Sha256.RotR19(x));
  }

  lemma Apart19(x: bv32)
    ensures Sha256.RotR19(x) == Plus(x >> 19, x << 13)
  {
    assert (x >> 19) | (x << 13) == (x >> 19) + (x << 13);
  }

  lemma Rotation22(x: bv32)
    ensures Value(Sha256.RotR22(x)) == Rotated(Value(x), 22)
  {
    hide Value, Right, Left, Plus, Sha256.RotR22;
    Right22(x);
    Left10(x);
    Apart22(x);
    ValueRotated(x, 22, Sha256.RotR22(x));
  }

  lemma Apart22(x: bv32)
    ensures Sha256.RotR22(x) == Plus(x >> 22, x << 10)
  {
    assert (x >> 22) | (x << 10) == (x >> 22) + (x << 10);
  }

  lemma Rotation25(x: bv32)
    ensures Value(Sha256.RotR25(x)) == Rotated(Value(x), 25)
  {
    hide Value, Right, Left, Plus, Sha256.RotR25;
    Right25(x);
    Left7(x);
    Apart25(x);
    ValueRotated(x, 25, Sha256.RotR25(x));
  }

  lemma Apart25(x: bv32)
    ensures Sha256.RotR25(x) == Plus(x >> 25, x << 7)
  {
    assert (x >> 25) | (x << 7) == (x >> 25) + (x << 7);
  }

  lemma Right3(x: bv32)
    ensures Right(x, 3) == x >> 3
  {
    hide Right, Half, Plus;
    RightTwo(x);
    RightOne(x >> 2);
    RightJoin(x, x >> 2, (x >> 2) >> 1, 2, 1);
  }

  lemma Right6(x: bv32)
    ensures Right(x, 6) == x >> 6
  {
    hide Right, Half, Plus;
    RightFour(x);
    RightTwo(x >> 4);
    RightJoin(x, x >> 4, (x >> 4) >> 2, 4, 2);
  }

  lemma Right7(x: bv32)
    ensures Right(x, 7) == x >> 7
  {
    hide Right, Half, Plus;
    RightFour(x);
    Right3(x >> 4);
    RightJoin(x, x >> 4, (x >> 4) >> 3, 4, 3);
  }

  lemma Right10(x: bv32)
    ensures Right(x, 10) == x >> 10
  {
    hide Right, Half, Plus;
    RightEight(x);
    RightTwo(x >> 8);
    RightJoin(x, x >> 8, (x >> 8) >> 2, 8, 2);
  }

  lemma Right11(x: bv32)
    ensures Right(x, 11) == x >> 11
  {
    hide Right, Half, Plus;
    RightEight(x);
    Right3(x >> 8);
    RightJoin(x, x >> 8, (x >> 8) >> 3, 8, 3);
  }

  lemma Right13(x: bv32)
    ensures Right(x, 13) == x >> 13
  {
    hide Right, Half, Plus;
    Right10(x);
    Right3(x >> 10);
    RightJoin(x, x >> 10, (x >> 10) >> 3, 10, 3);
  }

  lemma Right17(x: bv32)
    ensures Right(x, 17) == x >> 17
  {
    hide Right, Half, Plus;
    RightSixteen(x);
    RightOne(x >> 16);
    RightJoin(x, x >> 16, (x >> 16) >> 1, 16, 1);
  }

  lemma Right18(x: bv32)
    ensures Right(x, 18) == x >> 18
  {
    hide Right, Half, Plus;
    RightSixteen(x);
    RightTwo(x >> 16);
    RightJoin(x, x >> 16, (x >> 16) >> 2, 16, 2);
  }

  lemma Right19(x: bv32)
    ensures Right(x, 19) == x >> 19
  {
    hide Right, Half, Plus;
    RightSixteen(x);
    Right3(x >> 16);
    RightJoin(x, x >> 16, (x >> 16) >> 3, 16, 3);
  }

  lemma Right22(x: bv32)
    ensures Right(x, 22) == x >> 22
  {
    hide Right, Half, Plus;
    RightSixteen(x);
    Right6(x >> 16);
    RightJoin(x, x >> 16, (x >> 16) >> 6, 16, 6);
  }

  lemma Right25(x: bv32)
    ensures Right(x, 25) == x >> 25
  {
    hide Right, Half, Plus;
    Right22(x);
    Right3(x >> 22);
    RightJoin(x, x >> 22, (x >> 22) >> 3, 22, 3);
  }

  lemma Left3(x: bv32)
    ensures Left(x, 3) == x << 3
  {
    hide Left, Half, Plus;
    LeftTwo(x);
    LeftOne(x << 2);
    LeftJoin(x, x << 2, (x << 2) << 1, 2, 1);
  }

  lemma Left7(x: bv32)
    ensures Left(x, 7) == x << 7
  {
    hide Left, Half, Plus;
    LeftFour(x);
    Left3(x << 4);
    LeftJoin(x, x << 4, (x << 4) << 3, 4, 3);
  }

  lemma Left10(x: bv32)
    ensures Left(x, 10) == x << 10
  {
    hide Left, Half, Plus;
    LeftEight(x);
    LeftTwo(x << 8);
    LeftJoin(x, x << 8, (x << 8) << 2, 8, 2);
  }

  lemma Left13(x: bv32)
    ensures Left(x, 13) == x << 13
  {
    hide Left, Half, Plus;
    Left10(x);
    Left3(x << 10);
    LeftJoin(x, x << 10, (x << 10) << 3, 10, 3);
  }

  lemma Left14(x: bv32)
    ensures Left(x, 14) == x << 14
  {
    hide Left, Half, Plus;
    Left10(x);
    LeftFour(x << 10);
    LeftJoin(x, x << 10, (x << 10) << 4, 10, 4);
  }

  lemma Left15(x: bv32)
    ensures Left(x, 15) == x << 15
  {
    hide Left, Half, Plus;
    LeftEight(x);
    Left7(x << 8);
    LeftJoin(x, x << 8, (x << 8) << 7, 8, 7);
  }

  lemma Left19(x: bv32)
    ensures Left(x, 19) == x << 19
  {
    hide Left, Half, Plus;
    LeftSixteen(x);
    Left3(x << 16);
    LeftJoin(x, x << 16, (x << 16) << 3, 16, 3);
  }

  lemma Left21(x: bv32)
    ensures Left(x, 21) == x << 21
  {
    hide Left, Half, Plus;
    Left19(x);
    LeftTwo(x << 19);
    LeftJoin(x, x << 19, (x << 19) << 2, 19, 2);
  }

  lemma Left25(x: bv32)
    ensures Left(x, 25) == x << 25
  {
    hide Left, Half, Plus;
    Left15(x);
    Left10(x << 15);
    LeftJoin(x, x << 15, (x << 15) << 10, 15, 10);
  }

  lemma Left26(x: bv32)
    ensures Left(x, 26) == x << 26
  {
    hide Left, Half, Plus;
    LeftSixteen(x);
    Left10(x << 16);
    LeftJoin(x, x << 16, (x << 16) << 10, 16, 10);
  }

  lemma Left30(x: bv32)
    ensures Left(x, 30) == x << 30
  {
    hide Left, Half, Plus;
    LeftSixteen(x);
    Left14(x << 16);
    LeftJoin(x, x << 16, (x << 16) << 14, 16, 14);
  }

  // ---- the sigmas: exclusive or of rotations and shifts

  lemma BigSigma0ByParts(x: bv32)
    ensures Sha256.BigSigma0(x) == Sha256.Xor3(Sha256.RotR2(x), Sha256.RotR13(x), Sha256.RotR22(x))
  {
    hide Sha256.Xor3, Sha256.RotR2, Sha256.RotR13, Sha256.RotR22;
  }

  lemma BigSigma0Is(x: bv32)
    ensures Value(Sha256.BigSigma0(x)) == Xor(Xor(Rotated(Value(x), 2), Rotated(Value(x), 13)), Rotated(Value(x), 22))
  {
    hide *;
    BigSigma0ByParts(x);
    Rotation2(x);
    Rotation13(x);
    Rotation22(x);
    ValueOfXor3(Sha256.BigSigma0(x), Sha256.RotR2(x), Sha256.RotR13(x), Sha256.RotR22(x),
      Rotated(Value(x), 2), Rotated(Value(x), 13), Rotated(Value(x), 22));
  }

  lemma BigSigma1ByParts(x: bv32)
    ensures Sha256.BigSigma1(x) == Sha256.Xor3(Sha256.RotR6(x), Sha256.RotR11(x), Sha256.RotR25(x))
  {
    hide Sha256.Xor3, Sha256.RotR6, Sha256.RotR11, Sha256.RotR25;
  }

  lemma BigSigma1Is(x: bv32)
    ensures Value(Sha256.BigSigma1(x)) == Xor(Xor(Rotated(Value(x), 6), Rotated(Value(x), 11)), Rotated(Value(x), 25))
  {
    hide *;
    BigSigma1ByParts(x);
    Rotation6(x);
    Rotation11(x);
    Rotation25(x);
    ValueOfXor3(Sha256.BigSigma1(x), Sha256.RotR6(x), Sha256.RotR11(x), Sha256.RotR25(x),
      Rotated(Value(x), 6), Rotated(Value(x), 11), Rotated(Value(x), 25));
  }

  lemma SmallSigma0ByParts(x: bv32)
    ensures Sha256.SmallSigma0(x) == Sha256.Xor3(Sha256.RotR7(x), Sha256.RotR18(x), Sha256.ShR3(x))
  {
    hide Sha256.Xor3, Sha256.RotR7, Sha256.RotR18, Sha256.ShR3;
  }

  lemma SmallSigma0Is(x: bv32)
    ensures Value(Sha256.SmallSigma0(x)) == Xor(Xor(Rotated(Value(x), 7), Rotated(Value(x), 18)), Value(x) / Pow2(3))
  {
    hide *;
    SmallSigma0ByParts(x);
    Rotation7(x);
    Rotation18(x);
    Shift3(x);
    ValueOfXor3(Sha256.SmallSigma0(x), Sha256.RotR7(x), Sha256.RotR18(x), Sha256.ShR3(x),
      Rotated(Value(x), 7), Rotated(Value(x), 18), Value(x) / Pow2(3));
  }

  lemma SmallSigma1ByParts(x: bv32)
    ensures Sha256.SmallSigma1(x) == Sha256.Xor3(Sha256.RotR17(x), Sha256.RotR19(x), Sha256.ShR10(x))
  {
    hide Sha256.Xor3, Sha256.RotR17, Sha256.RotR19, Sha256.ShR10;
  }

  lemma SmallSigma1Is(x: bv32)
    ensures Value(Sha256.SmallSigma1(x)) == Xor(Xor(Rotated(Value(x), 17), Rotated(Value(x), 19)), Value(x) / Pow2(10))
  {
    hide *;
    SmallSigma1ByParts(x);
    Rotation17(x);
    Rotation19(x);
    Shift10(x);
    ValueOfXor3(Sha256.SmallSigma1(x), Sha256.RotR17(x), Sha256.RotR19(x), Sha256.ShR10(x),
      Rotated(Value(x), 17), Rotated(Value(x), 19), Value(x) / Pow2(10));
  }

  lemma Shift3(x: bv32)
    ensures Value(Sha256.ShR3(x)) == Value(x) / Pow2(3)
  {
    hide Value, Right, Pow2;
    Right3(x);
    ValueRight(x, 3);
  }

  lemma Shift10(x: bv32)
    ensures Value(Sha256.ShR10(x)) == Value(x) / Pow2(10)
  {
    hide Value, Right, Pow2;
    Right10(x);
    ValueRight(x, 10);
  }
}
