/** What the operations and conditions of the 32-bit bytecode are on the numbers that words stand for, and
    how the processor reads a condition off the flags of a comparison. */
module JitMeaning {
  import opened Words
  import opened JitModel

  /** Arithmetic is modulo 2^32; the logical operations work bit by bit. */
  lemma EvalMeans(op: BinOp, x: Word, y: Word)
    ensures op == Add ==> Value(Eval(op, x, y)) == (Value(x) + Value(y)) % TWO_TO_32
    ensures op == Sub ==> Value(Eval(op, x, y)) == (Value(x) - Value(y)) % TWO_TO_32
    ensures op == Mul ==> Value(Eval(op, x, y)) == Value(x) * Value(y) % TWO_TO_32
    ensures forall i: nat :: Logical(op) ==>
              (Bit(Value(Eval(op, x, y)), i) <==> OnBits(op, Bit(Value(x), i), Bit(Value(y), i)))
  {
    hide *;
    SumMeans(x, y);
    DifferenceMeans(x, y);
    ProductMeans(x, y);
    forall i: nat | Logical(op)
      ensures Bit(Value(Eval(op, x, y)), i) <==> OnBits(op, Bit(Value(x), i), Bit(Value(y), i))
    {
      BitsMean(op, x, y, i);
    }
  }

  predicate Logical(op: BinOp) { op.And? || op.Or? || op.Xor? }

  predicate OnBits(op: BinOp, a: bool, b: bool)
    requires Logical(op)
  {
    match op
    case And => a && b
    case Or => a || b
    case Xor => a != b
  }

  lemma SumMeans(x: Word, y: Word)
    ensures Value(Eval(Add, x, y)) == (Value(x) + Value(y)) % TWO_TO_32
  {
    hide Value;
    ValueSum(x, y);
  }

  lemma DifferenceMeans(x: Word, y: Word)
    ensures Value(Eval(Sub, x, y)) == (Value(x) - Value(y)) % TWO_TO_32
  {
    hide Value;
    ValueDifference(x, y);
  }

  lemma ProductMeans(x: Word, y: Word)
    ensures Value(Eval(Mul, x, y)) == Value(x) * Value(y) % TWO_TO_32
  {
    hide Value;
    ValueProduct(x, y);
  }

  lemma OrByXor(x: bv32, y: bv32)
    ensures x | y == x ^ y ^ (x & y)
  {
  }

  lemma AndIs(x: Word, y: Word)
    ensures Eval(And, x, y) == x & y == AndWord(x, y)
  {
  }

  lemma XorIs(x: Word, y: Word)
    ensures Eval(Xor, x, y) == XorWord(x, y)
  {
  }

  lemma OrIs(x: Word, y: Word)
    ensures Eval(Or, x, y) == XorWord(XorWord(x, y), AndWord(x, y))
  {
    hide XorWord;
    OrByXor(x, y);
    TwoXors(x, y, x & y);
  }

  lemma BitsMean(op: BinOp, x: Word, y: Word, i: nat)
    requires Logical(op)
    ensures Bit(Value(Eval(op, x, y)), i) <==> OnBits(op, Bit(Value(x), i), Bit(Value(y), i))
  {
    hide Value, Bit, Words.Xor, Words.And, XorWord, AndWord, Eval;
    AndIs(x, y);
    XorIs(x, y);
    OrIs(x, y);
    ValueXor(x, y);
    ValueAnd(x, y);
    ValueXor(XorWord(x, y), AndWord(x, y));
    BitOfXor(Value(x), Value(y), i);
    BitOfAnd(Value(x), Value(y), i);
    BitOfXor(Words.Xor(Value(x), Value(y)), Words.And(Value(x), Value(y)), i);
  }

  // ---- conditions

  predicate Negative(x: Word) { Value(x) >= 0x8000_0000 }

  /** The flags that comparing x with y leaves, from the bits of the difference. */
  datatype Flags = Flags(zero: bool, carry: bool, sign: bool, overflow: bool)

  function Compared(x: Word, y: Word): Flags {
    var d := Eval(Sub, x, y);
    Flags(d == 0, Value(d) > Value(x), Negative(d), Negative(x) != Negative(y) && Negative(d) != Negative(x))
  }

  predicate Taken(c: Cond, f: Flags) {
    match c
    case Eq => f.zero
    case NotEq => !f.zero
    case SLt => f.sign != f.overflow
    case SGte => f.sign == f.overflow
    case SGt => !f.zero && f.sign == f.overflow
    case SLte => f.zero || f.sign != f.overflow
    case ULt => f.carry
    case UGte => !f.carry
    case Always => true
  }

  lemma NoDifference(x: bv32, y: bv32)
    ensures x - y == 0 <==> x == y
  {
  }

  lemma SameWord(x: Word, y: Word)
    ensures Eval(Sub, x, y) == 0 <==> x == y
  {
    NoDifference(x, y);
  }

  /** A condition holds of two words exactly if the flags of their comparison say so. */
  lemma HoldsByFlags(c: Cond, x: Word, y: Word)
    ensures Holds(c, x, y) <==> Taken(c, Compared(x, y))
  {
    hide Value, Eval;
    SameWord(x, y);
    DifferenceMeans(x, y);
    ValueBelow(x);
    ValueBelow(y);
    if Value(x) == Value(y) { ValueTells(x, y); }
  }
}
