/** The 32-bit integer part of the bytecode, the machine the JIT emits for, and what it means that
    machine state and bytecode state agree under a register binding. */
module JitModel {
  import Words

  type Word = bv32

  // ---- bytecode

  datatype BinOp = Add | Sub | Mul | And | Or | Xor

  datatype Cond = Eq | NotEq | SLt | SGte | SGt | SLte | ULt | UGte | Always

  /** Registers are numbered; a jump carries the index of the operation it goes to. */
  datatype Op =
    | OMov(dst: nat, src: nat)
    | OInt(dst: nat, value: Word)
    | OBin(op: BinOp, dst: nat, a: nat, b: nat)
    | ONeg(dst: nat, src: nat)
    | OLabel
    | OJump(target: nat)
    | OJumpIf(cond: Cond, a: nat, b: nat, target: nat)
    | ORet(src: nat)

  function Eval(op: BinOp, x: Word, y: Word): Word {
    match op
    case Add => x + y
    case Sub => x - y
    case Mul => x * y
    case And => x & y
    case Or => x | y
    case Xor => x ^ y
  }

  /** The number a word stands for in two's complement. */
  function Signed(x: Word): int {
    var v := Words.Value(x);
    if v < 0x8000_0000 then v else v - Words.TWO_TO_32
  }

  predicate Holds(c: Cond, x: Word, y: Word) {
    match c
    case Eq => x == y
    case NotEq => x != y
    case SLt => Signed(x) < Signed(y)
    case SGte => Signed(x) >= Signed(y)
    case SGt => Signed(x) > Signed(y)
    case SLte => Signed(x) <= Signed(y)
    case ULt => Words.Value(x) < Words.Value(y)
    case UGte => Words.Value(x) >= Words.Value(y)
    case Always => true
  }

  type Env = seq<Word>

  // ---- machine

  const NREGS := 16
  const EAX := 0

  datatype Operand = Reg(r: nat) | Slot(v: nat)

  /** Slots are the frame locations of the bytecode registers. */
  datatype Instr =
    | MovR(d: nat, src: Operand)
    | MovM(v: nat, s: nat)
    | MovI(d: nat, c: Word)
    | OpR(op: BinOp, d: nat, src: Operand)
    | OpM(op: BinOp, v: nat, s: nat)
    | Cmp(a: nat, src: Operand)
    | Jmp(cond: Cond, target: int)
    | Ret
    | Enter
    | Hook

  /** `hooks` lists what the calls of the hook still to come leave in the registers: whatever it is, the
      frame is left alone. */
  datatype Machine = Machine(regs: seq<Word>, frame: seq<Word>, flags: (Word, Word), hooks: seq<seq<Word>>)

  function Hooked(m: Machine): (m': Machine)
    requires |m.regs| == NREGS
    ensures |m'.regs| == NREGS && m'.frame == m.frame
  {
    if m.hooks != [] && |m.hooks[0]| == NREGS then m.(regs := m.hooks[0], hooks := m.hooks[1..]) else m
  }

  ghost predicate MachineOk(m: Machine, n: nat) { |m.regs| == NREGS && |m.frame| == n }

  predicate OperandOk(o: Operand, n: nat) {
    match o case Reg(r) => r < NREGS case Slot(v) => v < n
  }

  function Read(m: Machine, o: Operand): Word
    requires match o case Reg(r) => r < |m.regs| case Slot(v) => v < |m.frame|
  {
    match o case Reg(r) => m.regs[r] case Slot(v) => m.frame[v]
  }

  /** A row of the table of instruction forms: the opcode with the register as destination, the one with
      memory as destination, the one with an immediate. 0 stands for a form the processor lacks. */
  datatype Form = Form(rMem: nat, memR: nat, rConst: nat)

  const MOV := Form(0x8B, 0x89, 0xB8)
  const CMP := Form(0x3B, 0x39, 0x81)

  function FormOf(op: BinOp): Form {
    match op
    case Add => Form(0x03, 0x01, 0x81)
    case Sub => Form(0x2B, 0x29, 0x81)
    case Mul => Form(0x0FAF, 0, 0x69)
    case And => Form(0x23, 0x21, 0x81)
    case Or => Form(0x0B, 0x09, 0x81)
    case Xor => Form(0x33, 0x31, 0x81)
  }

  /** The processor has the instruction. Jumps, the return, the frame set-up and the hook have forms of
      their own. */
  predicate Encodable(i: Instr) {
    match i
    case MovR(_, _) => MOV.rMem != 0
    case MovM(_, _) => MOV.memR != 0
    case MovI(_, _) => MOV.rConst != 0
    case OpR(op, _, _) => FormOf(op).rMem != 0
    case OpM(op, _, _) => FormOf(op).memR != 0
    case Cmp(_, _) => CMP.rMem != 0
    case _ => true
  }

  ghost predicate AllEncodable(code: seq<Instr>) { forall i :: 0 <= i < |code| ==> Encodable(code[i]) }

  /** Instructions without control flow that the processor has. */
  predicate Straight(i: Instr, n: nat) { InRange(i, n) && Encodable(i) }

  predicate InRange(i: Instr, n: nat) {
    match i
    case MovR(d, src) => d < NREGS && OperandOk(src, n)
    case MovM(v, s) => v < n && s < NREGS
    case MovI(d, _) => d < NREGS
    case OpR(_, d, src) => d < NREGS && OperandOk(src, n)
    case OpM(_, v, s) => v < n && s < NREGS
    case Cmp(a, src) => a < NREGS && OperandOk(src, n)
    case _ => false
  }

  predicate AllStraight(code: seq<Instr>, n: nat) { forall i :: 0 <= i < |code| ==> Straight(code[i], n) }

  function Exec1(m: Machine, i: Instr): (m': Machine)
    requires |m.regs| == NREGS && Straight(i, |m.frame|)
    ensures |m'.regs| == NREGS && |m'.frame| == |m.frame|
  {
    match i
    case MovR(d, src) => m.(regs := m.regs[d := Read(m, src)])
    case MovM(v, s) => m.(frame := m.frame[v := m.regs[s]])
    case MovI(d, c) => m.(regs := m.regs[d := c])
    case OpR(op, d, src) => m.(regs := m.regs[d := Eval(op, m.regs[d], Read(m, src))])
    case OpM(op, v, s) => m.(frame := m.frame[v := Eval(op, m.frame[v], m.regs[s])])
    case Cmp(a, src) => m.(flags := (m.regs[a], Read(m, src)))
  }

  function Exec(m: Machine, code: seq<Instr>): (m': Machine)
    requires |m.regs| == NREGS && AllStraight(code, |m.frame|)
    ensures |m'.regs| == NREGS && |m'.frame| == |m.frame|
  {
    if code == [] then m else Exec1(Exec(m, code[..|code| - 1]), code[|code| - 1])
  }

  lemma {:induction false} ExecConcat(m: Machine, a: seq<Instr>, b: seq<Instr>)
    requires |m.regs| == NREGS && AllStraight(a, |m.frame|) && AllStraight(b, |m.frame|)
    ensures AllStraight(a + b, |m.frame|)
    ensures Exec(m, a + b) == Exec(Exec(m, a), b)
  {
    hide Exec1, Straight;
    if b == [] {
      assert a + b == a;
    } else {
      var c := b[..|b| - 1];
      ExecConcat(m, a, c);
      assert (a + b)[..|a + b| - 1] == a + c;
    }
  }

  lemma ExecOne(m: Machine, i: Instr)
    requires |m.regs| == NREGS && Straight(i, |m.frame|)
    ensures AllStraight([i], |m.frame|) && Exec(m, [i]) == Exec1(m, i)
  {
    assert [i][..0] == [];
  }

  lemma ExecSnoc(m: Machine, code: seq<Instr>, i: Instr)
    requires |m.regs| == NREGS && AllStraight(code, |m.frame|) && Straight(i, |m.frame|)
    ensures AllStraight(code + [i], |m.frame|) && Exec(m, code + [i]) == Exec1(Exec(m, code), i)
  {
    assert (code + [i])[..|code|] == code;
  }

  lemma ExecTwo(m: Machine, i: Instr, j: Instr)
    requires |m.regs| == NREGS && Straight(i, |m.frame|) && Straight(j, |m.frame|)
    ensures AllStraight([i, j], |m.frame|) && Exec(m, [i, j]) == Exec1(Exec1(m, i), j)
  {
    ExecOne(m, i);
    assert [i, j][..1] == [i];
  }

  // ---- bindings

  /** For each bytecode register the machine register that caches it, or -1. */
  type Binding = seq<int>

  const SCRATCH: seq<nat> := [0, 1, 2, 6, 7, 8, 9, 10, 11]

  /** The two directions of the cache agree, and only scratch registers are used: a machine register
      caches at most one bytecode register. */
  ghost predicate BindOk(cur: Binding, holds: seq<int>) {
    && |holds| == NREGS
    && (forall v :: 0 <= v < |cur| ==> cur[v] == -1 || (0 <= cur[v] < NREGS && cur[v] in SCRATCH && holds[cur[v]] == v))
    && (forall r :: 0 <= r < NREGS ==> holds[r] == -1 || (0 <= holds[r] < |cur| && cur[holds[r]] == r))
  }

  /** The frame holds every value but that of register `except`. */
  ghost predicate SimBut(cur: Binding, m: Machine, env: Env, except: int) {
    && MachineOk(m, |env|) && |cur| == |env|
    && (forall v :: 0 <= v < |env| && v != except ==> m.frame[v] == env[v])
    && (forall v :: 0 <= v < |env| && v != except && 0 <= cur[v] < NREGS ==> m.regs[cur[v]] == env[v])
  }

  /** Agreement: every value is in its frame slot, and in its cache register if it has one. */
  ghost predicate Sim(cur: Binding, m: Machine, env: Env) { SimBut(cur, m, env, -1) }

  /** Nothing is bound in `after` that is not bound the same way in `before`. */
  ghost predicate Weaker(before: Binding, after: Binding) {
    |before| == |after| && forall v :: 0 <= v < |before| ==> after[v] == -1 || after[v] == before[v]
  }

  /** Write-through is what makes dropping a binding free: eviction needs no spill, and a jump may
      land where nothing is bound. A landing is sound in every state exactly when each binding
      assumed at the target is in force at the jump. */
  lemma LandingSoundIff(from: Binding, to: Binding, n: nat)
    requires |from| == |to| == n
    requires forall v :: 0 <= v < n ==> -1 <= from[v] < NREGS && -1 <= to[v] < NREGS
    requires forall v, w :: 0 <= v < w < n && from[v] >= 0 ==> from[v] != from[w]
    ensures (forall m, env :: |env| == n && Sim(from, m, env) ==> Sim(to, m, env)) <==> Weaker(from, to)
  {
    if !Weaker(from, to) {
      var v :| 0 <= v < n && to[v] != -1 && to[v] != from[v];
      var env: Env := seq(n, i => if i == v then 1 else 0);
      var m := Machine(seq(NREGS, r => if r == from[v] then 1 else 0), env, (0, 0), []);
      assert Sim(from, m, env) && !Sim(to, m, env);
    }
  }

  lemma SimWeaker(before: Binding, after: Binding, m: Machine, env: Env, except: int)
    requires SimBut(before, m, env, except) && Weaker(before, after)
    ensures SimBut(after, m, env, except)
  {
  }

  // ---- single instructions against agreement

  /** `after` binds register v to p or to nothing and everything else as before or not at all. */
  ghost predicate Rebinds(before: Binding, after: Binding, v: nat, p: int) {
    && |before| == |after| && v < |before| && (after[v] == -1 || after[v] == p)
    && forall w :: 0 <= w < |before| && w != v ==> after[w] == -1 || (after[w] == before[w] && after[w] != p)
  }

  lemma ClobberOk(before: Binding, after: Binding, p: nat, x: Word, m: Machine, env: Env)
    requires Sim(before, m, env) && Weaker(before, after) && p < NREGS
    requires forall w :: 0 <= w < |after| ==> after[w] != p
    ensures Sim(after, m.(regs := m.regs[p := x]), env)
  {
  }

  lemma LoadOk(before: Binding, after: Binding, v: nat, p: nat, m: Machine, env: Env)
    requires Sim(before, m, env) && p < NREGS && Rebinds(before, after, v, p)
    ensures Sim(after, Exec1(m, MovR(p, Slot(v))), env)
  {
  }

  lemma StoreOk(before: Binding, after: Binding, v: nat, p: nat, m: Machine, env: Env)
    requires Sim(before, m, env) && p < NREGS && Rebinds(before, after, v, p)
    ensures Sim(after, Exec1(m, MovM(v, p)), env[v := m.regs[p]])
  {
  }

  /** A word computed into a free register and stored from it becomes v's value. */
  lemma WriteThrough(before: Binding, after: Binding, v: nat, p: nat, x: Word, m: Machine, env: Env)
    requires Sim(before, m, env) && p < NREGS && Rebinds(before, after, v, p)
    ensures Sim(after, Exec1(m.(regs := m.regs[p := x]), MovM(v, p)), env[v := x])
  {
    ClobberOk(before, after[v := -1], p, x, m, env);
    StoreOk(after[v := -1], after, v, p, m.(regs := m.regs[p := x]), env);
  }

  lemma MemOpOk(cur: Binding, op: BinOp, v: nat, p: nat, m: Machine, env: Env)
    requires Sim(cur, m, env) && p < NREGS && v < |env| && cur[v] == -1 && FormOf(op).memR != 0
    ensures Sim(cur, Exec1(m, OpM(op, v, p)), env[v := Eval(op, env[v], m.regs[p])])
  {
    hide Eval;
  }

  lemma ReadOk(cur: Binding, v: nat, m: Machine, env: Env)
    requires Sim(cur, m, env) && v < |env| && -1 <= cur[v] < NREGS
    ensures OperandOk(Where(cur, v), |env|) && Read(m, Where(cur, v)) == env[v]
  {
  }

  /** Where a bytecode register's value is taken from: its register if it has one. */
  function Where(cur: Binding, v: nat): Operand
    requires v < |cur|
  {
    if cur[v] >= 0 then Reg(cur[v]) else Slot(v)
  }

  // ---- interpretation

  /** What an operation without control flow does to the registers. */
  function Effect(op: Op, env: Env): (e: Env)
    requires OpOk(op, |env|)
    ensures |e| == |env|
  {
    match op
    case OMov(d, s) => env[d := env[s]]
    case OInt(d, c) => env[d := c]
    case OBin(o, d, a, b) => env[d := Eval(o, env[a], env[b])]
    case ONeg(d, s) => env[d := Eval(Sub, 0, env[s])]
    case _ => env
  }

  predicate OpOk(op: Op, n: nat) {
    match op
    case OMov(d, s) => d < n && s < n
    case OInt(d, _) => d < n
    case OBin(_, d, a, b) => d < n && a < n && b < n
    case ONeg(d, s) => d < n && s < n
    case OLabel => true
    case OJump(_) => true
    case OJumpIf(c, a, b, _) => a < n && b < n && c != Always
    case ORet(s) => s < n
  }

  predicate IsJump(op: Op) { op.OJump? || op.OJumpIf? }

  /** Registers in range; a jump may also go just past the last operation. */
  ghost predicate OpsOk(ops: seq<Op>, n: nat) {
    forall j :: 0 <= j < |ops| ==> OpOk(ops[j], n) && (IsJump(ops[j]) ==> ops[j].target <= |ops|)
  }
}
