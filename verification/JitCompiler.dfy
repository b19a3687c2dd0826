/** The compiler for the 32-bit integer bytecode: register allocation with a write-through cache, one
    pass of emission, patching of jumps. */
module JitCompiler {
  import opened JitModel
  import opened JitRuns

  /** What an arithmetic or comparison operation does with its result. */
  datatype Use = Into(op: BinOp, dst: nat) | Compare

  ghost predicate UseOk(use: Use, n: nat) { use.Into? ==> use.dst < n }

  /** The code of a two-operand operation: `a op b` ends up in the destination, or both operands end up
      in the flags. */
  ghost predicate BinOk(cur0: Binding, seg: seq<Instr>, cur1: Binding, n: nat, use: Use, a: nat, b: nat)
    requires a < n && b < n && UseOk(use, n)
  {
    match use
    case Into(op, d) => SegOk(cur0, seg, cur1, n, OBin(op, d, a, b))
    case Compare => CmpOk(cur0, seg, cur1, n, a, b)
  }

  function Dropped(cur: Binding, v: int): (r: Binding)
    ensures |r| == |cur|
  {
    if 0 <= v < |cur| then cur[v := -1] else cur
  }

  class JitCtx {
    var current: Binding       // per bytecode register: the machine register caching it
    var holds: seq<int>        // per machine register: the bytecode register it caches
    var lock: seq<int>
    var allocOffset: nat
    var currentPos: nat
    var code: seq<Instr>
    var opsPos: seq<int>
    var jumps: seq<(nat, nat)>

    ghost predicate Valid()
      reads this
    {
      && BindOk(current, holds) && |holds| == |lock| == NREGS && currentPos > 0
      && forall r :: 0 <= r < NREGS ==> lock[r] <= currentPos
    }

    /** The registers locked for the current operation are all in s. */
    ghost predicate Locked(s: set<nat>)
      reads this
    {
      |lock| == NREGS && forall r :: 0 <= r < NREGS && lock[r] >= currentPos ==> r in s
    }

    /** No register holds anything or is locked: the state between functions. */
    ghost predicate Cleared()
      reads this
    {
      holds == seq(NREGS, _ => -1) && lock == seq(NREGS, _ => 0)
    }

    constructor ()
      ensures Cleared()
    {
      current, holds, lock := [], seq(NREGS, _ => -1), seq(NREGS, _ => 0);
      allocOffset, currentPos, code, opsPos, jumps := 0, 1, [], [], [];
    }

    method Lock(r: nat)
      requires Valid() && r < NREGS
      modifies `lock
      ensures Valid() && lock == old(lock)[r := currentPos]
    {
      if lock[r] < currentPos { lock := lock[r := currentPos]; }
      assert lock == old(lock)[r := currentPos];
    }

    /** Takes an unlocked scratch register: a free one if there is one, otherwise one whose content is
        dropped, which needs no spill. It cannot run out. */
    method AllocReg(ghost s: set<nat>) returns (p: nat)
      requires Valid() && Locked(s) && |s| < |SCRATCH|
      modifies `current, `holds, `lock, `allocOffset
      ensures Valid() && p in SCRATCH && p < NREGS && old(lock[p]) < currentPos
      ensures lock == old(lock)[p := currentPos] && Locked(s + {p})
      ensures holds == old(holds)[p := -1] && current == Dropped(old(current), old(holds[p]))
      ensures forall v :: 0 <= v < |current| ==> current[v] != p
      ensures old(holds[p]) != -1 ==> forall r :: r in SCRATCH && old(lock[r]) < currentPos ==> old(holds[r]) != -1
    {
      hide BindOk, Nth;
      ghost var lock0, holds0 := lock, holds;
      var off := allocOffset;
      allocOffset := allocOffset + 1;
      for i := 0 to |SCRATCH|
        invariant lock == lock0 && holds == holds0 && current == old(current) && Valid()
        invariant forall k :: 0 <= k < i ==> Passed(lock0, holds0, k, off, currentPos)
      {
        p := Nth(i, off);
        if lock[p] < currentPos && holds[p] == -1 {
          NotCached(current, holds, p);
          Lock(p);
          assert holds == holds0[p := -1];
          return;
        }
      }
      AllPassed(lock0, holds0, off, currentPos);
      for i := 0 to |SCRATCH|
        invariant lock == lock0 && holds == holds0 && current == old(current) && Valid()
        invariant forall k :: 0 <= k < i ==> IsLocked(lock0, k, off, currentPos)
      {
        p := Nth(i, off);
        if lock[p] < currentPos && holds[p] != -1 {
          Evicted(current, holds, p);
          Lock(p);
          current := current[holds[p] := -1];
          holds := holds[p := -1];
          return;
        }
      }
      NotAllLocked(lock0, off, currentPos, s);
      assert false;
    }

    function Fetch(v: nat): Operand
      requires v < |current|
      reads this
    {
      Where(current, v)
    }

    method Scratch(r: nat)
      requires Valid() && r < NREGS
      modifies `current, `holds, `lock
      ensures Valid() && current == Dropped(old(current), old(holds[r])) && holds == old(holds)[r := -1]
      ensures forall q :: 0 <= q < NREGS ==> lock[q] <= old(lock[q]) || lock[q] == 0
      ensures forall q :: 0 <= q < NREGS && q != r ==> lock[q] == old(lock[q])
      ensures forall v :: 0 <= v < |current| ==> current[v] != r
    {
      hide BindOk;
      if holds[r] != -1 {
        Evicted(current, holds, r);
        current := current[holds[r] := -1];
        holds := holds[r := -1];
        lock := lock[r := 0];
      } else {
        NotCached(current, holds, r);
      }
      assert holds == old(holds)[r := -1];
    }

    /** Caches v in r. Emits the load only if v was in no other register: see LoadIsCompleteIff. */
    method Load(r: nat, v: nat) returns (ghost seg: seq<Instr>)
      requires Valid() && r < NREGS && r in SCRATCH && v < |current|
      modifies `current, `holds, `code
      ensures Valid() && Rebinds(old(current), current, v, r) && current[v] == r
      ensures code == old(code) + seg
      ensures seg == if old(current[v]) == -1 then [MovR(r, Slot(v))] else []
    {
      hide BindOk;
      seg := [];
      if current[v] == r {
        CachedOnce(current, holds, v);
        return;
      }
      Rebound(current, holds, v, r);
      var bound := current[v] != -1;
      if holds[r] != -1 { current := current[holds[r] := -1]; }
      if current[v] != -1 { holds := holds[current[v] := -1]; }
      holds := holds[r := v];
      current := current[v := r];
      if !bound {
        code, seg := code + [MovR(r, Slot(v))], [MovR(r, Slot(v))];
      }
    }

    method RegBind(v: nat, p: nat)
      requires Valid() && p < NREGS && p in SCRATCH && v < |current| && holds[p] == -1
      modifies `current, `holds
      ensures Valid() && Rebinds(old(current), current, v, p) && current[v] == p
    {
      hide BindOk;
      NotCached(current, holds, p);
      Rebound(current, holds, v, p);
      if current[v] != -1 { holds := holds[current[v] := -1]; }
      current := current[v := p];
      holds := holds[p := v];
    }

    /** Puts v in a register, loading its value if asked to. */
    method AllocCpu(v: nat, andLoad: bool, ghost s: set<nat>) returns (p: nat, ghost seg: seq<Instr>)
      requires Valid() && Locked(s) && |s| < |SCRATCH| && v < |current|
      modifies `current, `holds, `lock, `allocOffset, `code
      ensures Valid() && Rebinds(old(current), current, v, p) && current[v] == p && p < NREGS && p in SCRATCH
      ensures code == old(code) + seg
      ensures lock == old(lock)[p := currentPos] && Locked(s + {p})
      ensures old(current[v]) != -1 ==> p == old(current[v]) && current == old(current)
      ensures old(current[v]) == -1 ==> old(lock[p]) < currentPos
      ensures seg == if andLoad && old(current[v]) == -1 then [MovR(p, Slot(v))] else []
    {
      hide BindOk;
      seg := [];
      if current[v] == -1 {
        p := AllocReg(s);
        if andLoad { seg := Load(p, v); } else { RegBind(v, p); }
      } else {
        CachedOnce(current, holds, v);
        p := current[v];
        Lock(p);
      }
    }

    method Emit(i: Instr)
      modifies `code
      ensures code == old(code) + [i]
    {
      code := code + [i];
    }

    /** Moves a word between two operands; two frame slots go through a register. Returns the operand a
        later reader had better use. */
    method Copy(to: Operand, from: Operand, ghost s: set<nat>) returns (x: Operand, ghost seg: seq<Instr>)
      requires Valid() && Locked(s) && |s| < |SCRATCH|
      requires OperandOk(to, |current|) && OperandOk(from, |current|) && (to.Reg? && from.Slot? ==> to.r < NREGS)
      modifies `current, `holds, `lock, `allocOffset, `code
      ensures Valid() && |current| == |old(current)| && code == old(code) + seg
      ensures !(to.Slot? && from.Slot? && to != from) ==> current == old(current) && holds == old(holds)
      ensures match (to, from)
              case (Slot(v), Reg(r)) => x == from && seg == [MovM(v, r)]
              case (Slot(v), Slot(w)) =>
                if v == w then x == to && seg == []
                else x.Reg? && x.r < NREGS && x.r in SCRATCH && seg == [MovR(x.r, from), MovM(v, x.r)]
                     && holds[x.r] == -1 && Weaker(old(current), current)
                     && forall u :: 0 <= u < |current| ==> current[u] != x.r
              case (Reg(d), _) => x == to && seg == if to == from then [] else [MovR(d, from)]
    {
      hide BindOk;
      seg := [];
      if to == from { return to, []; }
      match to {
        case Reg(d) =>
          Emit(MovR(d, from));
          x, seg := to, [MovR(d, from)];
        case Slot(v) =>
          match from {
            case Reg(r) =>
              Emit(MovM(v, r));
              x, seg := from, [MovM(v, r)];
            case Slot(w) =>
              var tmp := AllocReg(s);
              Emit(MovR(tmp, from));
              Emit(MovM(v, tmp));
              x, seg := Reg(tmp), [MovR(tmp, from), MovM(v, tmp)];
          }
      }
    }

    /** First part of a store: v's cached copy is dropped unless it is the operand stored. */
    method Uncache(v: nat, o: Operand)
      requires Valid() && v < |current|
      modifies `current, `holds
      ensures Valid() && |current| == |old(current)|
      ensures current == if o.Reg? && old(current[v]) == o.r then old(current) else Dropped(old(current), v)
    {
      hide BindOk;
      Ranged(current, holds, v);
      if current[v] != -1 && o != Reg(current[v]) {
        Evicted(current, holds, current[v]);
        holds := holds[current[v] := -1];
        current := current[v := -1];
      }
    }

    /** Last part of a store: r now caches v instead of what it held. */
    method Cache(v: nat, r: nat)
      requires Valid() && v < |current| && r < NREGS && r in SCRATCH && (current[v] == -1 || current[v] == r)
      modifies `current, `holds, `lock
      ensures Valid() && Rebinds(old(current), current, v, r) && current[v] == r
    {
      hide BindOk;
      Ranged(current, holds, v);
      if current[v] != r {
        ghost var h := holds[r];
        Scratch(r);
        Rebound(current, holds, v, r);
        DropRebinds(old(current), h, current[v := r], v, r);
        current := current[v := r];
        holds := holds[r := v];
      } else {
        CachedOnce(current, holds, v);
      }
    }

    /** Writes an operand to v's frame slot and drops v's cached copy unless it is that operand; if asked
        to, the register the word went through now caches v. */
    method Store(v: nat, o: Operand, bind: bool, ghost s: set<nat>) returns (ghost seg: seq<Instr>)
      requires Valid() && Locked(s) && |s| < |SCRATCH| && v < |current| && OperandOk(o, |current|)
      requires o.Reg? ==> o.r in SCRATCH
      modifies `current, `holds, `lock, `allocOffset, `code
      ensures Valid() && |current| == |old(current)| && code == old(code) + seg
      ensures o.Reg? ==> seg == [MovM(v, o.r)]
      ensures o.Reg? && bind ==> Rebinds(old(current), current, v, o.r) && current[v] == o.r
      ensures o.Reg? && !bind ==> current == if old(current[v]) == o.r then old(current) else Dropped(old(current), v)
      ensures o == Slot(v) ==> seg == [] && current == Dropped(old(current), v)
      ensures o.Slot? && o != Slot(v) ==>
                exists p :: 0 <= p < NREGS && Rebinds(old(current), current, v, p) && seg == [MovR(p, o), MovM(v, p)]
    {
      hide BindOk;
      Uncache(v, o);
      var x;
      x, seg := Copy(Slot(v), o, s);
      if bind && x.Reg? { Cache(v, x.r); }
    }

    // ---- operations

    method OpMov(to: nat, from: nat, ghost s: set<nat>) returns (ghost seg: seq<Instr>)
      requires Valid() && Locked(s) && |s| < |SCRATCH| && to < |current| && from < |current|
      modifies `current, `holds, `lock, `allocOffset, `code
      ensures Valid() && |current| == |old(current)| && code == old(code) + seg
      ensures SegOk(old(current), seg, current, |current|, OMov(to, from))
    {
      hide BindOk, SegOk;
      Ranged(current, holds, from);
      if current[from] != -1 { CachedOnce(current, holds, from); }
      var o := Fetch(from);
      seg := Store(to, o, true, s);
      ghost var p := if o.Reg? then o.r else if to == from then -1 else var q :| 0 <= q < NREGS && Rebinds(old(current), current, to, q) && seg == [MovR(q, o), MovM(to, q)]; q;
      MovSeg(old(current), current, seg, to, from, p);
    }

    method StoreConst(v: nat, c: Word, ghost s: set<nat>) returns (ghost seg: seq<Instr>)
      requires Valid() && Locked(s) && |s| + 1 < |SCRATCH| && v < |current|
      modifies `current, `holds, `lock, `allocOffset, `code
      ensures Valid() && |current| == |old(current)| && code == old(code) + seg
      ensures SegOk(old(current), seg, current, |current|, OInt(v, c))
    {
      hide BindOk, SegOk;
      var p, _ := AllocCpu(v, false, s);
      if c == 0 {
        var q, _ := AllocCpu(v, false, s + {p});
        Emit(OpR(Xor, p, Reg(q)));
      } else {
        Emit(MovI(p, c));
      }
      seg := Store(v, Reg(current[v]), false, s + {p});
      ghost var i := if c == 0 then OpR(Xor, p, Reg(p)) else MovI(p, c);
      assert [i] + seg == [i, MovM(v, p)];
      seg := [i] + seg;
      ConstSeg(old(current), current, p, v, c);
    }

    /** Binary operations and comparisons. The left operand is computed on in its register, or in its
        frame slot when it is the destination; if it is in neither, it is loaded and the choice is made
        again, since loading may have evicted the right operand. */
    method OpBinop(use: Use, a: nat, b: nat, ghost s: set<nat>) returns (ghost seg: seq<Instr>)
      requires Valid() && Locked(s) && |s| + 1 < |SCRATCH| && a < |current| && b < |current|
      requires UseOk(use, |current|)
      requires current[a] == -1 ==> |s| + 2 < |SCRATCH|
      modifies `current, `holds, `lock, `allocOffset, `code
      ensures Valid() && |current| == |old(current)| && code == old(code) + seg
      ensures BinOk(old(current), seg, current, |current|, use, a, b)
      decreases if current[a] == -1 then 1 else 0
    {
      hide BindOk, BinOk;
      var n := |current|;
      Ranged(current, holds, a);
      Ranged(current, holds, b);
      var pa, pb := Fetch(a), Fetch(b);
      if pa.Reg? {
        CachedOnce(current, holds, a);
        if use.Into? { Emit(OpR(use.op, pa.r, pb)); } else { Emit(Cmp(pa.r, pb)); }
        Scratch(pa.r);
        ghost var mid := current;
        if use.Into? {
          StillUnlocked(old(lock), lock, pa.r, currentPos, s);
          seg := Store(use.dst, pa, true, s + {pa.r});
          assert [OpR(use.op, pa.r, pb)] + seg == [OpR(use.op, pa.r, pb), MovM(use.dst, pa.r)];
          seg := [OpR(use.op, pa.r, pb)] + seg;
          RegOpSeg(old(current), mid, current, use.op, use.dst, a, b);
        } else {
          seg := [Cmp(pa.r, pb)];
          CmpSeg(old(current), current, a, b);
        }
      } else if pb.Reg? && use.Into? && use.dst == a && use.op != Mul {
        Emit(OpM(use.op, a, pb.r));
        seg := [OpM(use.op, a, pb.r)];
        MemOpSeg(current, use.op, a, b);
      } else {
        var p;
        p, seg := AllocCpu(a, true, s);
        ghost var mid, load := current, seg;
        seg := OpBinop(use, a, b, s + {p});
        PrependLoad(old(current), mid, current, p, seg, use, a, b);
        seg := load + seg;
      }
    }

    method Neg(dst: nat, src: nat, ghost s: set<nat>) returns (ghost seg: seq<Instr>)
      requires Valid() && Locked(s) && |s| + 2 < |SCRATCH| && dst < |current| && src < |current|
      modifies `current, `holds, `lock, `allocOffset, `code
      ensures Valid() && |current| == |old(current)| && code == old(code) + seg
      ensures SegOk(old(current), seg, current, |current|, ONeg(dst, src))
    {
      hide BindOk, SegOk;
      var pa := AllocReg(s);
      ghost var free := current;
      var pb;
      pb, seg := AllocCpu(src, true, s + {pa});
      ghost var mid := current;
      ghost var load := seg;
      Emit(OpR(Xor, pa, Reg(pa)));
      Emit(OpR(Sub, pa, Reg(pb)));
      seg := Store(dst, Reg(pa), true, s + {pa} + {pb});
      seg := load + [OpR(Xor, pa, Reg(pa))] + [OpR(Sub, pa, Reg(pb))] + seg;
      NegSeg(old(current), free, mid, current, load, pa, pb, dst, src);
    }

    /** Forgets every binding. */
    method DiscardRegs()
      requires Valid()
      modifies `current, `holds
      ensures Valid() && current == NoBinding(|old(current)|)
    {
      hide BindOk;
      ghost var n := |current|;
      for i := 0 to |SCRATCH|
        invariant Valid() && |current| == n
        invariant forall k :: 0 <= k < i ==> holds[SCRATCH[k]] == -1
      {
        var r := SCRATCH[i];
        if holds[r] != -1 {
          Evicted(current, holds, r);
          current := current[holds[r] := -1];
          holds := holds[r := -1];
        }
      }
      NothingCached(current, holds);
    }

    /** Records a jump to be patched and marks its target as a landing if no code is there yet. */
    method RegisterJump(pos: nat, target: nat)
      requires target < |opsPos|
      modifies `jumps, `opsPos
      ensures jumps == [(pos, target)] + old(jumps) && opsPos == Marked(old(opsPos), target)
    {
      jumps := [(pos, target)] + jumps;
      if target != 0 && opsPos[target] == 0 { opsPos := opsPos[target := -1]; }
    }

    method Ret(src: nat) returns (ghost seg: seq<Instr>)
      requires Valid() && src < |current|
      modifies `code
      ensures code == old(code) + seg && |seg| > 0 && seg[|seg| - 1] == JitModel.Ret
      ensures RetOk(current, seg[..|seg| - 1], |current|, src)
    {
      hide BindOk, RetOk;
      Ranged(current, holds, src);
      var o := Fetch(src);
      seg := [];
      if o != Reg(EAX) {
        Emit(MovR(EAX, o));
        seg := [MovR(EAX, o)];
      }
      RetSeg(current, seg, src);
      Emit(JitModel.Ret);
      assert (seg + [JitModel.Ret])[..|seg|] == seg;
      seg := seg + [JitModel.Ret];
    }

    /** Emits the code of one operation. */
    method CompileOp(op: Op) returns (ghost seg: seq<Instr>)
      requires Valid() && Locked({EAX}) && OpOk(op, |current|) && (IsJump(op) ==> op.target < |opsPos|)
      modifies this
      ensures Valid() && currentPos == old(currentPos) && |current| == |old(current)| && code == old(code) + seg
      ensures Segment(op, old(current), seg, current, |current|)
      ensures if IsJump(op) then |seg| > 0 && jumps == [(|code| - 1, op.target)] + old(jumps) && opsPos == Marked(old(opsPos), op.target)
              else jumps == old(jumps) && opsPos == old(opsPos)
    {
      hide BindOk, SegOk, CmpOk, RetOk;
      ghost var s: set<nat> := {EAX};
      match op {
        case OMov(d, a) => seg := OpMov(d, a, s);
        case OInt(d, c) => seg := StoreConst(d, c, s);
        case OBin(o, d, a, b) => seg := OpBinop(Into(o, d), a, b, s);
        case ONeg(d, a) => seg := Neg(d, a, s);
        case OLabel =>
          DiscardRegs();
          seg := [];
        case OJump(t) =>
          Emit(Jmp(Always, 0));
          RegisterJump(|code| - 1, t);
          seg := [Jmp(Always, 0)];
        case OJumpIf(k, a, b, t) =>
          seg := OpBinop(Compare, a, b, s);
          Emit(Jmp(k, 0));
          RegisterJump(|code| - 1, t);
          assert (seg + [Jmp(k, 0)])[..|seg|] == seg;
          seg := seg + [Jmp(k, 0)];
        case ORet(a) => seg := Ret(a);
      }
    }

    /** Frame set-up at the head of a function. */
    method Enter()
      requires Cleared() && current == NoBinding(|current|) && code == []
      modifies `code, `currentPos, `allocOffset
      ensures Valid() && currentPos == 1 && code == [JitModel.Enter] && Locked({})
    {
      currentPos, allocOffset := 1, 0;
      Emit(JitModel.Enter);
    }

    /** `jit_hook_call`: nothing is bound behind it, one of the two registers it took is still locked. */
    method HookCall()
      requires Valid() && currentPos == 1 && Locked({}) && current == NoBinding(|current|)
      modifies `code, `lock, `allocOffset
      ensures Valid() && Locked({EAX}) && code == old(code) + [JitModel.Hook]
    {
      allocOffset := allocOffset + 2;
      lock := lock[EAX := 1];
      Emit(JitModel.Hook);
    }

    /** Emission: one pass over the operations. */
    method EmitAll(ops: seq<Op>, n: nat) returns (ghost pl: Plan)
      requires OpsOk(ops, n) && Valid() && currentPos == 1 && Locked({}) && code == [JitModel.Enter]
      requires current == NoBinding(n) && jumps == []
      modifies this
      ensures |holds| == |lock| == NREGS && PlanOk(ops, n, pl) && LandingsOk(ops, n, pl.cur)
      ensures Laid(ops, |ops|, code, opsPos, pl.segs) && Listed(ops, |ops|, opsPos, jumps)
      ensures AllEncodable(code)
    {
      hide BindOk, Segment, Pass, Marked, AllEncodable;
      var start := |code|;
      opsPos := seq(|ops| + 1, i => if i == 0 then start else 0);
      HookCall();
      pl := Plan([], [current], []);
      StartOk(ops, n, code, opsPos);
      HeadEncodable(code);
      for j := 0 to |ops|
        invariant Valid() && |current| == n && |opsPos| == |ops| + 1
        invariant j == 0 ==> currentPos == 1 && Locked({EAX})
        invariant j > 0 ==> currentPos == j
        invariant |pl.cur| == j + 1 && pl.cur[j] == current
        invariant Pass(ops, n, j, code, opsPos, jumps, pl) && AllEncodable(code)
      {
        currentPos := j + 1;
        ghost var code0, pos0, jumps0, pl0 := code, opsPos, jumps, pl;
        var seg := CompileOp(ops[j]);
        SegmentEncodable(ops[j], pl0.cur[j], seg, current, n, code0);
        ghost var pos1, aft := opsPos, current;
        if opsPos[j + 1] == -1 { DiscardRegs(); }
        opsPos := opsPos[j + 1 := |code|];
        pl := Plan(pl.segs + [seg], pl.cur + [current], pl.aft + [aft]);
        PassNext(ops, n, j, code0, pos0, jumps0, pl0, seg, aft, current, opsPos, jumps);
      }
      PassAll(ops, n, code, opsPos, jumps, pl);
    }

    /** Writes the target of every recorded jump into its instruction. */
    method PatchJumps(ghost ops: seq<Op>, ghost segs: seq<seq<Instr>>)
      requires Laid(ops, |ops|, code, opsPos, segs) && Listed(ops, |ops|, opsPos, jumps)
      requires forall i :: 0 <= i < |ops| && IsJump(ops[i]) ==> JumpLast(ops[i], segs[i]) && ops[i].target <= |ops|
      requires AllEncodable(code)
      modifies `code, `jumps
      ensures jumps == [] && Placed(ops, code, opsPos, segs) && AllEncodable(code)
    {
      hide Laid, Listed;
      ghost var raw, all := code, jumps;
      ghost var k := 0;
      while jumps != []
        invariant k <= |all| && jumps == all[k..]
        invariant Patched(ops, raw, code, opsPos, all[..k]) && AllEncodable(code)
        decreases |jumps|
      {
        var e := jumps[0];
        assert e == all[k] && e in all;
        JumpThere(ops, raw, code, opsPos, segs, all, k);
        PatchedNext(ops, raw, code, opsPos, all, k, segs);
        code := code[e.0 := Jmp(code[e.0].cond, opsPos[e.1])];
        jumps, k := jumps[1..], k + 1;
      }
      assert all[..k] == all;
      AllPlaced(ops, raw, code, opsPos, segs, all);
    }

    /** Compiles a function of n registers. If its loops are entered through labels, the code returns what
        the bytecode returns, from any registers and any frame; whatever the program, the code is laid out
        as planned, of instructions the processor has, and the register state is clear for the next function. */
    method Compile(ops: seq<Op>, n: nat) returns (ghost pl: Plan)
      requires Cleared() && OpsOk(ops, n)
      modifies this
      ensures Cleared() && jumps == [] && Compiled(ops, n, code, opsPos, pl) && AllEncodable(code)
      ensures LabelRule(ops) ==> forall m, env, v :: |env| == n && EntryOk(m, env) ==>
                (InterpReturns(ops, env, v) <==> MachineReturns(code, m, v))
    {
      hide BindOk, PlanOk, LandingsOk, LabelRule, InterpReturns, MachineReturns, AllEncodable;
      code, jumps, current := [], [], NoBinding(n);
      Enter();
      pl := EmitAll(ops, n);
      JumpsLast(ops, n, pl);
      PatchJumps(ops, pl.segs);
      AllCode(ops, n, code, opsPos, pl);
      holds, lock := seq(NREGS, _ => -1), seq(NREGS, _ => 0);
      if LabelRule(ops) {
        forall m, env, v | |env| == n && EntryOk(m, env)
          ensures InterpReturns(ops, env, v) <==> MachineReturns(code, m, v)
        {
          CompiledReturnsIff(ops, n, code, opsPos, pl, m, env, v);
        }
      }
    }
  }

  // ---- bindings

  lemma NotCached(cur: Binding, holds: seq<int>, p: nat)
    requires BindOk(cur, holds) && p < NREGS && holds[p] == -1
    ensures forall v :: 0 <= v < |cur| ==> cur[v] != p
  {
  }

  lemma Ranged(cur: Binding, holds: seq<int>, v: nat)
    requires BindOk(cur, holds) && v < |cur|
    ensures |holds| == NREGS && -1 <= cur[v] < NREGS
    ensures cur[v] != -1 ==> holds[cur[v]] == v
  {
  }

  lemma CachedOnce(cur: Binding, holds: seq<int>, v: nat)
    requires BindOk(cur, holds) && v < |cur| && cur[v] != -1
    ensures |holds| == NREGS && 0 <= cur[v] < NREGS && cur[v] in SCRATCH && holds[cur[v]] == v
    ensures forall w :: 0 <= w < |cur| && w != v ==> cur[w] != cur[v]
    ensures Rebinds(cur, cur, v, cur[v])
  {
  }

  lemma Evicted(cur: Binding, holds: seq<int>, p: nat)
    requires BindOk(cur, holds) && p < NREGS && holds[p] != -1
    ensures |holds| == NREGS && 0 <= holds[p] < |cur| && cur[holds[p]] == p
    ensures BindOk(cur[holds[p] := -1], holds[p := -1])
    ensures forall v :: 0 <= v < |cur| && v != holds[p] ==> cur[v] != p
  {
  }

  lemma DropRebinds(a: Binding, x: int, b: Binding, v: nat, p: int)
    requires Rebinds(Dropped(a, x), b, v, p)
    ensures Rebinds(a, b, v, p)
  {
  }

  /** Binding v to p: v leaves its old register, p's old content leaves p. */
  lemma Rebound(cur: Binding, holds: seq<int>, v: nat, p: nat)
    requires BindOk(cur, holds) && v < |cur| && p < NREGS && p in SCRATCH && cur[v] != p
    ensures |holds| == NREGS && -1 <= cur[v] < NREGS && -1 <= holds[p] < |cur| && holds[p] != v
    ensures var cur1 := Dropped(cur, holds[p])[v := p];
            var holds1 := (if cur[v] == -1 then holds else holds[cur[v] := -1])[p := v];
            BindOk(cur1, holds1) && Rebinds(cur, cur1, v, p)
  {
  }

  /** The load emits nothing when v is cached in another register. The binding it then makes is wrong;
      it is right in every state exactly when v was uncached, or already in r. */
  lemma LoadIsCompleteIff(cur: Binding, holds: seq<int>, r: nat, v: nat)
    requires BindOk(cur, holds) && v < |cur| && r < NREGS && r in SCRATCH
    ensures var cur1 := if cur[v] == r then cur else Dropped(cur, holds[r])[v := r];
            var seg := if cur[v] == -1 then [MovR(r, Slot(v))] else [];
            (forall m, env :: |env| == |cur| && Sim(cur, m, env) ==> Sim(cur1, Exec(m, seg), env))
            <==> cur[v] == -1 || cur[v] == r
  {
    var cur1 := if cur[v] == r then cur else Dropped(cur, holds[r])[v := r];
    var seg := if cur[v] == -1 then [MovR(r, Slot(v))] else [];
    if cur[v] == -1 {
      Rebound(cur, holds, v, r);
      forall m, env | |env| == |cur| && Sim(cur, m, env) ensures Sim(cur1, Exec(m, seg), env) {
        ExecOne(m, seg[0]);
        LoadOk(cur, cur1, v, r, m, env);
      }
    } else if cur[v] != r {
      var env: Env := seq(|cur|, w => if w == v then 1 else 0);
      var m := Machine(seq(NREGS, q => if q == cur[v] then 1 else 0), env, (0, 0), []);
      assert Sim(cur, m, env) && m.regs[r] != env[v];
      ExecNone(m);
    }
  }

  // ---- allocation

  /** The i-th register tried, starting at offset `off`. */
  function Nth(i: nat, off: nat): (p: nat)
    ensures p in SCRATCH && p < NREGS
  {
    SCRATCH[(i + off) % |SCRATCH|]
  }

  ghost predicate IsLocked(lock: seq<int>, i: nat, off: nat, pos: nat)
    requires |lock| == NREGS
  {
    lock[Nth(i, off)] >= pos
  }

  /** The i-th register was not to be had in the first round: locked, or holding something. */
  ghost predicate Passed(lock: seq<int>, holds: seq<int>, i: nat, off: nat, pos: nat)
    requires |lock| == |holds| == NREGS
  {
    IsLocked(lock, i, off, pos) || holds[Nth(i, off)] != -1
  }

  /** Every scratch register is tried. */
  lemma EveryOneTried(r: nat, off: nat) returns (k: nat)
    requires r in SCRATCH
    ensures k < |SCRATCH| && Nth(k, off) == r
  {
    var i :| 0 <= i < 9 && SCRATCH[i] == r;
    var o := off % 9;
    k := if o <= i then i - o else i - o + 9;
    assert (k + off) % 9 == i;
  }

  lemma AllPassed(lock: seq<int>, holds: seq<int>, off: nat, pos: nat)
    requires |lock| == |holds| == NREGS
    requires forall k :: 0 <= k < |SCRATCH| ==> Passed(lock, holds, k, off, pos)
    ensures forall r :: r in SCRATCH && lock[r] < pos ==> holds[r] != -1
  {
    hide Nth;
    forall r | r in SCRATCH && lock[r] < pos ensures holds[r] != -1 {
      var k := EveryOneTried(r, off);
      assert Passed(lock, holds, k, off, pos);
    }
  }

  lemma NotAllLocked(lock: seq<int>, off: nat, pos: nat, s: set<nat>)
    requires |lock| == NREGS && |s| < |SCRATCH|
    requires forall r :: 0 <= r < NREGS && lock[r] >= pos ==> r in s
    ensures exists k :: 0 <= k < |SCRATCH| && !IsLocked(lock, k, off, pos)
  {
    hide Nth;
    var all: set<nat> := {0, 1, 2, 6, 7, 8, 9, 10, 11};
    assert |all| == |SCRATCH|;
    if all <= s { CardMonotone(all, s); }
    var r :| r in all && r !in s;
    assert r == SCRATCH[0] || r == SCRATCH[1] || r == SCRATCH[2] || r == SCRATCH[3] || r == SCRATCH[4]
        || r == SCRATCH[5] || r == SCRATCH[6] || r == SCRATCH[7] || r == SCRATCH[8];
    var k := EveryOneTried(r, off);
    assert !IsLocked(lock, k, off, pos);
  }

  lemma {:induction false} CardMonotone(a: set<nat>, b: set<nat>)
    requires a <= b
    ensures |a| <= |b|
  {
    if a != {} {
      var x :| x in a;
      CardMonotone(a - {x}, b - {x});
    }
  }

  // ---- operations

  ghost predicate MovCode(cur0: Binding, cur1: Binding, seg: seq<Instr>, to: nat, from: nat, p: int)
    requires to < |cur0| && from < |cur0|
  {
    if cur0[from] >= 0 then p == cur0[from] && seg == [MovM(to, p)] && Rebinds(cur0, cur1, to, p)
    else if to == from then seg == [] && cur1 == Dropped(cur0, to)
    else 0 <= p < NREGS && seg == [MovR(p, Slot(from)), MovM(to, p)] && Rebinds(cur0, cur1, to, p)
  }

  lemma MovSeg(cur0: Binding, cur1: Binding, seg: seq<Instr>, to: nat, from: nat, p: int)
    requires |cur0| == |cur1| && to < |cur0| && from < |cur0| && -1 <= cur0[from] < NREGS
    requires MovCode(cur0, cur1, seg, to, from, p)
    ensures SegOk(cur0, seg, cur1, |cur0|, OMov(to, from))
  {
    hide Rebinds, Exec;
    forall m, env | |env| == |cur0| && Sim(cur0, m, env)
      ensures AllStraight(seg, |m.frame|) && Sim(cur1, Exec(m, seg), Effect(OMov(to, from), env))
    {
      if cur0[from] >= 0 {
        ExecOne(m, MovM(to, p));
        StoreOk(cur0, cur1, to, p, m, env);
      } else if to == from {
        MovSelf(cur0, cur1, to, m, env);
      } else {
        ExecTwo(m, MovR(p, Slot(from)), MovM(to, p));
        WriteThrough(cur0, cur1, to, p, m.frame[from], m, env);
      }
    }
  }

  lemma MovSelf(cur0: Binding, cur1: Binding, v: nat, m: Machine, env: Env)
    requires v < |cur0| == |env| && Sim(cur0, m, env) && cur1 == Dropped(cur0, v)
    ensures |m.regs| == NREGS && Exec(m, []) == m && env[v := env[v]] == env && Sim(cur1, m, env)
  {
  }

  lemma ConstSeg(cur0: Binding, cur1: Binding, p: nat, v: nat, c: Word)
    requires v < |cur0| && p < NREGS && Rebinds(cur0, cur1, v, p)
    ensures var i := if c == 0 then OpR(Xor, p, Reg(p)) else MovI(p, c);
            SegOk(cur0, [i, MovM(v, p)], cur1, |cur0|, OInt(v, c))
  {
    hide Rebinds, Exec;
    var i := if c == 0 then OpR(Xor, p, Reg(p)) else MovI(p, c);
    forall m, env | |env| == |cur0| && Sim(cur0, m, env)
      ensures Sim(cur1, Exec(m, [i, MovM(v, p)]), Effect(OInt(v, c), env))
    {
      ExecTwo(m, i, MovM(v, p));
      XorSelf(m.regs[p]);
      assert Exec1(m, i) == m.(regs := m.regs[p := c]);
      WriteThrough(cur0, cur1, v, p, c, m, env);
    }
  }

  lemma XorSelf(x: Word)
    ensures Eval(Xor, x, x) == 0
  {
  }

  lemma RegOpSeg(cur0: Binding, mid: Binding, cur1: Binding, op: BinOp, d: nat, a: nat, b: nat)
    requires d < |cur0| && a < |cur0| && b < |cur0| && 0 <= cur0[a] < NREGS && -1 <= cur0[b] < NREGS
    requires Weaker(cur0, mid) && Rebinds(mid, cur1, d, cur0[a])
    ensures BinOk(cur0, [OpR(op, cur0[a], Where(cur0, b)), MovM(d, cur0[a])], cur1, |cur0|, Into(op, d), a, b)
  {
    hide Rebinds, Exec, Eval;
    var p, o := cur0[a], Where(cur0, b);
    forall m, env | |env| == |cur0| && Sim(cur0, m, env)
      ensures Sim(cur1, Exec(m, [OpR(op, p, o), MovM(d, p)]), Effect(OBin(op, d, a, b), env))
    {
      ReadOk(cur0, b, m, env);
      ExecTwo(m, OpR(op, p, o), MovM(d, p));
      SimWeaker(cur0, mid, m, env, -1);
      WriteThrough(mid, cur1, d, p, Eval(op, env[a], env[b]), m, env);
    }
  }

  lemma CmpSeg(cur0: Binding, cur1: Binding, a: nat, b: nat)
    requires a < |cur0| && b < |cur0| && 0 <= cur0[a] < NREGS && -1 <= cur0[b] < NREGS && Weaker(cur0, cur1)
    ensures BinOk(cur0, [Cmp(cur0[a], Where(cur0, b))], cur1, |cur0|, Compare, a, b)
  {
    hide Exec;
    var i := Cmp(cur0[a], Where(cur0, b));
    forall m, env | |env| == |cur0| && Sim(cur0, m, env)
      ensures Sim(cur1, Exec(m, [i]), env) && Exec(m, [i]).flags == (env[a], env[b])
    {
      ReadOk(cur0, b, m, env);
      ExecOne(m, i);
      SimWeaker(cur0, cur1, m, env, -1);
    }
  }

  lemma MemOpSeg(cur: Binding, op: BinOp, a: nat, b: nat)
    requires a < |cur| && b < |cur| && cur[a] == -1 && 0 <= cur[b] < NREGS && FormOf(op).memR != 0
    ensures BinOk(cur, [OpM(op, a, cur[b])], cur, |cur|, Into(op, a), a, b)
  {
    hide Exec, Eval;
    forall m, env | |env| == |cur| && Sim(cur, m, env)
      ensures Sim(cur, Exec(m, [OpM(op, a, cur[b])]), Effect(OBin(op, a, a, b), env))
    {
      ExecOne(m, OpM(op, a, cur[b]));
      MemOpOk(cur, op, a, cur[b], m, env);
    }
  }

  lemma PrependLoad(cur0: Binding, mid: Binding, cur1: Binding, p: nat, seg: seq<Instr>, use: Use, a: nat, b: nat)
    requires a < |cur0| && b < |cur0| && UseOk(use, |cur0|) && p < NREGS && Rebinds(cur0, mid, a, p)
    requires BinOk(mid, seg, cur1, |cur0|, use, a, b)
    ensures BinOk(cur0, [MovR(p, Slot(a))] + seg, cur1, |cur0|, use, a, b)
  {
    hide Rebinds, Exec, Effect, Sim;
    var i := MovR(p, Slot(a));
    forall m, env | |env| == |cur0| && Sim(cur0, m, env)
      ensures |m.regs| == NREGS && |m.frame| == |env| && AllStraight([i] + seg, |m.frame|)
      ensures Sim(mid, Exec1(m, i), env) && Exec(m, [i] + seg) == Exec(Exec1(m, i), seg)
    {
      SimOk(cur0, m, env);
      ExecOne(m, i);
      LoadOk(cur0, mid, a, p, m, env);
      ExecConcat(m, [i], seg);
    }
  }

  lemma SimOk(cur: Binding, m: Machine, env: Env)
    requires Sim(cur, m, env)
    ensures |m.regs| == NREGS && |m.frame| == |env| == |cur|
  {
  }

  lemma StillUnlocked(lock0: seq<int>, lock: seq<int>, p: nat, pos: nat, s: set<nat>)
    requires |lock0| == |lock| == NREGS
    requires forall q :: 0 <= q < NREGS && q != p ==> lock[q] == lock0[q]
    requires forall q :: 0 <= q < NREGS && lock0[q] >= pos ==> q in s
    ensures forall q :: 0 <= q < NREGS && lock[q] >= pos ==> q in s + {p}
  {
  }

  lemma NegLoad(cur0: Binding, free: Binding, mid: Binding, load: seq<Instr>, pb: nat, src: nat, m: Machine, env: Env)
    requires src < |cur0| == |env| && pb < NREGS && Sim(cur0, m, env)
    requires Weaker(cur0, free) && Rebinds(free, mid, src, pb) && mid[src] == pb
    requires load == (if free[src] == -1 then [MovR(pb, Slot(src))] else []) && (free[src] == -1 || free == mid)
    ensures |m.regs| == NREGS && AllStraight(load, |m.frame|)
    ensures Sim(mid, Exec(m, load), env) && Exec(m, load).regs[pb] == env[src]
  {
    hide Rebinds;
    SimWeaker(cur0, free, m, env, -1);
    if free[src] == -1 {
      ExecOne(m, MovR(pb, Slot(src)));
      LoadOk(free, mid, src, pb, m, env);
    } else {
      ExecNone(m);
    }
  }

  lemma NegSeg(cur0: Binding, free: Binding, mid: Binding, cur1: Binding, load: seq<Instr>, pa: nat, pb: nat, dst: nat, src: nat)
    requires dst < |cur0| && src < |cur0| && pa < NREGS && pb < NREGS && pa != pb
    requires Weaker(cur0, free) && Rebinds(free, mid, src, pb) && mid[src] == pb && Rebinds(mid, cur1, dst, pa)
    requires load == (if free[src] == -1 then [MovR(pb, Slot(src))] else []) && (free[src] == -1 || free == mid)
    ensures SegOk(cur0, load + [OpR(Xor, pa, Reg(pa))] + [OpR(Sub, pa, Reg(pb))] + [MovM(dst, pa)], cur1, |cur0|, ONeg(dst, src))
  {
    hide Rebinds, Exec, Eval, Sim;
    var x, s, w := OpR(Xor, pa, Reg(pa)), OpR(Sub, pa, Reg(pb)), MovM(dst, pa);
    forall m, env | |env| == |cur0| && Sim(cur0, m, env)
      ensures |m.regs| == NREGS && AllStraight(load + [x] + [s] + [w], |m.frame|)
      ensures Sim(cur1, Exec(m, load + [x] + [s] + [w]), Effect(ONeg(dst, src), env))
    {
      SimOk(cur0, m, env);
      NegLoad(cur0, free, mid, load, pb, src, m, env);
      var m1 := Exec(m, load);
      ExecSnoc(m, load, x);
      ExecSnoc(m, load + [x], s);
      ExecSnoc(m, load + [x] + [s], w);
      XorSelf(m1.regs[pa]);
      var v := Eval(Sub, 0, env[src]);
      assert Exec1(Exec1(m1, x), s).regs == m1.regs[pa := v];
      WriteThrough(mid, cur1, dst, pa, v, m1, env);
    }
  }

  lemma ExecNone(m: Machine)
    requires |m.regs| == NREGS
    ensures Exec(m, []) == m
  {
  }

  // ---- jumps

  function Marked(pos: seq<int>, target: nat): (r: seq<int>)
    requires target < |pos|
    ensures |r| == |pos|
  {
    if target != 0 && pos[target] == 0 then pos[target := -1] else pos
  }

  lemma NothingCached(cur: Binding, holds: seq<int>)
    requires BindOk(cur, holds) && |holds| == NREGS
    requires forall k :: 0 <= k < |SCRATCH| ==> holds[SCRATCH[k]] == -1
    ensures cur == NoBinding(|cur|)
  {
    assert forall v :: 0 <= v < |cur| ==> cur[v] == -1;
  }

  lemma RetSeg(cur: Binding, seg: seq<Instr>, src: nat)
    requires src < |cur| && -1 <= cur[src] < NREGS
    requires seg == if Where(cur, src) == Reg(EAX) then [] else [MovR(EAX, Where(cur, src))]
    ensures RetOk(cur, seg, |cur|, src)
  {
    hide Exec;
    forall m, env | |env| == |cur| && Sim(cur, m, env)
      ensures |m.regs| == NREGS && AllStraight(seg, |m.frame|) && Exec(m, seg).regs[EAX] == env[src]
    {
      ReadOk(cur, src, m, env);
      if seg == [] { ExecNone(m); } else { ExecOne(m, seg[0]); }
    }
  }

  // ---- one pass over the operations

  /** The plan is right for the first j operations. */
  ghost predicate Planned(ops: seq<Op>, n: nat, j: nat, p: Plan)
    requires OpsOk(ops, n) && j <= |ops|
  {
    && |p.segs| == |p.aft| == j && |p.cur| == j + 1
    && (forall i :: 0 <= i < j ==> Segment(ops[i], p.cur[i], p.segs[i], p.aft[i], n))
    && (forall i :: 0 <= i < j ==> p.cur[i + 1] == p.aft[i] || p.cur[i + 1] == NoBinding(n))
    && p.cur[0] == NoBinding(n)
  }

  /** The code of the first j operations lies where opsPos says, jumps not yet patched. */
  ghost predicate Laid(ops: seq<Op>, j: nat, code: seq<Instr>, pos: seq<int>, segs: seq<seq<Instr>>) {
    && j <= |ops| && |pos| == |ops| + 1 && |segs| == j
    && |code| > 1 && code[0] == Enter && code[1] == Hook && pos[0] == 1 && Body(pos, j) == |code|
    && (forall i :: 0 <= i <= j ==> 1 <= pos[i] <= |code|)
    && (forall i :: 0 <= i < j ==> PlacedAt(code, Body(pos, i), pos[i + 1], segs[i]))
    && (forall i :: 0 <= i < j && IsJump(ops[i]) ==> |segs[i]| > 0)
  }

  /** The jump list holds the jumps among the first j operations, by the place of their instruction. */
  ghost predicate Listed(ops: seq<Op>, j: nat, pos: seq<int>, jumps: seq<(nat, nat)>) {
    && j <= |ops| && |pos| == |ops| + 1
    && (forall i :: 0 <= i < j && IsJump(ops[i]) ==> pos[i + 1] > 0 && (pos[i + 1] - 1, ops[i].target) in jumps)
    && (forall e :: e in jumps ==> exists i :: 0 <= i < j && FromOp(ops, i, pos, e))
  }

  ghost predicate FromOp(ops: seq<Op>, i: nat, pos: seq<int>, e: (nat, nat))
    requires i < |ops| && |pos| == |ops| + 1
  {
    IsJump(ops[i]) && e.0 == pos[i + 1] - 1 && e.1 == ops[i].target
  }

  /** Ahead of operation j, exactly the targets of earlier jumps are marked. */
  ghost predicate Awaited(ops: seq<Op>, j: nat, pos: seq<int>) {
    && j <= |ops| && |pos| == |ops| + 1
    && (forall i :: j < i <= |ops| ==> pos[i] == 0 || pos[i] == -1)
    && (forall i :: 0 <= i < j && IsJump(ops[i]) && j < ops[i].target <= |ops| ==> pos[ops[i].target] == -1)
  }

  ghost predicate LandingsTo(ops: seq<Op>, n: nat, j: nat, cur: seq<Binding>) {
    && j <= |ops| && |cur| == j + 1
    && forall i :: 0 <= i < j && IsJump(ops[i]) && i < ops[i].target <= j ==> cur[ops[i].target] == NoBinding(n)
  }

  /** What holds when the first j operations have been emitted. */
  ghost predicate Pass(ops: seq<Op>, n: nat, j: nat, code: seq<Instr>, pos: seq<int>, jumps: seq<(nat, nat)>, p: Plan)
    requires OpsOk(ops, n) && j <= |ops|
  {
    && Planned(ops, n, j, p) && LandingsTo(ops, n, j, p.cur) && Laid(ops, j, code, pos, p.segs)
    && Listed(ops, j, pos, jumps) && Awaited(ops, j, pos)
  }

  lemma PassAll(ops: seq<Op>, n: nat, code: seq<Instr>, pos: seq<int>, jumps: seq<(nat, nat)>, p: Plan)
    requires OpsOk(ops, n) && Pass(ops, n, |ops|, code, pos, jumps, p)
    ensures PlanOk(ops, n, p) && LandingsOk(ops, n, p.cur)
    ensures Laid(ops, |ops|, code, pos, p.segs) && Listed(ops, |ops|, pos, jumps)
  {
    hide Segment, Laid, Listed, Awaited;
  }

  lemma PassNext(ops: seq<Op>, n: nat, j: nat, code: seq<Instr>, pos: seq<int>, jumps: seq<(nat, nat)>, p: Plan,
                 seg: seq<Instr>, aft: Binding, cur: Binding, pos': seq<int>, jumps': seq<(nat, nat)>)
    requires OpsOk(ops, n) && j < |ops| && Pass(ops, n, j, code, pos, jumps, p) && |p.cur| == j + 1 && |pos| == |ops| + 1
    requires Segment(ops[j], p.cur[j], seg, aft, n) && (IsJump(ops[j]) ==> |seg| > 0)
    requires var marked := if IsJump(ops[j]) then Marked(pos, ops[j].target) else pos;
             |marked| == |pos| && pos' == marked[j + 1 := |code + seg|] && cur == if marked[j + 1] == -1 then NoBinding(n) else aft
    requires jumps' == if IsJump(ops[j]) then [(|code + seg| - 1, ops[j].target)] + jumps else jumps
    ensures Pass(ops, n, j + 1, code + seg, pos', jumps', Plan(p.segs + [seg], p.cur + [cur], p.aft + [aft]))
  {
    hide Planned, LandingsTo, Laid, Listed, Awaited, Segment;
    PlannedNext(ops, n, j, p, seg, aft, cur);
    EmittedStays(ops, j, code, pos, p.segs);
    LaidNext(ops, j, code, pos, p.segs, seg, pos');
    ListedNext(ops, j, pos, jumps, pos', jumps', |code + seg|);
    AwaitedNext(ops, j, pos, pos', |code + seg|);
    LandingsNext(ops, n, j, pos, p.cur, aft, cur);
  }

  lemma StartOk(ops: seq<Op>, n: nat, code: seq<Instr>, pos: seq<int>)
    requires OpsOk(ops, n) && code == [Enter, Hook] && |pos| == |ops| + 1 && pos[0] == 1
    requires forall i :: 0 < i <= |ops| ==> pos[i] == 0
    ensures Pass(ops, n, 0, code, pos, [], Plan([], [NoBinding(n)], []))
  {
  }

  lemma PlannedNext(ops: seq<Op>, n: nat, j: nat, p: Plan, seg: seq<Instr>, aft: Binding, cur: Binding)
    requires OpsOk(ops, n) && j < |ops| && Planned(ops, n, j, p)
    requires Segment(ops[j], p.cur[j], seg, aft, n) && (cur == aft || cur == NoBinding(n))
    ensures Planned(ops, n, j + 1, Plan(p.segs + [seg], p.cur + [cur], p.aft + [aft]))
  {
    hide Segment;
  }

  /** Marking a landing does not touch the place of code already emitted. */
  lemma EmittedStays(ops: seq<Op>, j: nat, code: seq<Instr>, pos: seq<int>, segs: seq<seq<Instr>>)
    requires j < |ops| && Laid(ops, j, code, pos, segs) && (IsJump(ops[j]) ==> ops[j].target <= |ops|)
    ensures |pos| == |ops| + 1 && |code| > 0
    ensures IsJump(ops[j]) ==> forall i :: 0 <= i <= j ==> Marked(pos, ops[j].target)[i] == pos[i]
  {
  }

  lemma LaidNext(ops: seq<Op>, j: nat, code: seq<Instr>, pos: seq<int>, segs: seq<seq<Instr>>, seg: seq<Instr>, pos': seq<int>)
    requires j < |ops| && Laid(ops, j, code, pos, segs) && (IsJump(ops[j]) ==> |seg| > 0)
    requires |pos'| == |pos| && (forall i :: 0 <= i <= j ==> pos'[i] == pos[i]) && pos'[j + 1] == |code + seg|
    ensures Laid(ops, j + 1, code + seg, pos', segs + [seg])
  {
    var code', segs' := code + seg, segs + [seg];
    forall i | 0 <= i < j + 1 ensures PlacedAt(code', Body(pos', i), pos'[i + 1], segs'[i]) {
      if i < j {
        assert PlacedAt(code, Body(pos, i), pos[i + 1], segs[i]);
        assert code'[Body(pos, i)..pos[i + 1]] == code[Body(pos, i)..pos[i + 1]];
      } else {
        assert code'[Body(pos', j)..pos'[j + 1]] == seg;
      }
    }
  }

  lemma ListedNext(ops: seq<Op>, j: nat, pos: seq<int>, jumps: seq<(nat, nat)>, pos': seq<int>, jumps': seq<(nat, nat)>, size: nat)
    requires j < |ops| && Listed(ops, j, pos, jumps) && |pos'| == |pos| && size > 0
    requires (forall i :: 0 <= i <= j ==> pos'[i] == pos[i]) && pos'[j + 1] == size
    requires jumps' == if IsJump(ops[j]) then [(size - 1, ops[j].target)] + jumps else jumps
    ensures Listed(ops, j + 1, pos', jumps')
  {
    forall i | 0 <= i < j + 1 && IsJump(ops[i]) ensures pos'[i + 1] > 0 && (pos'[i + 1] - 1, ops[i].target) in jumps' {
      if i == j { assert jumps'[0] == (size - 1, ops[j].target); }
    }
    forall e | e in jumps' ensures exists i :: 0 <= i < j + 1 && FromOp(ops, i, pos', e) {
      if e in jumps {
        var i :| 0 <= i < j && FromOp(ops, i, pos, e);
        assert FromOp(ops, i, pos', e);
      } else {
        assert FromOp(ops, j, pos', e);
      }
    }
  }

  lemma AwaitedNext(ops: seq<Op>, j: nat, pos: seq<int>, pos': seq<int>, size: nat)
    requires j < |ops| && Awaited(ops, j, pos) && (IsJump(ops[j]) ==> ops[j].target <= |ops|)
    requires pos' == (if IsJump(ops[j]) then Marked(pos, ops[j].target) else pos)[j + 1 := size]
    ensures Awaited(ops, j + 1, pos')
  {
  }

  lemma LandingsNext(ops: seq<Op>, n: nat, j: nat, pos: seq<int>, cur: seq<Binding>, aft: Binding, next: Binding)
    requires j < |ops| && Awaited(ops, j, pos) && LandingsTo(ops, n, j, cur) && (IsJump(ops[j]) ==> ops[j].target <= |ops|)
    requires next == if (if IsJump(ops[j]) then Marked(pos, ops[j].target) else pos)[j + 1] == -1 then NoBinding(n) else aft
    ensures LandingsTo(ops, n, j + 1, cur + [next])
  {
  }

  // ---- patching

  ghost predicate JumpLast(op: Op, seg: seq<Instr>) {
    |seg| > 0 && seg[|seg| - 1].Jmp?
  }

  ghost predicate Unlisted(done: seq<(nat, nat)>, q: int) { forall e :: e in done ==> e.0 != q }

  /** The jumps in `done` have their targets; nothing else of the code has changed. */
  ghost predicate Patched(ops: seq<Op>, raw: seq<Instr>, code: seq<Instr>, pos: seq<int>, done: seq<(nat, nat)>) {
    && |code| == |raw|
    && (forall e :: e in done ==> e.0 < |raw| && e.1 < |pos| && raw[e.0].Jmp? && code[e.0] == Jmp(raw[e.0].cond, pos[e.1]))
    && (forall q :: 0 <= q < |raw| && Unlisted(done, q) ==> code[q] == raw[q])
  }

  lemma {:induction false} Ascending(ops: seq<Op>, code: seq<Instr>, pos: seq<int>, segs: seq<seq<Instr>>, i: nat, j: nat)
    requires Laid(ops, |ops|, code, pos, segs) && i <= j <= |ops|
    ensures |pos| == |ops| + 1 && 1 <= pos[i] <= Body(pos, i) <= Body(pos, j) <= |code|
    ensures i < j ==> Body(pos, i) <= pos[j]
  {
    if i < j {
      Ascending(ops, code, pos, segs, i, j - 1);
      assert PlacedAt(code, Body(pos, j - 1), pos[j], segs[j - 1]);
    }
  }

  lemma JumpAt(ops: seq<Op>, raw: seq<Instr>, pos: seq<int>, segs: seq<seq<Instr>>, i: nat)
    requires Laid(ops, |ops|, raw, pos, segs) && i < |ops| && JumpLast(ops[i], segs[i])
    ensures |pos| == |ops| + 1 && |segs| == |ops| && 1 <= Body(pos, i) < pos[i + 1] <= |raw|
    ensures raw[pos[i + 1] - 1] == segs[i][|segs[i]| - 1]
  {
    assert PlacedAt(raw, Body(pos, i), pos[i + 1], segs[i]);
    LastOf(raw, Body(pos, i), pos[i + 1], segs[i]);
  }

  /** An instruction belongs to one operation. */
  lemma OneOwner(ops: seq<Op>, raw: seq<Instr>, pos: seq<int>, segs: seq<seq<Instr>>, i: nat, j: nat, q: int)
    requires Laid(ops, |ops|, raw, pos, segs) && i < |ops| && j < |ops| && |pos| == |ops| + 1
    requires Body(pos, i) <= q < pos[i + 1] && Body(pos, j) <= q < pos[j + 1]
    ensures i == j
  {
    hide Laid;
    if i < j { Ascending(ops, raw, pos, segs, i + 1, j); }
    if j < i { Ascending(ops, raw, pos, segs, j + 1, i); }
  }

  lemma JumpThere(ops: seq<Op>, raw: seq<Instr>, code: seq<Instr>, pos: seq<int>, segs: seq<seq<Instr>>, all: seq<(nat, nat)>, k: nat)
    requires Laid(ops, |ops|, raw, pos, segs) && Listed(ops, |ops|, pos, all) && k < |all|
    requires forall i :: 0 <= i < |ops| && IsJump(ops[i]) ==> JumpLast(ops[i], segs[i]) && ops[i].target <= |ops|
    requires Patched(ops, raw, code, pos, all[..k])
    ensures |pos| == |ops| + 1 && all[k].0 < |raw| == |code| && all[k].1 < |pos| && raw[all[k].0].Jmp?
    ensures code[all[k].0].Jmp? && code[all[k].0].cond == raw[all[k].0].cond
  {
    hide Laid, Listed;
    var i := OwnerOf(ops, pos, all, k);
    JumpAt(ops, raw, pos, segs, i);
    assert forall e :: e in all[..k] ==> code[e.0] == Jmp(raw[e.0].cond, pos[e.1]);
  }

  lemma OwnerOf(ops: seq<Op>, pos: seq<int>, all: seq<(nat, nat)>, k: nat) returns (i: nat)
    requires Listed(ops, |ops|, pos, all) && k < |all|
    ensures i < |ops| && |pos| == |ops| + 1 && FromOp(ops, i, pos, all[k])
  {
    assert all[k] in all;
    i :| 0 <= i < |ops| && FromOp(ops, i, pos, all[k]);
  }

  /** Two recorded jumps at the same place are the same jump. */
  lemma OneTarget(ops: seq<Op>, raw: seq<Instr>, pos: seq<int>, segs: seq<seq<Instr>>, all: seq<(nat, nat)>, k: nat, l: nat)
    requires Laid(ops, |ops|, raw, pos, segs) && Listed(ops, |ops|, pos, all) && k < |all| && l < |all|
    requires forall i :: 0 <= i < |ops| && IsJump(ops[i]) ==> JumpLast(ops[i], segs[i]) && ops[i].target <= |ops|
    requires all[k].0 == all[l].0
    ensures all[k] == all[l]
  {
    hide Laid, Listed;
    var i := OwnerOf(ops, pos, all, k);
    var j := OwnerOf(ops, pos, all, l);
    JumpAt(ops, raw, pos, segs, i);
    JumpAt(ops, raw, pos, segs, j);
    OneOwner(ops, raw, pos, segs, i, j, all[k].0);
  }

  lemma PatchedNext(ops: seq<Op>, raw: seq<Instr>, code: seq<Instr>, pos: seq<int>, all: seq<(nat, nat)>, k: nat, segs: seq<seq<Instr>>)
    requires Laid(ops, |ops|, raw, pos, segs) && Listed(ops, |ops|, pos, all) && k < |all|
    requires forall i :: 0 <= i < |ops| && IsJump(ops[i]) ==> JumpLast(ops[i], segs[i]) && ops[i].target <= |ops|
    requires Patched(ops, raw, code, pos, all[..k])
    requires all[k].0 < |raw| == |code| && all[k].1 < |pos| && raw[all[k].0].Jmp?
    requires code[all[k].0].Jmp? && code[all[k].0].cond == raw[all[k].0].cond
    ensures Patched(ops, raw, code[all[k].0 := Jmp(code[all[k].0].cond, pos[all[k].1])], pos, all[..k + 1])
  {
    hide Laid, Listed;
    var e := all[k];
    var code' := code[e.0 := Jmp(code[e.0].cond, pos[e.1])];
    assert all[..k + 1] == all[..k] + [e];
    forall f | f in all[..k + 1]
      ensures f.0 < |raw| && f.1 < |pos| && raw[f.0].Jmp? && code'[f.0] == Jmp(raw[f.0].cond, pos[f.1])
    {
      if f != e {
        var l :| 0 <= l < k && all[l] == f;
        if f.0 == e.0 { OneTarget(ops, raw, pos, segs, all, k, l); }
      }
    }
    forall q | 0 <= q < |raw| && Unlisted(all[..k + 1], q) ensures code'[q] == raw[q] {
      assert e in all[..k + 1];
      assert Unlisted(all[..k], q);
    }
  }

  lemma AllPlaced(ops: seq<Op>, raw: seq<Instr>, code: seq<Instr>, pos: seq<int>, segs: seq<seq<Instr>>, all: seq<(nat, nat)>)
    requires Laid(ops, |ops|, raw, pos, segs) && Listed(ops, |ops|, pos, all)
    requires forall i :: 0 <= i < |ops| && IsJump(ops[i]) ==> JumpLast(ops[i], segs[i]) && ops[i].target <= |ops|
    requires Patched(ops, raw, code, pos, all)
    ensures Placed(ops, code, pos, segs)
  {
    hide Listed;
    forall i | 0 <= i < |ops| ensures PlacedAt(code, Body(pos, i), pos[i + 1], Resolved(ops[i], segs[i], pos)) {
      OnePlaced(ops, raw, code, pos, segs, all, i);
    }
  }

  lemma OnePlaced(ops: seq<Op>, raw: seq<Instr>, code: seq<Instr>, pos: seq<int>, segs: seq<seq<Instr>>, all: seq<(nat, nat)>, i: nat)
    requires Laid(ops, |ops|, raw, pos, segs) && Listed(ops, |ops|, pos, all) && i < |ops|
    requires forall i :: 0 <= i < |ops| && IsJump(ops[i]) ==> JumpLast(ops[i], segs[i]) && ops[i].target <= |ops|
    requires Patched(ops, raw, code, pos, all)
    ensures |pos| == |ops| + 1 && |segs| == |ops|
    ensures PlacedAt(code, Body(pos, i), pos[i + 1], Resolved(ops[i], segs[i], pos))
  {
    hide Laid, Listed, Patched, PlacedAt, Resolved;
    Ascending(ops, raw, pos, segs, i, i + 1);
    LaidAt(ops, raw, pos, segs, i);
    forall q | Body(pos, i) <= q < pos[i + 1] && !(IsJump(ops[i]) && q == pos[i + 1] - 1)
      ensures Unlisted(all, q)
    {
      Unpatched(ops, raw, pos, segs, all, i, q);
    }
    if IsJump(ops[i]) {
      ListedAt(ops, pos, all, i);
      JumpResolved(ops, raw, code, pos, all, ops[i], segs[i], Body(pos, i), pos[i + 1]);
    } else {
      OthersKept(ops, raw, code, pos, all, Body(pos, i), pos[i + 1], segs[i]);
      NotResolved(ops[i], segs[i], pos);
    }
  }

  lemma LaidAt(ops: seq<Op>, raw: seq<Instr>, pos: seq<int>, segs: seq<seq<Instr>>, i: nat)
    requires Laid(ops, |ops|, raw, pos, segs) && i < |ops|
    ensures |pos| == |ops| + 1 && |segs| == |ops| && PlacedAt(raw, Body(pos, i), pos[i + 1], segs[i])
  {
  }

  lemma ListedAt(ops: seq<Op>, pos: seq<int>, all: seq<(nat, nat)>, i: nat)
    requires Listed(ops, |ops|, pos, all) && i < |ops| && IsJump(ops[i])
    ensures |pos| == |ops| + 1 && pos[i + 1] > 0 && (pos[i + 1] - 1, ops[i].target) in all
  {
  }

  lemma NotResolved(op: Op, seg: seq<Instr>, pos: seq<int>)
    requires !IsJump(op)
    ensures Resolved(op, seg, pos) == seg
  {
  }

  lemma OthersKept(ops: seq<Op>, raw: seq<Instr>, code: seq<Instr>, pos: seq<int>, all: seq<(nat, nat)>, from: int, to: int, seg: seq<Instr>)
    requires Patched(ops, raw, code, pos, all) && PlacedAt(raw, from, to, seg)
    requires forall q :: from <= q < to ==> Unlisted(all, q)
    ensures PlacedAt(code, from, to, seg)
  {
    assert forall q :: from <= q < to ==> code[q] == raw[q];
    assert code[from..to] == raw[from..to];
  }

  lemma JumpResolved(ops: seq<Op>, raw: seq<Instr>, code: seq<Instr>, pos: seq<int>, all: seq<(nat, nat)>, op: Op,
                     seg: seq<Instr>, from: int, to: int)
    requires Patched(ops, raw, code, pos, all) && PlacedAt(raw, from, to, seg) && IsJump(op) && JumpLast(op, seg)
    requires op.target < |pos| && to > 0 && (to - 1, op.target) in all
    requires forall q :: from <= q < to - 1 ==> Unlisted(all, q)
    ensures PlacedAt(code, from, to, Resolved(op, seg, pos))
  {
    hide Patched, PlacedAt;
    LastOf(raw, from, to, seg);
    OthersKept(ops, raw, code, pos, all, from, to - 1, seg[..|seg| - 1]);
    LastPatched(ops, raw, code, pos, all, (to - 1, op.target));
    Extend(code, from, to, seg[..|seg| - 1], code[to - 1]);
  }

  lemma LastPatched(ops: seq<Op>, raw: seq<Instr>, code: seq<Instr>, pos: seq<int>, all: seq<(nat, nat)>, e: (nat, nat))
    requires Patched(ops, raw, code, pos, all) && e in all
    ensures e.0 < |raw| == |code| && e.1 < |pos| && raw[e.0].Jmp? && code[e.0] == Jmp(raw[e.0].cond, pos[e.1])
  {
  }

  lemma Extend(code: seq<Instr>, from: int, to: int, seg: seq<Instr>, i: Instr)
    requires PlacedAt(code, from, to - 1, seg) && to <= |code| && code[to - 1] == i
    ensures PlacedAt(code, from, to, seg + [i])
  {
    assert code[from..to] == code[from..to - 1] + [i];
  }

  lemma Unpatched(ops: seq<Op>, raw: seq<Instr>, pos: seq<int>, segs: seq<seq<Instr>>, all: seq<(nat, nat)>, i: nat, q: int)
    requires Laid(ops, |ops|, raw, pos, segs) && Listed(ops, |ops|, pos, all) && i < |ops| && |pos| == |ops| + 1
    requires forall i :: 0 <= i < |ops| && IsJump(ops[i]) ==> JumpLast(ops[i], segs[i]) && ops[i].target <= |ops|
    requires Body(pos, i) <= q < pos[i + 1] && !(IsJump(ops[i]) && q == pos[i + 1] - 1)
    ensures Unlisted(all, q)
  {
    hide Laid, Listed;
    forall k | 0 <= k < |all| ensures all[k].0 != q {
      var j := OwnerOf(ops, pos, all, k);
      JumpAt(ops, raw, pos, segs, j);
      if all[k].0 == q { OneOwner(ops, raw, pos, segs, i, j, q); }
    }
  }

  lemma JumpsLast(ops: seq<Op>, n: nat, p: Plan)
    requires OpsOk(ops, n) && PlanOk(ops, n, p)
    ensures |p.segs| == |ops|
    ensures forall i :: 0 <= i < |ops| && IsJump(ops[i]) ==> JumpLast(ops[i], p.segs[i]) && ops[i].target <= |ops|
  {
    hide CmpOk;
    forall i | 0 <= i < |ops| && IsJump(ops[i]) ensures JumpLast(ops[i], p.segs[i]) {
      assert Segment(ops[i], p.cur[i], p.segs[i], p.aft[i], n);
    }
  }

  /** Every instruction is one the machine can execute. */
  lemma AllCode(ops: seq<Op>, n: nat, code: seq<Instr>, pos: seq<int>, p: Plan)
    requires OpsOk(ops, n) && PlanOk(ops, n, p) && Placed(ops, code, pos, p.segs)
    ensures CodeOk(code, n)
  {
    hide Segment, PlacedAt, Resolved, Straight;
    forall q | 0 <= q < |code| ensures CodeAt(code[q], n) {
      if q > 1 {
        var i := Owner(ops, code, pos, p.segs, q, |ops|);
        assert PlacedAt(code, Body(pos, i), pos[i + 1], Resolved(ops[i], p.segs[i], pos));
        SegmentCode(ops[i], p.cur[i], p.segs[i], p.aft[i], n, pos);
        InPlace(code, Body(pos, i), pos[i + 1], Resolved(ops[i], p.segs[i], pos), q);
      }
    }
    assert forall q :: 0 <= q < |code| ==> CodeAt(code[q], n);
  }

  ghost predicate CodeAt(i: Instr, n: nat) { i.Jmp? || i == Ret || i == Enter || i == Hook || Straight(i, n) }

  lemma InPlace(code: seq<Instr>, from: int, to: int, seg: seq<Instr>, q: int)
    requires PlacedAt(code, from, to, seg) && from <= q < to
    ensures |seg| == to - from && code[q] == seg[q - from]
  {
    assert code[from..to][q - from] == code[q];
  }

  lemma SegmentCode(op: Op, cur: Binding, seg: seq<Instr>, aft: Binding, n: nat, pos: seq<int>)
    requires OpOk(op, n) && Segment(op, cur, seg, aft, n)
    ensures forall k :: 0 <= k < |Resolved(op, seg, pos)| ==> CodeAt(Resolved(op, seg, pos)[k], n)
  {
    hide Straight, Sim, Exec;
    if seg != [] {
      var body := seg[..|seg| - 1];
      assert forall k :: 0 <= k < |body| ==> seg[k] == body[k];
    }
  }

  lemma HeadEncodable(code: seq<Instr>)
    requires code == [JitModel.Enter, JitModel.Hook]
    ensures AllEncodable(code)
  {
  }

  /** Emission appends instructions the processor has. */
  lemma SegmentEncodable(op: Op, cur: Binding, seg: seq<Instr>, aft: Binding, n: nat, code: seq<Instr>)
    requires OpOk(op, n) && Segment(op, cur, seg, aft, n) && AllEncodable(code)
    ensures AllEncodable(code + seg)
  {
    hide InRange, Sim, Exec, FormOf;
    if seg != [] {
      var body := seg[..|seg| - 1];
      assert forall k :: 0 <= k < |body| ==> seg[k] == body[k];
    }
  }

  /** The operation an instruction was emitted for. */
  lemma {:induction false} Owner(ops: seq<Op>, code: seq<Instr>, pos: seq<int>, segs: seq<seq<Instr>>, q: int, j: nat)
    returns (i: nat)
    requires Placed(ops, code, pos, segs) && j <= |ops| && 2 <= q < Body(pos, j)
    ensures i < j && Body(pos, i) <= q < pos[i + 1]
  {
    hide PlacedAt, Resolved;
    i := j - 1;
    if q < Body(pos, i) { i := Owner(ops, code, pos, segs, q, i); }
  }
}
