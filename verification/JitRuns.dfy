/** Runs of the bytecode and of the machine code, what it means for a function to be compiled, and the
    proof that compiled code returns what the bytecode returns. */
module JitRuns {
  import opened JitModel

  datatype Next<T> = Halted | At(state: T)

  // ---- bytecode runs

  datatype Config = Config(pc: nat, env: Env)

  function Interp1(ops: seq<Op>, c: Config): (d: Next<Config>)
    requires OpsOk(ops, |c.env|) && c.pc <= |ops|
    ensures d.At? ==> |d.state.env| == |c.env| && d.state.pc <= |ops|
  {
    if c.pc == |ops| then Halted else
    match ops[c.pc]
    case OJump(t) => At(Config(t, c.env))
    case OJumpIf(k, a, b, t) => At(Config(if Holds(k, c.env[a], c.env[b]) then t else c.pc + 1, c.env))
    case ORet(_) => Halted
    case op => At(Config(c.pc + 1, Effect(op, c.env)))
  }

  function Interp(ops: seq<Op>, c: Config, k: nat): (d: Next<Config>)
    requires OpsOk(ops, |c.env|) && c.pc <= |ops|
    ensures d.At? ==> |d.state.env| == |c.env| && d.state.pc <= |ops|
  {
    if k == 0 then At(c) else
    match Interp(ops, c, k - 1)
    case Halted => Halted
    case At(d) => Interp1(ops, d)
  }

  ghost predicate AtReturn(ops: seq<Op>, n: nat, d: Next<Config>, v: Word) {
    && d.At? && d.state.pc < |ops| && |d.state.env| == n
    && ops[d.state.pc].ORet? && ops[d.state.pc].src < n && d.state.env[ops[d.state.pc].src] == v
  }

  /** Interpreting from the first operation with these register values returns v. */
  ghost predicate InterpReturns(ops: seq<Op>, env: Env, v: Word)
    requires OpsOk(ops, |env|)
  {
    exists k: nat :: AtReturn(ops, |env|, Interp(ops, Config(0, env), k), v)
  }

  // ---- machine runs

  datatype MConfig = MConfig(ip: int, m: Machine)

  ghost predicate CodeOk(code: seq<Instr>, n: nat) {
    forall i :: 0 <= i < |code| ==> code[i].Jmp? || code[i] == Ret || code[i] == Enter || code[i] == Hook || Straight(code[i], n)
  }

  function MStep(code: seq<Instr>, c: MConfig): (d: Next<MConfig>)
    requires CodeOk(code, |c.m.frame|) && |c.m.regs| == NREGS
    ensures d.At? ==> |d.state.m.frame| == |c.m.frame| && |d.state.m.regs| == NREGS
  {
    if !(0 <= c.ip < |code|) then Halted else
    match code[c.ip]
    case Jmp(k, t) => At(MConfig(if Holds(k, c.m.flags.0, c.m.flags.1) then t else c.ip + 1, c.m))
    case Ret => Halted
    case Enter => At(MConfig(c.ip + 1, c.m))
    case Hook => At(MConfig(c.ip + 1, Hooked(c.m)))
    case i => At(MConfig(c.ip + 1, Exec1(c.m, i)))
  }

  function MRun(code: seq<Instr>, c: MConfig, k: nat): (d: Next<MConfig>)
    requires CodeOk(code, |c.m.frame|) && |c.m.regs| == NREGS
    ensures d.At? ==> |d.state.m.frame| == |c.m.frame| && |d.state.m.regs| == NREGS
  {
    if k == 0 then At(c) else
    match MRun(code, c, k - 1)
    case Halted => Halted
    case At(d) => MStep(code, d)
  }

  ghost predicate AtRet(code: seq<Instr>, d: Next<MConfig>, v: Word) {
    && d.At? && 0 <= d.state.ip < |code| && code[d.state.ip] == Ret
    && |d.state.m.regs| == NREGS && d.state.m.regs[EAX] == v
  }

  /** Running the code from its first instruction returns v in EAX. */
  ghost predicate MachineReturns(code: seq<Instr>, m: Machine, v: Word)
    requires CodeOk(code, |m.frame|) && |m.regs| == NREGS
  {
    exists k: nat :: AtRet(code, MRun(code, MConfig(0, m), k), v)
  }

  lemma {:induction false} RunAdd(code: seq<Instr>, c: MConfig, k: nat, d: MConfig, j: nat)
    requires CodeOk(code, |c.m.frame|) && |c.m.regs| == NREGS
    requires MRun(code, c, k) == At(d)
    ensures MRun(code, c, k + j) == MRun(code, d, j)
  {
    if j > 0 { RunAdd(code, c, k, d, j - 1); }
  }

  lemma {:induction false} StaysHalted(code: seq<Instr>, c: MConfig, k: nat, j: nat)
    requires CodeOk(code, |c.m.frame|) && |c.m.regs| == NREGS
    requires MRun(code, c, k).Halted? && k <= j
    ensures MRun(code, c, j).Halted?
  {
    if k < j { StaysHalted(code, c, k, j - 1); }
  }

  /** A run stops in one place only. */
  lemma StopsOnce(code: seq<Instr>, c: MConfig, k: nat, j: nat)
    requires CodeOk(code, |c.m.frame|) && |c.m.regs| == NREGS
    requires MRun(code, c, k).At? && MStep(code, MRun(code, c, k).state).Halted?
    requires MRun(code, c, j).At?
    ensures j <= k
    ensures MStep(code, MRun(code, c, j).state).Halted? ==> j == k
  {
    var k1: nat, j1: nat := k + 1, j + 1;
    assert MRun(code, c, k1).Halted?;
    assert MRun(code, c, j1) == MStep(code, MRun(code, c, j).state);
    if k1 <= j { StaysHalted(code, c, k1, j); }
    if j1 <= k && MStep(code, MRun(code, c, j).state).Halted? { StaysHalted(code, c, j1, k); }
  }

  lemma {:induction false} RunStraight(code: seq<Instr>, ip: nat, m: Machine, seg: seq<Instr>)
    requires CodeOk(code, |m.frame|) && |m.regs| == NREGS && AllStraight(seg, |m.frame|)
    requires ip + |seg| <= |code| && code[ip..ip + |seg|] == seg
    ensures MRun(code, MConfig(ip, m), |seg|) == At(MConfig(ip + |seg|, Exec(m, seg)))
  {
    hide Exec, Exec1, CodeOk, MRun;
    RunNothing(code, MConfig(ip, m));
    if seg != [] {
      var pre := seg[..|seg| - 1];
      assert code[ip..ip + |pre|] == code[ip..ip + |seg|][..|pre|];
      RunStraight(code, ip, m, pre);
      assert code[ip + |pre|] == code[ip..ip + |seg|][|pre|];
      RunOne(code, ip, m, seg);
    } else {
      assert Exec(m, seg) == m by { ExecNothing(m); }
    }
  }

  lemma ExecNothing(m: Machine)
    requires |m.regs| == NREGS
    ensures Exec(m, []) == m
  {
  }

  lemma RunNothing(code: seq<Instr>, c: MConfig)
    requires CodeOk(code, |c.m.frame|) && |c.m.regs| == NREGS
    ensures MRun(code, c, 0) == At(c)
  {
  }

  lemma RunOne(code: seq<Instr>, ip: nat, m: Machine, seg: seq<Instr>)
    requires CodeOk(code, |m.frame|) && |m.regs| == NREGS && AllStraight(seg, |m.frame|) && seg != []
    requires ip + |seg| <= |code| && code[ip + |seg| - 1] == seg[|seg| - 1]
    requires var pre := seg[..|seg| - 1];
             AllStraight(pre, |m.frame|) && MRun(code, MConfig(ip, m), |pre|) == At(MConfig(ip + |pre|, Exec(m, pre)))
    ensures MRun(code, MConfig(ip, m), |seg|) == At(MConfig(ip + |seg|, Exec(m, seg)))
  {
    hide Exec1;
  }

  // ---- compiled code

  function NoBinding(n: nat): (b: Binding)
    ensures |b| == n
  {
    seq(n, _ => -1)
  }

  /** The code of a straight operation carries agreement before it to agreement after it. */
  ghost predicate SegOk(cur0: Binding, seg: seq<Instr>, cur1: Binding, n: nat, op: Op)
    requires OpOk(op, n)
  {
    && AllStraight(seg, n)
    && forall m, env :: |env| == n && Sim(cur0, m, env) ==> Sim(cur1, Exec(m, seg), Effect(op, env))
  }

  /** The code of a comparison keeps agreement and leaves both operands in the flags. */
  ghost predicate CmpOk(cur0: Binding, seg: seq<Instr>, cur1: Binding, n: nat, a: nat, b: nat)
    requires a < n && b < n
  {
    && AllStraight(seg, n)
    && forall m, env :: |env| == n && Sim(cur0, m, env) ==>
         Sim(cur1, Exec(m, seg), env) && Exec(m, seg).flags == (env[a], env[b])
  }

  ghost predicate RetOk(cur0: Binding, seg: seq<Instr>, n: nat, s: nat)
    requires s < n
  {
    && AllStraight(seg, n)
    && forall m, env :: |env| == n && Sim(cur0, m, env) ==> Exec(m, seg).regs[EAX] == env[s]
  }

  /** The code emitted for one operation; jumps are emitted with target 0 and patched later. */
  ghost predicate Segment(op: Op, cur0: Binding, seg: seq<Instr>, cur1: Binding, n: nat)
    requires OpOk(op, n)
  {
    match op
    case OLabel => seg == [] && cur1 == NoBinding(n)
    case OJump(_) => seg == [Jmp(Always, 0)] && cur1 == cur0
    case OJumpIf(k, a, b, _) =>
      |seg| > 0 && seg[|seg| - 1] == Jmp(k, 0) && CmpOk(cur0, seg[..|seg| - 1], cur1, n, a, b)
    case ORet(s) => |seg| > 0 && seg[|seg| - 1] == Ret && RetOk(cur0, seg[..|seg| - 1], n, s)
    case _ => SegOk(cur0, seg, cur1, n, op)
  }

  function Resolved(op: Op, seg: seq<Instr>, pos: seq<int>): seq<Instr> {
    if IsJump(op) && |seg| > 0 && seg[|seg| - 1].Jmp? && op.target < |pos|
    then seg[..|seg| - 1] + [Jmp(seg[|seg| - 1].cond, pos[op.target])] else seg
  }

  /** What the compiler knows at each operation: its code, where that code starts, and the bindings
      before the operation (`cur`) and after it (`aft`). */
  datatype Plan = Plan(segs: seq<seq<Instr>>, cur: seq<Binding>, aft: seq<Binding>)

  ghost predicate PlanOk(ops: seq<Op>, n: nat, p: Plan)
    requires OpsOk(ops, n)
  {
    && |p.segs| == |p.aft| == |ops| && |p.cur| == |ops| + 1
    && (forall j :: 0 <= j < |ops| ==> Segment(ops[j], p.cur[j], p.segs[j], p.aft[j], n))
    && (forall j :: 0 <= j < |ops| ==> p.cur[j + 1] == p.aft[j] || p.cur[j + 1] == NoBinding(n))
    && p.cur[0] == NoBinding(n)
  }

  /** Where a forward jump lands nothing is bound. */
  ghost predicate LandingsOk(ops: seq<Op>, n: nat, cur: seq<Binding>)
    requires |cur| == |ops| + 1
  {
    forall j :: 0 <= j < |ops| && IsJump(ops[j]) && j < ops[j].target <= |ops| ==> cur[ops[j].target] == NoBinding(n)
  }

  /** Where the code of operation j itself starts. The position of operation 0 lies in front of the
      hook call: a jump there calls the hook again. */
  function Body(pos: seq<int>, j: nat): int
    requires j < |pos|
  {
    if j == 0 then 2 else pos[j]
  }

  ghost predicate Placed(ops: seq<Op>, code: seq<Instr>, pos: seq<int>, segs: seq<seq<Instr>>) {
    && |pos| == |ops| + 1 && |segs| == |ops|
    && |code| > 1 && code[0] == Enter && code[1] == Hook && pos[0] == 1 && Body(pos, |ops|) == |code|
    && (forall j :: 0 <= j <= |ops| ==> 1 <= pos[j] <= |code|)
    && (forall j :: 0 <= j < |ops| ==> PlacedAt(code, Body(pos, j), pos[j + 1], Resolved(ops[j], segs[j], pos)))
  }

  ghost predicate PlacedAt(code: seq<Instr>, from: int, to: int, seg: seq<Instr>) {
    0 <= from <= to <= |code| && code[from..to] == seg
  }

  ghost predicate Compiled(ops: seq<Op>, n: nat, code: seq<Instr>, pos: seq<int>, p: Plan)
    requires OpsOk(ops, n)
  {
    PlanOk(ops, n, p) && LandingsOk(ops, n, p.cur) && Placed(ops, code, pos, p.segs) && CodeOk(code, n)
  }

  /** The bytecode compiler's convention: loops are entered through a label. */
  ghost predicate LabelRule(ops: seq<Op>) {
    forall j :: 0 <= j < |ops| && IsJump(ops[j]) && ops[j].target <= j ==> ops[ops[j].target] == OLabel
  }

  // ---- simulation

  /** Agreement on arriving at an operation: a label needs only the frame. */
  ghost predicate SimAt(ops: seq<Op>, cur: seq<Binding>, pc: nat, m: Machine, env: Env)
    requires pc <= |ops| && |cur| == |ops| + 1
  {
    Sim(if pc < |ops| && ops[pc] == OLabel then NoBinding(|env|) else cur[pc], m, env)
  }

  lemma LandAnywhere(ops: seq<Op>, n: nat, cur: seq<Binding>, j: nat, b: Binding, m: Machine, env: Env)
    requires |cur| == |ops| + 1 && j < |ops| && IsJump(ops[j]) && ops[j].target <= |ops|
    requires LandingsOk(ops, n, cur) && LabelRule(ops) && |env| == n && Sim(b, m, env)
    ensures SimAt(ops, cur, ops[j].target, m, env)
  {
    SimWeaker(b, NoBinding(n), m, env, -1);
  }

  lemma FallThrough(ops: seq<Op>, n: nat, p: Plan, j: nat, m: Machine, env: Env)
    requires OpsOk(ops, n) && PlanOk(ops, n, p) && j < |ops| && |env| == n && Sim(p.aft[j], m, env)
    ensures SimAt(ops, p.cur, j + 1, m, env)
  {
    SimWeaker(p.aft[j], NoBinding(n), m, env, -1);
  }

  lemma LastOf(code: seq<Instr>, from: int, to: int, seg: seq<Instr>)
    requires PlacedAt(code, from, to, seg) && |seg| > 0
    ensures 0 <= from <= to - 1 < |code| && from + |seg| == to && code[to - 1] == seg[|seg| - 1]
    ensures PlacedAt(code, from, to - 1, seg[..|seg| - 1])
  {
    assert code[from..to][|seg| - 1] == code[to - 1];
    assert code[from..to - 1] == code[from..to][..|seg| - 1];
  }

  lemma RunPlaced(code: seq<Instr>, from: int, to: int, m: Machine, seg: seq<Instr>)
    requires CodeOk(code, |m.frame|) && |m.regs| == NREGS && AllStraight(seg, |m.frame|)
    requires PlacedAt(code, from, to, seg)
    ensures MRun(code, MConfig(from, m), |seg|) == At(MConfig(to, Exec(m, seg)))
  {
    RunStraight(code, from, m, seg);
  }

  ghost predicate Ready(ops: seq<Op>, n: nat, code: seq<Instr>, pos: seq<int>, p: Plan, c: Config, m: Machine) {
    && OpsOk(ops, n) && Compiled(ops, n, code, pos, p) && LabelRule(ops)
    && |c.env| == n && c.pc <= |ops| && |m.frame| == n && |m.regs| == NREGS && SimAt(ops, p.cur, c.pc, m, c.env)
  }

  lemma ReadyOk(ops: seq<Op>, n: nat, code: seq<Instr>, pos: seq<int>, p: Plan, c: Config, m: Machine)
    requires Ready(ops, n, code, pos, p, c, m) && c.pc < |ops|
    ensures OpsOk(ops, n) && OpOk(ops[c.pc], n) && CodeOk(code, n) && |pos| == |p.cur| == |ops| + 1
    ensures |p.segs| == |p.aft| == |ops| && PlanOk(ops, n, p) && LandingsOk(ops, n, p.cur)
    ensures LabelRule(ops) && Compiled(ops, n, code, pos, p) && |m.frame| == |c.env| == n && |m.regs| == NREGS
    ensures Segment(ops[c.pc], p.cur[c.pc], p.segs[c.pc], p.aft[c.pc], n)
    ensures PlacedAt(code, Body(pos, c.pc), pos[c.pc + 1], Resolved(ops[c.pc], p.segs[c.pc], pos))
    ensures ops[c.pc] != OLabel ==> Sim(p.cur[c.pc], m, c.env)
    ensures ops[c.pc] == OLabel ==> Sim(NoBinding(n), m, c.env)
    ensures IsJump(ops[c.pc]) ==> ops[c.pc].target <= |ops|
  {
    hide Sim, Segment, CodeOk;
  }

  /** What a machine run that matches a bytecode step to `d` has to reach. */
  ghost predicate Reached(ops: seq<Op>, n: nat, code: seq<Instr>, pos: seq<int>, p: Plan,
                          from: int, m: Machine, s: nat, d: Config, m': Machine) {
    && OpsOk(ops, n) && Compiled(ops, n, code, pos, p) && d.pc <= |ops| && |d.env| == n
    && |m.frame| == |m'.frame| == n && |m.regs| == |m'.regs| == NREGS
    && MRun(code, MConfig(from, m), s) == At(MConfig(pos[d.pc], m')) && SimAt(ops, p.cur, d.pc, m', d.env)
  }

  lemma SegRuns(cur0: Binding, seg: seq<Instr>, cur1: Binding, n: nat, op: Op, m: Machine, env: Env)
    requires OpOk(op, n) && SegOk(cur0, seg, cur1, n, op) && |env| == n && Sim(cur0, m, env)
    ensures |m.regs| == NREGS && |m.frame| == n && AllStraight(seg, n)
    ensures Sim(cur1, Exec(m, seg), Effect(op, env))
  {
    hide Effect, Exec, Straight;
  }

  lemma CmpRuns(cur0: Binding, seg: seq<Instr>, cur1: Binding, n: nat, a: nat, b: nat, m: Machine, env: Env)
    requires a < n && b < n && CmpOk(cur0, seg, cur1, n, a, b) && |env| == n && Sim(cur0, m, env)
    ensures |m.regs| == NREGS && |m.frame| == n && AllStraight(seg, n)
    ensures Sim(cur1, Exec(m, seg), env) && Exec(m, seg).flags == (env[a], env[b])
  {
    hide Exec, Straight;
  }

  lemma RetRuns(cur0: Binding, seg: seq<Instr>, n: nat, s: nat, m: Machine, env: Env)
    requires s < n && RetOk(cur0, seg, n, s) && |env| == n && Sim(cur0, m, env)
    ensures |m.regs| == NREGS && |m.frame| == n && AllStraight(seg, n) && Exec(m, seg).regs[EAX] == env[s]
  {
    hide Exec, Straight;
  }

  lemma StepStraight(ops: seq<Op>, n: nat, code: seq<Instr>, pos: seq<int>, p: Plan, c: Config, m: Machine)
    returns (s: nat, m': Machine)
    requires Ready(ops, n, code, pos, p, c, m) && c.pc < |ops|
    requires var op := ops[c.pc]; op.OMov? || op.OInt? || op.OBin? || op.ONeg?
    ensures OpOk(ops[c.pc], n)
    ensures Reached(ops, n, code, pos, p, Body(pos, c.pc), m, s, Config(c.pc + 1, Effect(ops[c.pc], c.env)), m')
    ensures s == |p.segs[c.pc]|
  {
    hide Sim, SimAt, Exec, Straight, Effect, CodeOk, SegOk, AllStraight, PlanOk, LandingsOk, Compiled, LabelRule, PlacedAt, MRun, Exec1;
    ReadyOk(ops, n, code, pos, p, c, m);
    var j := c.pc;
    SegRuns(p.cur[j], p.segs[j], p.aft[j], n, ops[j], m, c.env);
    RunPlaced(code, Body(pos, j), pos[j + 1], m, p.segs[j]);
    s, m' := |p.segs[j]|, Exec(m, p.segs[j]);
    FallThrough(ops, n, p, j, m', Effect(ops[j], c.env));
  }

  lemma StepJump(ops: seq<Op>, n: nat, code: seq<Instr>, pos: seq<int>, p: Plan, c: Config, m: Machine)
    requires Ready(ops, n, code, pos, p, c, m) && c.pc < |ops| && ops[c.pc].OJump?
    ensures ops[c.pc].target <= |ops|
    ensures Reached(ops, n, code, pos, p, Body(pos, c.pc), m, 1, Config(ops[c.pc].target, c.env), m)
  {
    hide Sim, SimAt, Exec, Exec1, Straight, Effect, CodeOk, AllStraight, PlanOk, LandingsOk, Compiled, LabelRule, PlacedAt, MRun, MStep;
    ReadyOk(ops, n, code, pos, p, c, m);
    var j, res := c.pc, Resolved(ops[c.pc], p.segs[c.pc], pos);
    assert |res| == 1 && res[0] == Jmp(Always, pos[ops[j].target]);
    LastOf(code, Body(pos, j), pos[j + 1], res);
    RunNothing(code, MConfig(Body(pos, j), m));
    JumpTaken(code, MConfig(Body(pos, j), m), 0, Body(pos, j), m, Always, pos[ops[j].target]);
    LandAnywhere(ops, n, p.cur, j, p.cur[j], m, c.env);
  }

  lemma JumpTaken(code: seq<Instr>, c: MConfig, k: nat, ip: nat, m: Machine, cond: Cond, to: int)
    requires CodeOk(code, |c.m.frame|) && |c.m.regs| == NREGS && ip < |code| && code[ip] == Jmp(cond, to)
    requires MRun(code, c, k) == At(MConfig(ip, m))
    ensures MRun(code, c, k + 1) == At(MConfig(if Holds(cond, m.flags.0, m.flags.1) then to else ip + 1, m))
  {
    hide Holds, Exec1, CodeOk;
  }

  lemma StepJumpIf(ops: seq<Op>, n: nat, code: seq<Instr>, pos: seq<int>, p: Plan, c: Config, m: Machine)
    returns (s: nat, m': Machine)
    requires Ready(ops, n, code, pos, p, c, m) && c.pc < |ops| && ops[c.pc].OJumpIf?
    ensures OpOk(ops[c.pc], n) && ops[c.pc].target <= |ops| && s > 0
    ensures var op := ops[c.pc];
            Reached(ops, n, code, pos, p, Body(pos, c.pc), m, s,
                    Config(if Holds(op.cond, c.env[op.a], c.env[op.b]) then op.target else c.pc + 1, c.env), m')
  {
    hide Sim, SimAt, Exec, Straight, Effect, CodeOk, Holds, CmpOk, AllStraight, PlanOk, LandingsOk, Compiled, LabelRule, PlacedAt, MRun, Exec1;
    ReadyOk(ops, n, code, pos, p, c, m);
    var j, op, seg := c.pc, ops[c.pc], p.segs[c.pc];
    var body, res := seg[..|seg| - 1], Resolved(op, seg, pos);
    assert res[..|res| - 1] == body && res[|res| - 1] == Jmp(op.cond, pos[op.target]);
    LastOf(code, Body(pos, j), pos[j + 1], res);
    CmpRuns(p.cur[j], body, p.aft[j], n, op.a, op.b, m, c.env);
    RunPlaced(code, Body(pos, j), pos[j + 1] - 1, m, body);
    s, m' := |seg|, Exec(m, body);
    JumpTaken(code, MConfig(Body(pos, j), m), s - 1, pos[j + 1] - 1, m', op.cond, pos[op.target]);
    LandAnywhere(ops, n, p.cur, j, p.aft[j], m', c.env);
    FallThrough(ops, n, p, j, m', c.env);
  }

  /** One bytecode step is matched by a machine run that ends where the step goes; the run is empty
      only for a step to the next operation. */
  lemma StepSimulates(ops: seq<Op>, n: nat, code: seq<Instr>, pos: seq<int>, p: Plan, c: Config, m: Machine)
    returns (s: nat, m': Machine)
    requires Ready(ops, n, code, pos, p, c, m) && Interp1(ops, c).At?
    ensures var d := Interp1(ops, c).state;
            Ready(ops, n, code, pos, p, d, m') && Reached(ops, n, code, pos, p, pos[c.pc], m, s, d, m')
            && (s == 0 ==> d.pc == c.pc + 1)
  {
    hide Ready, Reached, MRun, MStep, Interp1, Compiled, Body;
    ReadySizes(ops, n, code, pos, p, c, m);
    var h, m1 := Arrive(ops, n, code, pos, p, c, m);
    s, m' := BodySimulates(ops, n, code, pos, p, c, m1);
    ReachedVia(ops, n, code, pos, p, pos[c.pc], m, h, Body(pos, c.pc), m1, s, Interp1(ops, c).state, m');
    s := h + s;
  }

  lemma ReadySizes(ops: seq<Op>, n: nat, code: seq<Instr>, pos: seq<int>, p: Plan, c: Config, m: Machine)
    requires Ready(ops, n, code, pos, p, c, m)
    ensures OpsOk(ops, n) && OpsOk(ops, |c.env|) && c.pc <= |ops| && |pos| == |ops| + 1
    ensures CodeOk(code, n) && |m.frame| == n && |m.regs| == NREGS
  {
    hide OpOk, CodeOk, SimAt, PlanOk, LandingsOk, LabelRule;
  }

  lemma ReachedVia(ops: seq<Op>, n: nat, code: seq<Instr>, pos: seq<int>, p: Plan, from: int, m: Machine, h: nat,
                   mid: int, m1: Machine, s: nat, d: Config, m': Machine)
    requires |m.frame| == n && |m.regs| == NREGS && CodeOk(code, n) && |m1.frame| == n && |m1.regs| == NREGS
    requires MRun(code, MConfig(from, m), h) == At(MConfig(mid, m1)) && Reached(ops, n, code, pos, p, mid, m1, s, d, m')
    ensures Reached(ops, n, code, pos, p, from, m, h + s, d, m')
  {
    hide CodeOk, MRun, SimAt, PlanOk, LandingsOk;
    RunAdd(code, MConfig(from, m), h, MConfig(mid, m1), s);
  }

  /** From the position of an operation to its own code: at operation 0 through the hook, which leaves
      agreement as it is, since nothing is bound there. */
  lemma Arrive(ops: seq<Op>, n: nat, code: seq<Instr>, pos: seq<int>, p: Plan, c: Config, m: Machine)
    returns (h: nat, m1: Machine)
    requires Ready(ops, n, code, pos, p, c, m)
    ensures CodeOk(code, n) && |m.frame| == n && |m.regs| == NREGS && |pos| == |ops| + 1 && c.pc <= |ops|
    ensures h <= 1 && MRun(code, MConfig(pos[c.pc], m), h) == At(MConfig(Body(pos, c.pc), m1))
    ensures Ready(ops, n, code, pos, p, c, m1)
  {
    hide Exec1, Straight, Segment, LandingsOk, LabelRule, OpsOk, CodeOk, MRun, MStep, Hooked, PlacedAt, Sim;
    h, m1 := 0, m;
    RunNothing(code, MConfig(pos[c.pc], m));
    if c.pc == 0 {
      h, m1 := 1, Hooked(m);
      HookedAgrees(n, m, c.env);
      HookRuns(code, m);
    }
  }

  lemma HookRuns(code: seq<Instr>, m: Machine)
    requires CodeOk(code, |m.frame|) && |m.regs| == NREGS && |code| > 1 && code[1] == Hook
    ensures MRun(code, MConfig(1, m), 1) == At(MConfig(2, Hooked(m)))
  {
    hide CodeOk, Hooked;
    RunNothing(code, MConfig(1, m));
  }

  lemma HookedAgrees(n: nat, m: Machine, env: Env)
    requires Sim(NoBinding(n), m, env)
    ensures |m.regs| == NREGS && Sim(NoBinding(n), Hooked(m), env)
  {
  }

  lemma BodySimulates(ops: seq<Op>, n: nat, code: seq<Instr>, pos: seq<int>, p: Plan, c: Config, m: Machine)
    returns (s: nat, m': Machine)
    requires Ready(ops, n, code, pos, p, c, m) && Interp1(ops, c).At?
    ensures var d := Interp1(ops, c).state;
            Ready(ops, n, code, pos, p, d, m') && Reached(ops, n, code, pos, p, Body(pos, c.pc), m, s, d, m')
            && (s == 0 ==> d.pc == c.pc + 1)
  {
    hide Sim, Exec, Straight, CodeOk, Holds, PlanOk, Segment, Compiled, MRun;
    match ops[c.pc] {
      case OLabel =>
        s, m' := 0, m;
        StepLabel(ops, n, code, pos, p, c, m);
      case OJump(t) =>
        s, m' := 1, m;
        StepJump(ops, n, code, pos, p, c, m);
      case OJumpIf(k, a, b, t) =>
        s, m' := StepJumpIf(ops, n, code, pos, p, c, m);
      case _ =>
        s, m' := StepStraight(ops, n, code, pos, p, c, m);
    }
  }

  lemma LabelAt(ops: seq<Op>, cur: seq<Binding>, pc: nat, m: Machine, env: Env)
    requires pc < |ops| && |cur| == |ops| + 1 && ops[pc] == OLabel
    ensures SimAt(ops, cur, pc, m, env) == Sim(NoBinding(|env|), m, env)
  {
    hide Sim;
  }

  lemma StepLabel(ops: seq<Op>, n: nat, code: seq<Instr>, pos: seq<int>, p: Plan, c: Config, m: Machine)
    requires Ready(ops, n, code, pos, p, c, m) && c.pc < |ops| && ops[c.pc] == OLabel
    ensures Reached(ops, n, code, pos, p, Body(pos, c.pc), m, 0, Config(c.pc + 1, c.env), m)
  {
    hide Sim, Exec, SimAt, MStep, Straight, Effect, CodeOk, AllStraight, PlanOk, LandingsOk, Compiled, LabelRule;
    ReadyOk(ops, n, code, pos, p, c, m);
    LabelAt(ops, p.cur, c.pc, m, c.env);
    FallThrough(ops, n, p, c.pc, m, c.env);
  }

  // ---- whole runs

  /** A function is entered with every value in its frame slot and nothing bound. */
  ghost predicate EntryOk(m: Machine, env: Env) { |m.regs| == NREGS && m.frame == env }

  lemma EntryAgrees(n: nat, m: Machine, env: Env)
    requires EntryOk(m, env) && |env| == n
    ensures Sim(NoBinding(n), m, env)
  {
  }

  lemma EnterRuns(ops: seq<Op>, n: nat, code: seq<Instr>, pos: seq<int>, p: Plan, m: Machine, env: Env)
    requires OpsOk(ops, n) && Compiled(ops, n, code, pos, p) && LabelRule(ops) && |env| == n && EntryOk(m, env)
    ensures Ready(ops, n, code, pos, p, Config(0, env), m)
    ensures MRun(code, MConfig(0, m), 1) == At(MConfig(pos[0], m))
  {
    hide Sim, Straight, Exec1, Segment;
    EntryAgrees(n, m, env);
    assert MRun(code, MConfig(0, m), 0) == At(MConfig(0, m));
  }

  /** Every interpreted run is followed by a machine run, which makes progress: it can stay behind only
      as long as the interpreter moves straight ahead. */
  lemma {:induction false} RunSimulates(ops: seq<Op>, n: nat, code: seq<Instr>, pos: seq<int>, p: Plan,
                                        m: Machine, env: Env, k: nat)
    returns (s: nat, m': Machine)
    requires OpsOk(ops, n) && Compiled(ops, n, code, pos, p) && LabelRule(ops) && |env| == n && EntryOk(m, env)
    requires Interp(ops, Config(0, env), k).At?
    ensures var d := Interp(ops, Config(0, env), k).state;
            Ready(ops, n, code, pos, p, d, m') && MRun(code, MConfig(0, m), s) == At(MConfig(pos[d.pc], m'))
            && (|ops| + 1) * s + d.pc >= k
  {
    hide Sim, SimAt, Straight, Compiled, LabelRule, MStep, EntryOk, Interp1;
    EnterOk(ops, n, code, pos, p, m, env);
    if k == 0 {
      EnterRuns(ops, n, code, pos, p, m, env);
      s, m' := 1, m;
    } else {
      var c := Interp(ops, Config(0, env), k - 1).state;
      var s0, m0 := RunSimulates(ops, n, code, pos, p, m, env, k - 1);
      var ds, dm := StepSimulates(ops, n, code, pos, p, c, m0);
      RunAdd(code, MConfig(0, m), s0, MConfig(pos[c.pc], m0), ds);
      s, m' := s0 + ds, dm;
      Ahead(|ops| + 1, s0, ds, c.pc, Interp1(ops, c).state.pc, k);
    }
  }

  lemma EnterOk(ops: seq<Op>, n: nat, code: seq<Instr>, pos: seq<int>, p: Plan, m: Machine, env: Env)
    requires OpsOk(ops, n) && Compiled(ops, n, code, pos, p) && |env| == n && EntryOk(m, env)
    ensures CodeOk(code, n) && |m.frame| == n && |m.regs| == NREGS && |pos| == |ops| + 1 && Body(pos, |ops|) == |code|
  {
    hide PlanOk, LandingsOk, CodeOk;
  }

  lemma Ahead(l: nat, s: nat, ds: nat, pc: nat, pc': nat, k: nat)
    requires l * s + pc >= k - 1 && pc <= l - 1 && (ds == 0 ==> pc' == pc + 1)
    ensures l * (s + ds) + pc' >= k
  {
    if ds > 0 { assert l * (s + ds) == l * s + l * ds && l * ds >= l; }
  }

  /** The compiled code of a return leaves the returned value in EAX. */
  lemma ReturnRuns(ops: seq<Op>, n: nat, code: seq<Instr>, pos: seq<int>, p: Plan, c: Config, m: Machine)
    returns (s: nat, m': Machine)
    requires Ready(ops, n, code, pos, p, c, m) && c.pc < |ops| && ops[c.pc].ORet? && ops[c.pc].src < n
    ensures CodeOk(code, n) && |m.frame| == n && |m.regs| == NREGS
    ensures AtRet(code, MRun(code, MConfig(pos[c.pc], m), s), c.env[ops[c.pc].src])
  {
    hide Sim, SimAt, Exec, Straight, Effect, CodeOk, RetOk, AllStraight, PlanOk, LandingsOk, Compiled, LabelRule, PlacedAt, MRun, Exec1, Body;
    var h, m1 := Arrive(ops, n, code, pos, p, c, m);
    ReadyOk(ops, n, code, pos, p, c, m1);
    var j, seg := c.pc, p.segs[c.pc];
    var body := seg[..|seg| - 1];
    LastOf(code, Body(pos, j), pos[j + 1], seg);
    RetRuns(p.cur[j], body, n, ops[j].src, m1, c.env);
    RunPlaced(code, Body(pos, j), pos[j + 1] - 1, m1, body);
    RunAdd(code, MConfig(pos[j], m), h, MConfig(Body(pos, j), m1), |body|);
    s, m' := h + |body|, Exec(m1, body);
  }

  /** If the bytecode returns a value, the compiled code returns it. */
  lemma ReturnsForward(ops: seq<Op>, n: nat, code: seq<Instr>, pos: seq<int>, p: Plan, m: Machine, env: Env, v: Word)
    requires OpsOk(ops, n) && Compiled(ops, n, code, pos, p) && LabelRule(ops) && |env| == n && EntryOk(m, env)
    requires InterpReturns(ops, env, v)
    ensures CodeOk(code, |m.frame|) && |m.regs| == NREGS && MachineReturns(code, m, v)
  {
    hide Compiled, LabelRule, EntryOk, Interp, MRun, Ready, OpsOk;
    EnterOk(ops, n, code, pos, p, m, env);
    var k: nat :| AtReturn(ops, n, Interp(ops, Config(0, env), k), v);
    var c := Interp(ops, Config(0, env), k).state;
    var s, m1 := RunSimulates(ops, n, code, pos, p, m, env, k);
    var s', _ := ReturnRuns(ops, n, code, pos, p, c, m1);
    RunAdd(code, MConfig(0, m), s, MConfig(pos[c.pc], m1), s');
    assert AtRet(code, MRun(code, MConfig(0, m), s + s'), v);
  }

  /** Where an interpreted run ends, if it ends within `k` steps. */
  lemma {:induction false} LastConfig(ops: seq<Op>, c: Config, k: nat) returns (i: nat)
    requires OpsOk(ops, |c.env|) && c.pc <= |ops| && Interp(ops, c, k).Halted?
    ensures i < k && Interp(ops, c, i).At? && Interp1(ops, Interp(ops, c, i).state).Halted?
  {
    hide Interp1;
    i := k - 1;
    if Interp(ops, c, i).Halted? { i := LastConfig(ops, c, i); }
  }

  /** If the compiled code returns a value, the bytecode returns it: in particular a loop of the
      bytecode is a loop of the compiled code. */
  lemma ReturnsBackward(ops: seq<Op>, n: nat, code: seq<Instr>, pos: seq<int>, p: Plan, m: Machine, env: Env, v: Word)
    requires OpsOk(ops, n) && Compiled(ops, n, code, pos, p) && LabelRule(ops) && |env| == n && EntryOk(m, env)
    requires CodeOk(code, |m.frame|) && |m.regs| == NREGS && MachineReturns(code, m, v)
    ensures InterpReturns(ops, env, v)
  {
    hide Compiled, LabelRule, EntryOk, Interp, MRun, Ready, OpsOk, Effect;
    EnterOk(ops, n, code, pos, p, m, env);
    var start := MConfig(0, m);
    var r: nat :| AtRet(code, MRun(code, start, r), v);
    var bound := (|ops| + 1) * (r + 1) + |ops|;
    if Interp(ops, Config(0, env), bound).At? {
      var s, m1 := RunSimulates(ops, n, code, pos, p, m, env, bound);
      StopsOnce(code, start, r, s);
      Behind(|ops| + 1, s, r, |ops|, Interp(ops, Config(0, env), bound).state.pc);
    }
    var i := LastConfig(ops, Config(0, env), bound);
    var c := Interp(ops, Config(0, env), i).state;
    var s, m1 := RunSimulates(ops, n, code, pos, p, m, env, i);
    EndsAtReturn(ops, n, code, pos, p, m, c, s, m1, r, v);
    assert AtReturn(ops, n, Interp(ops, Config(0, env), i), v);
  }

  lemma Behind(l: nat, s: nat, r: nat, len: nat, pc: nat)
    requires s <= r && pc <= len && l > 0
    ensures l * s + pc < l * (r + 1) + len
  {
    assert l * (r + 1) == l * s + l * (r + 1 - s);
    assert l * (r + 1 - s) >= l;
  }

  /** The interpreter stopped at `c` while the machine returned v: `c` is a return of v. */
  lemma EndsAtReturn(ops: seq<Op>, n: nat, code: seq<Instr>, pos: seq<int>, p: Plan, m: Machine, c: Config,
                     s: nat, m1: Machine, r: nat, v: Word)
    requires |m.frame| == n && |m.regs| == NREGS && CodeOk(code, n) && Ready(ops, n, code, pos, p, c, m1)
    requires |pos| == |ops| + 1 && Body(pos, |ops|) == |code|
    requires MRun(code, MConfig(0, m), s) == At(MConfig(pos[c.pc], m1))
    requires AtRet(code, MRun(code, MConfig(0, m), r), v)
    requires Interp1(ops, c).Halted?
    ensures AtReturn(ops, n, At(c), v)
  {
    hide Compiled, LabelRule, Interp, MRun, Effect, CodeOk, SimAt;
    var start := MConfig(0, m);
    if c.pc < |ops| {
      var s', _ := ReturnRuns(ops, n, code, pos, p, c, m1);
      RunAdd(code, start, s, MConfig(pos[c.pc], m1), s');
      StopsOnce(code, start, r, s + s');
    } else {
      var h, m2 := Arrive(ops, n, code, pos, p, c, m1);
      RunAdd(code, start, s, MConfig(pos[c.pc], m1), h);
      StopsOnce(code, start, r, s + h);
      assert false;
    }
  }

  /** Compiled code returns exactly what the bytecode returns, for every input and every machine state
      that holds it: same values, and no return where the bytecode has none. */
  lemma CompiledReturnsIff(ops: seq<Op>, n: nat, code: seq<Instr>, pos: seq<int>, p: Plan, m: Machine, env: Env, v: Word)
    requires OpsOk(ops, n) && Compiled(ops, n, code, pos, p) && LabelRule(ops) && |env| == n && EntryOk(m, env)
    ensures CodeOk(code, |m.frame|) && |m.regs| == NREGS
    ensures InterpReturns(ops, env, v) <==> MachineReturns(code, m, v)
  {
    hide InterpReturns, MachineReturns, Compiled, LabelRule, EntryOk, OpsOk;
    EnterOk(ops, n, code, pos, p, m, env);
    if InterpReturns(ops, env, v) { ReturnsForward(ops, n, code, pos, p, m, env, v); }
    if MachineReturns(code, m, v) { ReturnsBackward(ops, n, code, pos, p, m, env, v); }
  }
}
