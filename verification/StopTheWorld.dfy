/** The stop-the-world protocol as interleaved steps of any number of threads: the global lock,
    the per-thread blocking counters and the stopping flag, one access to shared memory a step,
    under sequential consistency. */
module StopTheWorld {

  /** What a thread goes back to when it has released the global lock. */
  datatype Ret = ToMutator | ToBlocked(depth: nat) | ToOutside | ToRegistered | ToUnregistered

  datatype Pc =
    | Outside                    // not registered
    | Mutator                    // running HL code
    | InBlocking(depth: nat)     // inside hl_blocking scopes, not touching the heap
    | SafeRead                   // safepoint: about to read the stopping flag
    | UnblockRead                // left the last blocking scope, about to read the stopping flag
    | WantsLock(ret: Ret)        // gc_global_lock(true): about to count itself as blocking
    | Waiting(ret: Ret)          // counted, waiting for the mutex
    | Holding(ret: Ret)          // in the critical section
    | Stopping(ret: Ret, next: nat)  // gc_stop_world(true): the flag is set, next thread to wait for
    | Collecting(ret: Ret)       // between the two gc_stop_world calls
    | Releasing(ret: Ret)        // counted as running again, about to release the mutex

  datatype Thread = Thread(pc: Pc, blocking: nat)

  datatype Lock = Free | HeldBy(owner: nat)

  datatype State = State(threads: seq<Thread>, registered: seq<nat>, stopping: bool, lock: Lock)

  datatype Label =
    | EnterBlocking | LeaveBlocking | ReadUnblock | Safepoint | ReadSafepoint
    | Want | Count | Acquire | Register | Unregister | Stop | PassOne | PassedAll | Resume | Uncount | Release

  function Base(r: Ret): nat { if r.ToBlocked? then r.depth else 0 }

  function Put(s: State, t: nat, th: Thread): State
    requires t < |s.threads|
  {
    s.(threads := s.threads[t := th])
  }

  ghost predicate Enabled(s: State, t: nat, l: Label) {
    t < |s.threads| &&
    var th := s.threads[t];
    match l
    case EnterBlocking => th.pc == Mutator || th.pc.InBlocking?
    case LeaveBlocking => th.pc.InBlocking?
    case ReadUnblock => th.pc == UnblockRead
    case Safepoint => th.pc == Mutator
    case ReadSafepoint => th.pc == SafeRead
    case Want => th.pc == Mutator || th.pc.InBlocking? || th.pc == Outside
    case Count => th.pc.WantsLock?
    case Acquire => th.pc.Waiting? && s.lock == Free
    case Register => th.pc == Holding(ToRegistered) && t !in s.registered
    case Unregister => th.pc == Holding(ToUnregistered)
    case Stop => th.pc.Holding? && (th.pc.ret == ToMutator || th.pc.ret.ToBlocked?)
    case PassOne => th.pc.Stopping? && th.pc.next < |s.registered| &&
                    s.registered[th.pc.next] < |s.threads| && s.threads[s.registered[th.pc.next]].blocking > 0
    case PassedAll => th.pc.Stopping? && th.pc.next == |s.registered|
    case Resume => th.pc.Collecting?
    case Uncount => th.pc.Holding? && th.blocking > 0 && th.pc.ret != ToUnregistered && (th.pc.ret == ToRegistered ==> t in s.registered)
    case Release => th.pc.Releasing?
  }

  /** The state after thread t takes step l. `other` chooses why a thread wants the lock: a mutator
      to allocate or to unregister, an outside thread to register or to add a root first. */
  ghost function Do(s: State, t: nat, l: Label, other: bool): State
    requires Enabled(s, t, l)
  {
    var th := s.threads[t];
    match l
    case EnterBlocking => Put(s, t, Thread(InBlocking(th.blocking + 1), th.blocking + 1))
    case LeaveBlocking =>
      if th.blocking > 1 then Put(s, t, Thread(InBlocking(th.blocking - 1), th.blocking - 1)) else Put(s, t, Thread(UnblockRead, 0))
    case ReadUnblock => Put(s, t, th.(pc := if s.stopping then WantsLock(ToMutator) else Mutator))
    case Safepoint => Put(s, t, th.(pc := SafeRead))
    case ReadSafepoint => Put(s, t, th.(pc := if s.stopping then WantsLock(ToMutator) else Mutator))
    case Want =>
      var ret := match th.pc
                 case Outside => if other then ToOutside else ToRegistered
                 case InBlocking(d) => ToBlocked(d)
                 case _ => if other then ToUnregistered else ToMutator;
      Put(s, t, th.(pc := WantsLock(ret)))
    case Count => Put(s, t, Thread(Waiting(th.pc.ret), th.blocking + 1))
    case Acquire => Put(s, t, th.(pc := Holding(th.pc.ret))).(lock := HeldBy(t))
    case Register => s.(registered := s.registered + [t])
    case Unregister => Put(s, t, Thread(Releasing(ToUnregistered), 0)).(registered := Without(s.registered, t))
    case Stop => Put(s, t, th.(pc := Stopping(th.pc.ret, 0))).(stopping := true)
    case PassOne => Put(s, t, th.(pc := Stopping(th.pc.ret, th.pc.next + 1)))
    case PassedAll => Put(s, t, th.(pc := Collecting(th.pc.ret)))
    case Resume => Put(s, t, th.(pc := Holding(th.pc.ret))).(stopping := false)
    case Uncount => Put(s, t, Thread(Releasing(th.pc.ret), th.blocking - 1))
    case Release =>
      var pc := match th.pc.ret
                case ToMutator => Mutator
                case ToRegistered => Mutator
                case ToBlocked(d) => InBlocking(d)
                case _ => Outside;
      Put(s, t, th.(pc := pc)).(lock := Free)
  }

  function Without(r: seq<nat>, t: nat): seq<nat> {
    if r == [] then [] else if r[0] == t then r[1..] else [r[0]] + Without(r[1..], t)
  }

  ghost predicate Next(s: State, s': State) {
    exists t, l, u :: Enabled(s, t, l) && s' == Do(s, t, l, u)
  }

  // ---- invariant

  ghost predicate RetOk(s: State, t: nat, pc: Pc, r: Ret) {
    match r
    case ToMutator => t in s.registered
    case ToBlocked(d) => d > 0 && t in s.registered
    case ToOutside => t !in s.registered
    case ToRegistered => if pc.Holding? then true else if pc.Releasing? then t in s.registered else t !in s.registered
    case ToUnregistered => if pc.Releasing? then t !in s.registered else t in s.registered
  }

  ghost predicate ThreadOk(s: State, t: nat)
    requires t < |s.threads|
  {
    var th := s.threads[t];
    match th.pc
    case Outside => th.blocking == 0 && t !in s.registered
    case InBlocking(d) => th.blocking == d > 0 && t in s.registered
    case WantsLock(r) => th.blocking == Base(r) && RetOk(s, t, th.pc, r)
    case Waiting(r) => th.blocking == Base(r) + 1 && RetOk(s, t, th.pc, r)
    case Holding(r) => th.blocking == Base(r) + 1 && RetOk(s, t, th.pc, r)
    case Stopping(r, _) => th.blocking == Base(r) + 1 && (r == ToMutator || r.ToBlocked?) && RetOk(s, t, th.pc, r)
    case Collecting(r) => th.blocking == Base(r) + 1 && (r == ToMutator || r.ToBlocked?) && RetOk(s, t, th.pc, r)
    case Releasing(r) => th.blocking == Base(r) && RetOk(s, t, th.pc, r)
    case _ => th.blocking == 0 && t in s.registered
  }

  predicate Critical(pc: Pc) { pc.Holding? || pc.Stopping? || pc.Collecting? || pc.Releasing? }

  predicate StopsWorld(pc: Pc) { pc.Stopping? || pc.Collecting? }

  /** A thread that cannot get back to mutator code while the stopping flag is set and the lock held. */
  predicate StopSafe(th: Thread) {
    th.pc.InBlocking? || th.pc == UnblockRead || th.pc.WantsLock? || th.pc.Waiting?
  }

  /** The threads the collector has waited for so far. */
  ghost predicate Passed(s: State, o: nat, n: int) {
    n <= |s.registered| &&
    forall j :: 0 <= j < n && s.registered[j] != o && s.registered[j] < |s.threads| ==> StopSafe(s.threads[s.registered[j]])
  }

  ghost predicate Inv(s: State) {
    && (forall i :: 0 <= i < |s.registered| ==> s.registered[i] < |s.threads|)
    && (forall i, j :: 0 <= i < j < |s.registered| ==> s.registered[i] != s.registered[j])
    && (forall t :: 0 <= t < |s.threads| ==> ThreadOk(s, t))
    && (forall t :: 0 <= t < |s.threads| ==> (Critical(s.threads[t].pc) <==> s.lock == HeldBy(t)))
    && (s.lock.HeldBy? ==> s.lock.owner < |s.threads|)
    && (s.stopping <==> s.lock.HeldBy? && StopsWorld(s.threads[s.lock.owner].pc))
    && (s.lock.HeldBy? ==>
          match s.threads[s.lock.owner].pc
          case Stopping(_, n) => Passed(s, s.lock.owner, n)
          case Collecting(_) => Passed(s, s.lock.owner, |s.registered|)
          case _ => true)
  }

  lemma {:induction false} WithoutProps(r: seq<nat>, t: nat)
    requires forall i, j :: 0 <= i < j < |r| ==> r[i] != r[j]
    ensures forall x :: x in Without(r, t) <==> x in r && x != t
    ensures forall i, j :: 0 <= i < j < |Without(r, t)| ==> Without(r, t)[i] != Without(r, t)[j]
  {
    if r != [] && r[0] != t {
      WithoutProps(r[1..], t);
      assert forall x :: x in r <==> x == r[0] || x in r[1..];
      assert r[0] !in r[1..];
    }
  }

  /** Steps that leave the lock, the flag and the register of threads alone. */
  lemma PlainStep(s: State, t: nat, th: Thread)
    requires Inv(s) && t < |s.threads| && ThreadOk(Put(s, t, th), t)
    requires !Critical(s.threads[t].pc) && !Critical(th.pc)
    requires s.stopping && StopSafe(s.threads[t]) ==> StopSafe(th)
    ensures Inv(Put(s, t, th))
  {
    var s' := Put(s, t, th);
    forall x | 0 <= x < |s.threads| ensures ThreadOk(s', x) { assert ThreadOk(s, x); }
  }

  /** Steps of the thread that holds the lock and keeps it. */
  lemma OwnerStep(s: State, s': State, t: nat)
    requires Inv(s) && t < |s.threads| && s.lock == HeldBy(t)
    requires |s'.threads| == |s.threads| && s' == Put(s, t, s'.threads[t]).(stopping := s'.stopping)
    requires Critical(s'.threads[t].pc) && ThreadOk(s', t)
    requires s'.stopping == StopsWorld(s'.threads[t].pc)
    requires match s'.threads[t].pc case Stopping(_, n) => Passed(s, t, n) case Collecting(_) => Passed(s, t, |s.registered|) case _ => true
    ensures Inv(s')
  {
    forall x | 0 <= x < |s.threads| ensures ThreadOk(s', x) { assert ThreadOk(s, x); }
  }

  lemma AcquireKeeps(s: State, t: nat, u: bool)
    requires Inv(s) && Enabled(s, t, Acquire)
    ensures Inv(Do(s, t, Acquire, u))
  {
    var s' := Do(s, t, Acquire, u);
    forall x | 0 <= x < |s.threads| ensures ThreadOk(s', x) { assert ThreadOk(s, x); }
  }

  lemma ReleaseKeeps(s: State, t: nat, u: bool)
    requires Inv(s) && Enabled(s, t, Release)
    ensures Inv(Do(s, t, Release, u))
  {
    var s' := Do(s, t, Release, u);
    assert ThreadOk(s, t) && s.lock == HeldBy(t);
    forall x | 0 <= x < |s.threads| ensures ThreadOk(s', x) { assert ThreadOk(s, x); }
  }

  lemma RegisterKeeps(s: State, t: nat, u: bool)
    requires Inv(s) && Enabled(s, t, Register)
    ensures Inv(Do(s, t, Register, u))
  {
    var s' := Do(s, t, Register, u);
    assert ThreadOk(s, t) && s.lock == HeldBy(t);
    forall x | 0 <= x < |s.threads| ensures ThreadOk(s', x) {
      assert ThreadOk(s, x);
      assert x in s'.registered <==> x in s.registered || x == t;
    }
  }

  lemma UnregisterKeeps(s: State, t: nat, u: bool)
    requires Inv(s) && Enabled(s, t, Unregister)
    ensures Inv(Do(s, t, Unregister, u))
  {
    var s' := Do(s, t, Unregister, u);
    assert ThreadOk(s, t) && s.lock == HeldBy(t);
    WithoutProps(s.registered, t);
    forall x | 0 <= x < |s.threads| ensures ThreadOk(s', x) { assert ThreadOk(s, x); }
    forall i | 0 <= i < |s'.registered| ensures s'.registered[i] < |s'.threads| { assert s'.registered[i] in s.registered; }
  }

  /** The thread the collector has just seen counted as blocking cannot get back to HL code. */
  lemma CountedIsSafe(s: State, o: nat, v: nat)
    requires Inv(s) && s.lock == HeldBy(o) && v < |s.threads| && v != o && s.threads[v].blocking > 0
    ensures StopSafe(s.threads[v])
  {
    assert ThreadOk(s, v);
  }

  lemma PassOneKeeps(s: State, t: nat, u: bool)
    requires Inv(s) && Enabled(s, t, PassOne)
    ensures Inv(Do(s, t, PassOne, u))
  {
    var n := s.threads[t].pc.next;
    assert ThreadOk(s, t) && s.lock == HeldBy(t);
    var v := s.registered[n];
    if v != t { CountedIsSafe(s, t, v); }
    OwnerStep(s, Do(s, t, PassOne, u), t);
  }

  lemma OwnThreadOk(s: State, t: nat)
    requires Inv(s) && t < |s.threads|
    ensures ThreadOk(s, t) && (Critical(s.threads[t].pc) <==> s.lock == HeldBy(t))
    ensures s.threads[t].pc.Stopping? ==> Passed(s, t, s.threads[t].pc.next)
    ensures Critical(s.threads[t].pc) ==> (s.stopping <==> StopsWorld(s.threads[t].pc))
  {
  }

  lemma OwnerKeeps(s: State, t: nat, l: Label, u: bool)
    requires Inv(s) && Enabled(s, t, l) && (l.Stop? || l.PassedAll? || l.Resume? || l.Uncount?)
    ensures Inv(Do(s, t, l, u))
  {
    hide Inv;
    OwnThreadOk(s, t);
    OwnerStep(s, Do(s, t, l, u), t);
  }

  lemma PlainKeeps(s: State, t: nat, l: Label, u: bool)
    requires Inv(s) && Enabled(s, t, l)
    requires l.EnterBlocking? || l.LeaveBlocking? || l.ReadUnblock? || l.Safepoint? || l.ReadSafepoint? || l.Want? || l.Count?
    ensures Inv(Do(s, t, l, u))
  {
    hide Inv;
    OwnThreadOk(s, t);
    var s' := Do(s, t, l, u);
    assert s' == Put(s, t, s'.threads[t]);
    PlainStep(s, t, s'.threads[t]);
  }

  lemma StepKeepsInv(s: State, s': State)
    requires Inv(s) && Next(s, s')
    ensures Inv(s')
  {
    hide Inv, Do, Enabled;
    var t, l, u :| Enabled(s, t, l) && s' == Do(s, t, l, u);
    match l {
      case Acquire => AcquireKeeps(s, t, u);
      case Release => ReleaseKeeps(s, t, u);
      case Register => RegisterKeeps(s, t, u);
      case Unregister => UnregisterKeeps(s, t, u);
      case PassOne => PassOneKeeps(s, t, u);
      case Stop => OwnerKeeps(s, t, l, u);
      case PassedAll => OwnerKeeps(s, t, l, u);
      case Resume => OwnerKeeps(s, t, l, u);
      case Uncount => OwnerKeeps(s, t, l, u);
      case _ => PlainKeeps(s, t, l, u);
    }
  }

  // ---- what the protocol guarantees

  ghost predicate Run(run: seq<State>) {
    && |run| > 0
    && run[0].registered == [] && !run[0].stopping && run[0].lock == Free
    && (forall t :: 0 <= t < |run[0].threads| ==> run[0].threads[t] == Thread(Outside, 0))
    && forall i :: 0 <= i < |run| - 1 ==> Next(run[i], run[i + 1])
  }

  lemma {:induction false} RunKeepsInv(run: seq<State>, k: nat)
    requires Run(run) && k < |run|
    ensures Inv(run[k])
  {
    if k > 0 {
      RunKeepsInv(run, k - 1);
      hide Inv, Next;
      StepKeepsInv(run[k - 1], run[k]);
    }
  }

  /** Main result: in every state of every run in which some thread is between the two
      gc_stop_world calls, that thread alone holds the lock, and no other registered thread runs
      HL code or can get back to it without the lock. */
  lemma WorldIsStopped(run: seq<State>, k: nat, o: nat, v: nat)
    requires Run(run) && k < |run| && o < |run[k].threads| && run[k].threads[o].pc.Collecting?
    requires v in run[k].registered && v != o
    ensures v < |run[k].threads| && run[k].threads[v].pc != Mutator && StopSafe(run[k].threads[v])
    ensures run[k].stopping && run[k].lock == HeldBy(o)
  {
    RunKeepsInv(run, k);
    var s := run[k];
    var j :| 0 <= j < |s.registered| && s.registered[j] == v;
  }

  /** A thread that waits for the global lock is counted as blocking, so the collector never spins on
      a thread that waits for the collector. */
  lemma WaitersAreCounted(run: seq<State>, k: nat, v: nat)
    requires Run(run) && k < |run| && v < |run[k].threads| && run[k].threads[v].pc.Waiting?
    ensures run[k].threads[v].blocking > 0
  {
    RunKeepsInv(run, k);
    assert ThreadOk(run[k], v);
  }

  /** How far a thread that is not in HL code is from being counted. */
  function Distance(pc: Pc): nat {
    match pc
    case SafeRead => 2
    case UnblockRead => 2
    case WantsLock(_) => 1
    case _ => 0
  }

  /** The thread the collector spins on is not the collector, can always move, and every move of it
      outside HL code brings it closer to being counted: the flag sends it to the lock. */
  lemma SpunOnThreadMoves(run: seq<State>, k: nat, o: nat)
    requires Run(run) && k < |run| && o < |run[k].threads| && run[k].threads[o].pc.Stopping?
    requires run[k].threads[o].pc.next < |run[k].registered| && !Enabled(run[k], o, PassOne)
    ensures var s := run[k];
            var v := s.registered[s.threads[o].pc.next];
            && v != o && v < |s.threads| && s.threads[v].blocking == 0
            && (exists l :: Enabled(s, v, l))
            && (s.threads[v].pc != Mutator ==>
                  forall l, u :: Enabled(s, v, l) ==>
                    var th := Do(s, v, l, u).threads[v];
                    th.blocking > 0 || Distance(th.pc) < Distance(s.threads[v].pc))
  {
    RunKeepsInv(run, k);
    var s := run[k];
    var v := s.registered[s.threads[o].pc.next];
    assert ThreadOk(s, o) && ThreadOk(s, v);
    assert v in s.registered;
    match s.threads[v].pc {
      case Mutator => assert Enabled(s, v, Safepoint);
      case SafeRead => assert Enabled(s, v, ReadSafepoint);
      case UnblockRead => assert Enabled(s, v, ReadUnblock);
      case WantsLock(_) => assert Enabled(s, v, Count);
    }
  }

  /** The protocol never deadlocks: while there is a thread, some thread can take a step. */
  lemma SomeoneMoves(run: seq<State>, k: nat)
    requires Run(run) && k < |run| && |run[k].threads| > 0
    ensures exists t, l :: Enabled(run[k], t, l)
  {
    RunKeepsInv(run, k);
    var s := run[k];
    var t := if s.lock.HeldBy? then s.lock.owner else 0;
    assert ThreadOk(s, t);
    match s.threads[t].pc {
      case Outside => assert Enabled(s, t, Want);
      case Mutator => assert Enabled(s, t, Safepoint);
      case InBlocking(_) => assert Enabled(s, t, EnterBlocking);
      case SafeRead => assert Enabled(s, t, ReadSafepoint);
      case UnblockRead => assert Enabled(s, t, ReadUnblock);
      case WantsLock(_) => assert Enabled(s, t, Count);
      case Waiting(_) => assert Enabled(s, t, Acquire);
      case Holding(r) =>
        assert Enabled(s, t, if r == ToUnregistered then Unregister else if r == ToRegistered && t !in s.registered then Register else Uncount);
      case Stopping(_, n) =>
        if n < |s.registered| && !Enabled(s, t, PassOne) {
          SpunOnThreadMoves(run, k, t);
          var l :| Enabled(s, s.registered[n], l);
          assert Enabled(s, s.registered[n], l);
        } else {
          assert Enabled(s, t, if n < |s.registered| then PassOne else PassedAll);
        }
      case Collecting(_) => assert Enabled(s, t, Resume);
      case Releasing(_) => assert Enabled(s, t, Release);
    }
  }

  // ---- nested blocking scopes

  /** Thread t takes step l. */
  datatype Move = Move(t: nat, l: Label, other: bool)

  ghost predicate Leads(s: State, moves: seq<Move>, s': State)
    decreases |moves|
  {
    if moves == [] then s' == s
    else Enabled(s, moves[0].t, moves[0].l) && Leads(Do(s, moves[0].t, moves[0].l, moves[0].other), moves[1..], s')
  }

  /** Scopes that t entered minus scopes that it left. */
  function Net(moves: seq<Move>, t: nat): int {
    if moves == [] then 0
    else (if moves[0].t != t then 0 else if moves[0].l.EnterBlocking? then 1 else -1) + Net(moves[1..], t)
  }

  ghost predicate OnlyScopes(moves: seq<Move>, t: nat) {
    forall k :: 0 <= k < |moves| && moves[k].t == t ==> moves[k].l.EnterBlocking? || moves[k].l.LeaveBlocking?
  }

  /** HL code, or a number of open scopes. */
  predicate InScopes(th: Thread) {
    th.pc == (if th.blocking > 0 then InBlocking(th.blocking) else Mutator)
  }

  /** Where a thread is when it has left its last scope. */
  predicate OutOfScopes(th: Thread) { th.pc == UnblockRead && th.blocking == 0 }

  lemma OthersDoNotMove(s: State, t: nat, m: Move)
    requires Enabled(s, m.t, m.l) && m.t != t && t < |s.threads|
    ensures var s' := Do(s, m.t, m.l, m.other); |s'.threads| == |s.threads| && s'.threads[t] == s.threads[t]
  {
    hide Without, Base;
  }

  /** Whatever the other threads do meanwhile, a thread that only enters and leaves scopes counts exactly
      the scopes it has open; once the count is back at zero it is about to read the stopping flag. */
  lemma {:induction false} ScopesAreCounted(s: State, moves: seq<Move>, s': State, t: nat)
    requires t < |s.threads| && (InScopes(s.threads[t]) || OutOfScopes(s.threads[t]))
    requires Leads(s, moves, s') && OnlyScopes(moves, t)
    ensures t < |s'.threads|
    ensures s'.threads[t].blocking == s.threads[t].blocking + Net(moves, t)
    ensures InScopes(s'.threads[t]) || OutOfScopes(s'.threads[t])
    ensures s'.threads[t].blocking == 0 && s'.threads[t].pc == Mutator ==> s'.threads[t] == s.threads[t]
    decreases |moves|
  {
    if moves != [] {
      var m := moves[0];
      var s1 := Do(s, m.t, m.l, m.other);
      if m.t != t { OthersDoNotMove(s, t, m); } else { assert m.l.EnterBlocking? || m.l.LeaveBlocking?; }
      ScopesAreCounted(s1, moves[1..], s', t);
    }
  }

  /** As many scopes left as entered: a thread that was inside scopes is where it was; one that ran HL
      code and has entered a scope goes on with it if the flag is clear, and waits for the lock if not. */
  lemma BalancedScopes(s: State, moves: seq<Move>, s': State, t: nat, other: bool)
    requires t < |s.threads| && InScopes(s.threads[t])
    requires Leads(s, moves, s') && OnlyScopes(moves, t) && Net(moves, t) == 0
    ensures t < |s'.threads|
    ensures s.threads[t].pc != Mutator ==> s'.threads[t] == s.threads[t]
    ensures s.threads[t].pc == Mutator && s'.threads[t] != s.threads[t] ==>
              Enabled(s', t, ReadUnblock) &&
              Do(s', t, ReadUnblock, other).threads[t].pc == if s'.stopping then WantsLock(ToMutator) else Mutator
  {
    ScopesAreCounted(s, moves, s', t);
  }
}
