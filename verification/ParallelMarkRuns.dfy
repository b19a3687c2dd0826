/** Runs of the parallel marker: who owns what, that the collector's wait ends exactly when the
    marking is complete, that some thread can always move, and that every run ends. */
module ParallelMarkRuns {
  import opened HeapGraph
  import opened ParallelMark

  // ---- ownership

  ghost predicate SendsTo(ag: Agent, i: int) { ag.disp.Sending? && ag.disp.next == i }

  /** Marker i has been claimed by someone who has still to wake it. */
  ghost predicate Owed(s: State, i: int)
    requires s.agents != []
  {
    || (exists a :: 0 <= a < |s.agents| && SendsTo(s.agents[a], i))
    || (s.agents[N(s)].pc == Distributing && s.agents[N(s)].disp != Idle && i < s.agents[N(s)].disp.next)
    || (s.agents[N(s)].pc.Releasing? && s.agents[N(s)].pc.next <= i)
  }

  ghost predicate Unclaimed(ag: Agent) { ag.pc != Running && ag.ready == 0 && ag.stack == [] }

  ghost predicate WorkerOk(s: State, i: int)
    requires 0 <= i < |s.agents|
  {
    var ag := s.agents[i];
    && (ag.pc == Waiting || ag.pc == Running || ag.pc == Retired)
    && (ag.pc != Running ==> ag.hand == Empty && ag.disp == Idle)
    && (ag.pc == Running ==> i in s.active && ag.ready == 0)
    && (i !in s.active ==> Unclaimed(ag))
    && ag.ready <= 1
    && (i in s.active && ag.pc != Running && ag.ready == 0 ==> Owed(s, i))
  }

  ghost predicate MasterOk(s: State)
    requires s.agents != []
  {
    var n := N(s);
    var ag := s.agents[n];
    match ag.pc
    case Running => true
    case Distributing =>
      && ag.hand == Empty && ag.disp != Idle && ag.disp.next <= n
      && |ag.stack| <= ag.disp.count * (n - ag.disp.next)
      && (forall i :: 0 <= i < n ==>
            && s.agents[i].pc != Running && s.agents[i].ready == 0
            && (i in s.active <==> i < ag.disp.next || (i == ag.disp.next && ag.disp.Sending?)))
    case Releasing(j) =>
      && j <= n && ag.hand == Empty && ag.disp == Idle && ag.stack == []
      && (forall i :: j <= i < n ==> i in s.active && s.agents[i].pc != Running && s.agents[i].ready == 0)
    case Checking => ag.hand == Empty && ag.disp == Idle && ag.stack == []
    case Blocked =>
      && ag.hand == Empty && ag.disp == Idle && ag.stack == []
      && (s.done > 0 || s.active != {} || exists i :: 0 <= i < n && s.agents[i].pc == Retired)
    case Finished => ag.hand == Empty && ag.disp == Idle && ag.stack == [] && s.active == {}
    case _ => false
  }

  /** Who dispatches, and to whom: a marker being sent to is claimed, asleep and owned by one sender. */
  ghost predicate SenderOk(s: State, a: int)
    requires 0 <= a < |s.agents|
  {
    var ag := s.agents[a];
    && (ag.disp != Idle ==> ag.disp.next <= N(s) && ((ag.pc == Running && ag.hand.Popped?) || (a == N(s) && ag.pc == Distributing)))
    && (ag.disp.Sending? ==>
          var i := ag.disp.next;
          && i < N(s) && i != a && i in s.active && Unclaimed(s.agents[i])
          && (forall a' :: 0 <= a' < |s.agents| && a' != a ==> !SendsTo(s.agents[a'], i))
          && !(s.agents[N(s)].pc.Releasing? && s.agents[N(s)].pc.next <= i))
  }

  ghost predicate CtlInv(s: State) {
    && |s.agents| > 1
    && (forall i :: i in s.active ==> i < N(s))
    && (forall i :: 0 <= i < N(s) ==> WorkerOk(s, i))
    && (forall a :: 0 <= a < |s.agents| ==> SenderOk(s, a))
    && MasterOk(s)
  }

  /** A step of agent a that keeps what it owes keeps what everybody owes. */
  lemma OwedKept(s: State, s': State, a: nat, i: int)
    requires s.agents != [] && a < |s.agents| == |s'.agents| && s'.agents == s.agents[a := s'.agents[a]]
    requires SendsTo(s.agents[a], i) ==> SendsTo(s'.agents[a], i)
    requires a == N(s) && s.agents[a].pc == Distributing && s.agents[a].disp != Idle && i < s.agents[a].disp.next ==> Owed(s', i)
    requires a == N(s) && s.agents[a].pc.Releasing? && s.agents[a].pc.next <= i ==> Owed(s', i)
    requires Owed(s, i)
    ensures Owed(s', i)
  {
    if b :| 0 <= b < |s.agents| && SendsTo(s.agents[b], i) {
      assert SendsTo(s'.agents[b], i);
    }
  }

  /** Steps inside `gc_flush_mark` that touch neither the mask nor another thread. */
  lemma CtlFlush(g: Graph, s: State, a: nat, l: Label)
    requires g.Valid() && CtlInv(s) && Enabled(g, s, a, l)
    requires l.Pop? || l.Begin? || l.StartDispatch? || l.EndDispatch? || l.Follow? || l.Push? || l.EndScan?
    ensures CtlInv(Do(g, s, a, l))
  {
    var s' := Do(g, s, a, l);
    assert SenderOk(s, a);
    assert |s'.agents| == |s.agents| && s'.agents == s.agents[a := s'.agents[a]] && s'.active == s.active && s'.done == s.done;
    CtlPut(s, s', a);
  }

  /** A running agent that neither starts nor stops sending. */
  lemma CtlPut(s: State, s': State, a: nat)
    requires CtlInv(s) && a < |s.agents| == |s'.agents| && s'.agents == s.agents[a := s'.agents[a]]
    requires s'.active == s.active && s'.done == s.done
    requires s'.agents[a].pc == s.agents[a].pc == Running && s'.agents[a].ready == s.agents[a].ready
    requires !s.agents[a].disp.Sending? && !s'.agents[a].disp.Sending?
    requires s'.agents[a].disp != Idle ==> s'.agents[a].disp.next <= N(s) && s'.agents[a].hand.Popped?
    ensures CtlInv(s')
  {
    forall i | 0 <= i < N(s) ensures WorkerOk(s', i) {
      assert WorkerOk(s, i);
      if Owed(s, i) { OwedKept(s, s', a, i); }
    }
    forall b | 0 <= b < |s.agents| ensures SenderOk(s', b) {
      assert SenderOk(s, b);
    }
    RetiredStays(s, s', a);
  }

  lemma RetiredStays(s: State, s': State, a: nat)
    requires |s.agents| == |s'.agents| && s'.agents != [] && forall k :: 0 <= k < |s.agents| && k != a ==> s'.agents[k] == s.agents[k]
    requires a < |s.agents| && (s.agents[a].pc == Retired && a < N(s) ==> s'.agents[a].pc == Retired)
    ensures (exists i :: 0 <= i < N(s) && s.agents[i].pc == Retired) ==> exists i :: 0 <= i < N(s) && s'.agents[i].pc == Retired
  {
    if i :| 0 <= i < N(s) && s.agents[i].pc == Retired {
      assert s'.agents[i].pc == Retired;
    }
  }

  /** The facts about an agent that is dispatching. */
  lemma Dispatcher(s: State, a: nat)
    requires CtlInv(s) && a < |s.agents| && s.agents[a].disp != Idle
    ensures SenderOk(s, a)
    ensures if a < N(s) then s.agents[a].pc == Running && a in s.active
            else a == N(s) && (s.agents[a].pc == Running || s.agents[a].pc == Distributing)
  {
    assert SenderOk(s, a);
    if a < N(s) { assert WorkerOk(s, a); }
  }

  lemma UnclaimedMarker(s: State, i: nat)
    requires CtlInv(s) && i < N(s) && i !in s.active
    ensures Unclaimed(s.agents[i]) && (s.agents[i].pc == Waiting || s.agents[i].pc == Retired)
    ensures forall b :: 0 <= b < |s.agents| ==> !SendsTo(s.agents[b], i)
    ensures !(s.agents[N(s)].pc.Releasing? && s.agents[N(s)].pc.next <= i)
  {
    assert WorkerOk(s, i);
    forall b | 0 <= b < |s.agents| ensures !SendsTo(s.agents[b], i) { assert SenderOk(s, b); }
  }

  lemma CtlTry(g: Graph, s: State, a: nat)
    requires g.Valid() && CtlInv(s) && Enabled(g, s, a, Try)
    ensures CtlInv(Do(g, s, a, Try))
  {
    var s' := Do(g, s, a, Try);
    var i := s.agents[a].disp.next;
    Dispatcher(s, a);
    if i in s.active {
      CtlPut(s, s', a);
    } else {
      UnclaimedMarker(s, i);
      ClaimWorkers(s, s', a, i);
      ClaimSenders(s, s', a, i);
      RetiredStays(s, s', a);
    }
  }

  /** Agent a has set marker i's bit and will send to it. */
  ghost predicate Claims(s: State, s': State, a: nat, i: nat) {
    && CtlInv(s) && a < |s.agents| && i < N(s) && i !in s.active && i != a
    && s.agents[a].disp.Trying? && s.agents[a].disp.next == i
    && s' == s.(agents := s.agents[a := s.agents[a].(disp := Sending(i, s.agents[a].disp.count))], active := s.active + {i})
  }

  lemma ClaimWorkers(s: State, s': State, a: nat, i: nat)
    requires Claims(s, s', a, i)
    ensures forall k :: 0 <= k < N(s) ==> WorkerOk(s', k)
  {
    Dispatcher(s, a);
    assert SendsTo(s'.agents[a], i);
    forall k | 0 <= k < N(s) ensures WorkerOk(s', k) {
      assert WorkerOk(s, k);
      if k != i && Owed(s, k) { OwedKept(s, s', a, k); }
    }
  }

  lemma ClaimSenders(s: State, s': State, a: nat, i: nat)
    requires Claims(s, s', a, i)
    ensures forall b :: 0 <= b < |s.agents| ==> SenderOk(s', b)
  {
    Dispatcher(s, a);
    UnclaimedMarker(s, i);
    forall b | 0 <= b < |s.agents| ensures SenderOk(s', b) {
      assert SenderOk(s, b);
    }
  }

  /** Agent a has sent marker i its share. */
  ghost predicate Sent(s: State, s': State, a: nat, i: nat) {
    && CtlInv(s) && a < |s.agents| && SendsTo(s.agents[a], i) && i < N(s)
    && s'.active == s.active && s'.done == s.done && |s'.agents| == |s.agents|
    && (forall k :: 0 <= k < |s.agents| && k != a && k != i ==> s'.agents[k] == s.agents[k])
    && s'.agents[a] == s.agents[a].(stack := s'.agents[a].stack, disp := Trying(i + 1, s.agents[a].disp.count))
    && s'.agents[i] == s.agents[i].(stack := s'.agents[i].stack,
                                    ready := if s.agents[a].pc == Distributing then s.agents[i].ready else s.agents[i].ready + 1)
    && |s'.agents[a].stack| == |s.agents[a].stack| - Min(s.agents[a].disp.count, |s.agents[a].stack|)
  }

  lemma CtlSend(g: Graph, s: State, a: nat)
    requires g.Valid() && CtlInv(s) && Enabled(g, s, a, Send)
    ensures CtlInv(Do(g, s, a, Send))
  {
    var s' := Do(g, s, a, Send);
    var i := s.agents[a].disp.next;
    Dispatcher(s, a);
    assert Sent(s, s', a, i);
    SentWorkers(s, s', a, i);
    SentSenders(s, s', a, i);
    SentMaster(s, s', a, i);
  }

  lemma SentWorkers(s: State, s': State, a: nat, i: nat)
    requires Sent(s, s', a, i)
    ensures forall k :: 0 <= k < N(s) ==> WorkerOk(s', k)
  {
    Dispatcher(s, a);
    forall k | 0 <= k < N(s) ensures WorkerOk(s', k) {
      assert WorkerOk(s, k);
      if k != i && Owed(s, k) { SentOwed(s, s', a, i, k); }
    }
  }

  lemma SentOwed(s: State, s': State, a: nat, i: nat, k: nat)
    requires Sent(s, s', a, i) && k != i && k < N(s) && Owed(s, k)
    ensures Owed(s', k)
  {
    Dispatcher(s, a);
    if b :| 0 <= b < |s.agents| && SendsTo(s.agents[b], k) {
      assert SendsTo(s'.agents[b], k);
    }
  }

  lemma SentSenders(s: State, s': State, a: nat, i: nat)
    requires Sent(s, s', a, i)
    ensures forall b :: 0 <= b < |s.agents| ==> SenderOk(s', b)
  {
    Dispatcher(s, a);
    forall b | 0 <= b < |s.agents| ensures SenderOk(s', b) {
      assert SenderOk(s, b);
      assert b != a ==> !SendsTo(s.agents[b], i);
    }
  }

  lemma ShareLeft(count: nat, left: nat, len: nat)
    requires left > 0 && len <= count * left
    ensures len - Min(count, len) <= count * (left - 1)
  {
    assert count * left == count * (left - 1) + count;
  }

  lemma SentMaster(s: State, s': State, a: nat, i: nat)
    requires Sent(s, s', a, i)
    ensures MasterOk(s')
  {
    Dispatcher(s, a);
    if s.agents[N(s)].pc == Distributing {
      var ag := s.agents[N(s)];
      ShareLeft(ag.disp.count, N(s) - i, |ag.stack|);
    }
    RetiredStaysTwo(s, s');
  }

  lemma RetiredStaysTwo(s: State, s': State)
    requires |s.agents| == |s'.agents| && s'.agents != [] && forall k :: 0 <= k < |s.agents| ==> s'.agents[k].pc == s.agents[k].pc
    ensures (exists i :: 0 <= i < N(s) && s.agents[i].pc == Retired) ==> exists i :: 0 <= i < N(s) && s'.agents[i].pc == Retired
  {
    if i :| 0 <= i < N(s) && s.agents[i].pc == Retired { assert s'.agents[i].pc == Retired; }
  }

  lemma CtlRetire(g: Graph, s: State, a: nat)
    requires g.Valid() && CtlInv(s) && Enabled(g, s, a, Retire)
    ensures CtlInv(Do(g, s, a, Retire))
  {
    var s' := Do(g, s, a, Retire);
    assert WorkerOk(s, a) && SenderOk(s, a);
    forall k | 0 <= k < N(s) ensures WorkerOk(s', k) {
      assert WorkerOk(s, k);
      if Owed(s, k) { OwedKept(s, s', a, k); }
    }
    forall b | 0 <= b < |s.agents| ensures SenderOk(s', b) {
      assert SenderOk(s, b);
    }
    assert s'.agents[a].pc == Retired;
  }

  lemma CtlReadMask(g: Graph, s: State, a: nat)
    requires g.Valid() && CtlInv(s) && Enabled(g, s, a, ReadMask)
    ensures CtlInv(Do(g, s, a, ReadMask))
  {
    var s' := Do(g, s, a, ReadMask);
    assert WorkerOk(s, a) && SenderOk(s, a);
    forall k | 0 <= k < N(s) ensures WorkerOk(s', k) {
      assert WorkerOk(s, k);
      if Owed(s, k) { OwedKept(s, s', a, k); }
    }
    forall b | 0 <= b < |s.agents| ensures SenderOk(s', b) {
      assert SenderOk(s, b);
    }
  }

  lemma CtlWake(g: Graph, s: State, a: nat)
    requires g.Valid() && CtlInv(s) && Enabled(g, s, a, Wake)
    ensures CtlInv(Do(g, s, a, Wake))
  {
    var s' := Do(g, s, a, Wake);
    assert WorkerOk(s, a) && SenderOk(s, a);
    forall k | 0 <= k < N(s) ensures WorkerOk(s', k) {
      assert WorkerOk(s, k);
      if Owed(s, k) { OwedKept(s, s', a, k); }
    }
    forall b | 0 <= b < |s.agents| ensures SenderOk(s', b) {
      assert SenderOk(s, b);
    }
    RetiredStays(s, s', a);
  }

  /** The collecting thread's own steps. */
  lemma CtlMaster(g: Graph, s: State, a: nat, l: Label)
    requires g.Valid() && CtlInv(s) && Enabled(g, s, a, l)
    requires l.Flushed? || l.Distributed? || l.Released? || l.Check? || l.Acquire?
    ensures CtlInv(Do(g, s, a, l))
  {
    var s' := Do(g, s, a, l);
    assert SenderOk(s, a);
    forall k | 0 <= k < N(s) ensures WorkerOk(s', k) {
      assert WorkerOk(s, k);
      if Owed(s, k) {
        if b :| 0 <= b < |s.agents| && SendsTo(s.agents[b], k) { assert SendsTo(s'.agents[b], k); }
      }
    }
    forall b | 0 <= b < |s.agents| ensures SenderOk(s', b) {
      assert SenderOk(s, b);
    }
  }

  lemma CtlRelease(g: Graph, s: State, a: nat)
    requires g.Valid() && CtlInv(s) && Enabled(g, s, a, Release)
    ensures CtlInv(Do(g, s, a, Release))
  {
    var s' := Do(g, s, a, Release);
    forall k | 0 <= k < N(s) ensures WorkerOk(s', k) {
      assert WorkerOk(s, k);
      if k != s.agents[a].pc.next && Owed(s, k) {
        if b :| 0 <= b < |s.agents| && SendsTo(s.agents[b], k) { assert SendsTo(s'.agents[b], k); }
      }
    }
    forall b | 0 <= b < |s.agents| ensures SenderOk(s', b) {
      assert SenderOk(s, b);
    }
  }

  lemma StepKeepsCtlInv(g: Graph, s: State, s': State)
    requires g.Valid() && CtlInv(s) && Next(g, s, s')
    ensures CtlInv(s')
  {
    hide CtlInv;
    var a, l :| Enabled(g, s, a, l) && s' == Do(g, s, a, l);
    match l {
      case Try => CtlTry(g, s, a);
      case Send => CtlSend(g, s, a);
      case Release => CtlRelease(g, s, a);
      case Retire => CtlRetire(g, s, a);
      case ReadMask => CtlReadMask(g, s, a);
      case Wake => CtlWake(g, s, a);
      case Flushed => CtlMaster(g, s, a, l);
      case Distributed => CtlMaster(g, s, a, l);
      case Released => CtlMaster(g, s, a, l);
      case Check => CtlMaster(g, s, a, l);
      case Acquire => CtlMaster(g, s, a, l);
      case _ => CtlFlush(g, s, a, l);
    }
  }

  // ---- what the collector's wait means

  /** When `gc_dispatch_mark` hands a share to a marker, that marker's stack is empty. */
  lemma SendTargetIsEmpty(g: Graph, s: State, a: nat)
    requires g.Valid() && CtlInv(s) && Enabled(g, s, a, Send)
    ensures s.agents[s.agents[a].disp.next].stack == [] && s.agents[a].disp.next != a
  {
    Dispatcher(s, a);
  }

  /** The first distribution gives everything away. */
  lemma DistributionIsComplete(g: Graph, s: State, a: nat)
    requires g.Valid() && CtlInv(s) && Enabled(g, s, a, Distributed)
    ensures s.agents[a].stack == []
  {
  }

  /** The collector sees an empty mask: nothing is pending anywhere. */
  lemma NothingPending(s: State)
    requires CtlInv(s) && s.active == {}
    requires s.agents[N(s)].pc == Checking || s.agents[N(s)].pc == Finished
    ensures Pending(s.agents) == multiset{}
  {
    forall i | 0 <= i < |s.agents| ensures s.agents[i].stack == [] && s.agents[i].hand == Empty {
      if i < N(s) { assert WorkerOk(s, i); }
    }
    PendingNone(s.agents);
  }

  /** What the marks mean when the collector's wait is over: exactly what the roots reach. */
  lemma WaitEndsExact(g: Graph, s: State, roots: set<int>)
    requires CtlInv(s) && MarkInv(g, s, roots) && s.active == {}
    requires s.agents[N(s)].pc == Checking || s.agents[N(s)].pc == Finished
    requires forall r :: r in roots && g.Block(r) ==> r in s.marked
    ensures forall b :: b in s.marked <==> g.Reach(roots, b)
  {
    NothingPending(s);
    var marked := iset b | b in s.marked;
    forall b | g.Reach(roots, b) ensures b in s.marked { ReachLeast(g, roots, marked, b); }
  }

  // ---- progress

  /** As long as the collector has not finished, some thread can take a step: no wake-up is lost. */
  lemma SomeoneMoves(g: Graph, s: State, roots: set<int>)
    requires CtlInv(s) && MarkInv(g, s, roots) && s.agents[N(s)].pc != Finished
    ensures exists a, l :: Enabled(g, s, a, l)
  {
    var n := N(s);
    var ag := s.agents[n];
    assert SenderOk(s, n);
    match ag.pc {
      case Running => RunningMoves(g, s, roots, n);
      case Distributing =>
        if ag.disp.Trying? {
          assert Enabled(g, s, n, if ag.disp.next < n then Try else Distributed);
        } else {
          assert Enabled(g, s, n, Send);
        }
      case Releasing(j) => assert Enabled(g, s, n, if j < n then Release else Released);
      case Checking => assert Enabled(g, s, n, Check);
      case Blocked =>
        if s.done > 0 {
          assert Enabled(g, s, n, Acquire);
        } else if s.active != {} {
          var i :| i in s.active;
          ActiveMoves(g, s, roots, i);
        } else {
          var i :| 0 <= i < n && s.agents[i].pc == Retired;
          assert Enabled(g, s, i, ReadMask);
        }
    }
  }

  lemma RunningMoves(g: Graph, s: State, roots: set<int>, a: nat)
    requires CtlInv(s) && MarkInv(g, s, roots) && a < |s.agents| && s.agents[a].pc == Running
    ensures exists l :: Enabled(g, s, a, l)
  {
    hide Pending, AgentPending;
    var ag := s.agents[a];
    assert SenderOk(s, a);
    AgentHandOk(g, s.marked, s.agents, a);
    if ag.disp.Sending? { assert Enabled(g, s, a, Send); }
    else if ag.disp.Trying? { assert Enabled(g, s, a, if ag.disp.next < N(s) then Try else EndDispatch); }
    else {
      match ag.hand {
        case Empty => assert Enabled(g, s, a, if ag.stack != [] then Pop else if a < N(s) then Retire else Flushed);
        case Popped(_) => assert Enabled(g, s, a, Begin);
        case Scanning(b, pos) => assert Enabled(g, s, a, if pos < |g.words[b]| then Follow else EndScan);
        case Claimed(_, _, _) => assert Enabled(g, s, a, Push);
      }
    }
  }

  lemma ActiveMoves(g: Graph, s: State, roots: set<int>, i: nat)
    requires CtlInv(s) && MarkInv(g, s, roots) && i in s.active && s.agents[N(s)].pc == Blocked
    ensures exists a, l :: Enabled(g, s, a, l)
  {
    assert WorkerOk(s, i);
    var ag := s.agents[i];
    if ag.pc == Running { RunningMoves(g, s, roots, i); }
    else if ag.pc == Retired { assert Enabled(g, s, i, ReadMask); }
    else if ag.ready > 0 { assert Enabled(g, s, i, Wake); }
    else {
      var a :| 0 <= a < |s.agents| && SendsTo(s.agents[a], i);
      assert SenderOk(s, a);
      assert Enabled(g, s, a, Send);
    }
  }
}
