/** Every run of the parallel marker ends, and where it ends the marks are exact. */
module ParallelMarkEnds {
  import opened HeapGraph
  import opened ParallelMark
  import opened ParallelMarkRuns

  // ---- a measure that every step lowers: blocks still unmarked, then entries on stacks,
  //      then the work left in the hands and control states

  ghost function Unmarked(g: Graph, s: State): set<int> { set b | 0 <= b < g.Size() && b !in s.marked }

  function Stacked(ag: Agent): nat { |ag.stack| + if ag.hand.Claimed? then 1 else 0 }

  function StackedAll(agents: seq<Agent>): nat {
    if agents == [] then 0 else Stacked(agents[0]) + StackedAll(agents[1..])
  }

  // The weights: waking a marker pays for its waking up, retiring, reading the mask and for the
  // collector's look at the mask that this may cause (5); offering a share to one marker pays
  // for the attempt, the sending and the waking (7).

  ghost function WordsOf(g: Graph, b: int): nat { if 0 <= b < |g.words| then |g.words[b]| else 0 }

  ghost function HandWork(g: Graph, n: nat, ag: Agent): nat {
    match ag.hand
    case Empty => 0
    case Popped(b) => 2 * WordsOf(g, b) + 2 + (if ag.disp == Idle then 7 * n + 2 else 0)
    case Scanning(b, pos) => if pos <= WordsOf(g, b) then 2 * (WordsOf(g, b) - pos) + 1 else 0
    case Claimed(b, pos, _) => if pos <= WordsOf(g, b) then 2 * (WordsOf(g, b) - pos) else 0
  }

  ghost function DispatchWork(n: nat, d: Dispatch): nat {
    match d
    case Idle => 0
    case Trying(i, _) => if i <= n then 7 * (n - i) + 1 else 0
    case Sending(i, _) => if i <= n then 7 * (n - i) else 0
  }

  ghost function PcWork(n: nat, pc: Pc): nat {
    match pc
    case Waiting => 0
    case Running => 4
    case Retired => 3
    case Distributing => 6 * n + 3
    case Releasing(j) => if j <= n then 6 * (n - j) + 2 else 0
    case Checking => 1
    case Blocked => 0
    case Finished => 0
  }

  ghost function Work(g: Graph, n: nat, ag: Agent): nat {
    HandWork(g, n, ag) + DispatchWork(n, ag.disp) + PcWork(n, ag.pc) + 5 * ag.ready
  }

  ghost function WorkAll(g: Graph, n: nat, agents: seq<Agent>): nat {
    if agents == [] then 0 else Work(g, n, agents[0]) + WorkAll(g, n, agents[1..])
  }

  ghost function WorkLeft(g: Graph, s: State): nat
    requires s.agents != []
  {
    WorkAll(g, N(s), s.agents) + 2 * s.done
  }

  lemma {:induction false} StackedUpdate(agents: seq<Agent>, i: nat, ag: Agent)
    requires i < |agents|
    ensures StackedAll(agents[i := ag]) == StackedAll(agents) - Stacked(agents[i]) + Stacked(ag)
  {
    if i == 0 {
      assert agents[0 := ag][1..] == agents[1..];
    } else {
      assert agents[i := ag][1..] == agents[1..][i - 1 := ag];
      StackedUpdate(agents[1..], i - 1, ag);
    }
  }

  lemma {:induction false} WorkUpdate(g: Graph, n: nat, agents: seq<Agent>, i: nat, ag: Agent)
    requires i < |agents|
    ensures WorkAll(g, n, agents[i := ag]) == WorkAll(g, n, agents) - Work(g, n, agents[i]) + Work(g, n, ag)
  {
    hide Work;
    if i == 0 {
      assert agents[0 := ag][1..] == agents[1..];
    } else {
      assert agents[i := ag][1..] == agents[1..][i - 1 := ag];
      WorkUpdate(g, n, agents[1..], i - 1, ag);
    }
  }

  ghost predicate Lower(g: Graph, s: State, s': State)
    requires s.agents != [] && s'.agents != []
  {
    || Unmarked(g, s') < Unmarked(g, s)
    || (Unmarked(g, s') == Unmarked(g, s) && StackedAll(s'.agents) < StackedAll(s.agents))
    || (Unmarked(g, s') == Unmarked(g, s) && StackedAll(s'.agents) == StackedAll(s.agents) && WorkLeft(g, s') < WorkLeft(g, s))
  }

  /** A step of one agent on its own: enough that its own share of the measure goes down. */
  lemma LowerAlone(g: Graph, s: State, s': State, a: nat)
    requires a < |s.agents| == |s'.agents| && s'.agents == s.agents[a := s'.agents[a]] && s'.marked == s.marked
    requires || Stacked(s'.agents[a]) < Stacked(s.agents[a])
             || (Stacked(s'.agents[a]) == Stacked(s.agents[a])
                 && Work(g, N(s), s'.agents[a]) + 2 * s'.done < Work(g, N(s), s.agents[a]) + 2 * s.done)
    ensures Lower(g, s, s')
  {
    hide Work;
    StackedUpdate(s.agents, a, s'.agents[a]);
    WorkUpdate(g, N(s), s.agents, a, s'.agents[a]);
  }

  lemma LowerPair(g: Graph, s: State, s': State, a: nat, i: nat, ag: Agent)
    requires a < |s.agents| && i < |s.agents| && i != a && |s'.agents| == |s.agents|
    requires s'.agents == s.agents[a := ag][i := s'.agents[i]] && s'.marked == s.marked && s'.done == s.done
    requires Stacked(ag) + Stacked(s'.agents[i]) == Stacked(s.agents[a]) + Stacked(s.agents[i])
    requires Work(g, N(s), ag) + Work(g, N(s), s'.agents[i]) < Work(g, N(s), s.agents[a]) + Work(g, N(s), s.agents[i])
    ensures Lower(g, s, s')
  {
    hide Work;
    StackedUpdate(s.agents, a, ag);
    StackedUpdate(s.agents[a := ag], i, s'.agents[i]);
    WorkUpdate(g, N(s), s.agents, a, ag);
    WorkUpdate(g, N(s), s.agents[a := ag], i, s'.agents[i]);
  }

  lemma SendLowers(g: Graph, s: State, a: nat)
    requires g.Valid() && CtlInv(s) && Enabled(g, s, a, Send)
    ensures Lower(g, s, Do(g, s, a, Send))
  {
    var s' := Do(g, s, a, Send);
    var ag := s.agents[a];
    var i := ag.disp.next;
    Dispatcher(s, a);
    var keep := |ag.stack| - Min(ag.disp.count, |ag.stack|);
    var left := ag.(stack := ag.stack[..keep], disp := Trying(i + 1, ag.disp.count));
    LowerPair(g, s, s', a, i, left);
  }

  lemma ReleaseLowers(g: Graph, s: State, a: nat)
    requires g.Valid() && CtlInv(s) && Enabled(g, s, a, Release)
    ensures Lower(g, s, Do(g, s, a, Release))
  {
    var s' := Do(g, s, a, Release);
    var i := s.agents[a].pc.next;
    LowerPair(g, s, s', a, i, s.agents[a].(pc := Releasing(i + 1)));
  }

  lemma FollowLowers(g: Graph, s: State, a: nat, roots: set<int>)
    requires MarkInv(g, s, roots) && CtlInv(s) && Enabled(g, s, a, Follow)
    ensures Lower(g, s, Do(g, s, a, Follow))
  {
    hide Pending, AgentPending;
    var s' := Do(g, s, a, Follow);
    var h := s.agents[a].hand;
    var w := g.words[h.block][h.pos];
    if w < 0 || w in s.marked {
      LowerAlone(g, s, s', a);
    } else {
      assert w in Unmarked(g, s) && w !in Unmarked(g, s');
    }
  }

  lemma DistributorHoldsNothing(s: State)
    requires CtlInv(s) && s.agents[N(s)].pc == Distributing
    ensures s.agents[N(s)].hand == Empty
  {
  }

  lemma OtherLowers(g: Graph, s: State, a: nat, l: Label, roots: set<int>)
    requires MarkInv(g, s, roots) && CtlInv(s) && Enabled(g, s, a, l)
    requires !l.Send? && !l.Release? && !l.Follow?
    ensures Lower(g, s, Do(g, s, a, l))
  {
    hide Pending, AgentPending, WorkerOk, MasterOk, Owed;
    assert SenderOk(s, a);
    AgentHandOk(g, s.marked, s.agents, a);
    if l.Distributed? { DistributorHoldsNothing(s); }
    LowerAlone(g, s, Do(g, s, a, l), a);
  }

  lemma StepLowers(g: Graph, s: State, s': State, roots: set<int>)
    requires MarkInv(g, s, roots) && CtlInv(s) && Next(g, s, s')
    ensures s'.agents != [] && Lower(g, s, s')
  {
    hide Lower, Pending, CtlInv;
    var a, l :| Enabled(g, s, a, l) && s' == Do(g, s, a, l);
    if l.Send? { SendLowers(g, s, a); }
    else if l.Release? { ReleaseLowers(g, s, a); }
    else if l.Follow? { FollowLowers(g, s, a, roots); }
    else { OtherLowers(g, s, a, l, roots); }
  }

  // ---- runs

  ghost predicate Inv(g: Graph, s: State, roots: set<int>) {
    && CtlInv(s) && MarkInv(g, s, roots)
    && forall r :: r in roots && g.Block(r) ==> r in s.marked
  }

  /** The state in which a phase of parallel marking starts: markers asleep, the blocks still to be
      scanned on the collector's stack. A distribution comes first in the first phase (unless the
      stack is empty), the collector marks along with the markers in the second. */
  ghost predicate Init(g: Graph, s: State, roots: set<int>) {
    && g.Valid() && |s.agents| > 1 && s.active == {}
    && (forall i :: 0 <= i < N(s) ==> s.agents[i] == Agent(Waiting, [], Empty, Idle, 0) || s.agents[i] == Agent(Retired, [], Empty, Idle, 0))
    && var m := s.agents[N(s)];
       && m.hand == Empty
       && ((m.pc == Distributing && m.disp == Trying(0, (|m.stack| + N(s) - 1) / N(s)))
           || (m.pc == Checking && m.disp == Idle && m.stack == [])
           || (m.pc == Running && m.disp == Idle))
       && InitMarks(g, s.marked, m.stack, roots)
  }

  /** Marks and stack at the start: the roots and nothing unreached are marked, and what has still to be
      scanned is on the stack, once. */
  ghost predicate InitMarks(g: Graph, marked: set<int>, stack: seq<int>, roots: set<int>)
    requires g.Valid()
  {
    && (forall i, j :: 0 <= i < j < |stack| ==> stack[i] != stack[j])
    && (forall b :: b in stack ==> b in marked && g.Block(b) && g.scanned[b])
    && (forall b :: b in marked ==> g.Block(b) && g.Reach(roots, b))
    && (forall r :: r in roots && g.Block(r) ==> r in marked)
    && (forall a, b :: g.Edge(a, b) && a in marked ==> b in marked || a in stack)
  }

  lemma {:induction false} OnlyLastPending(agents: seq<Agent>)
    requires agents != [] && agents[|agents| - 1].hand == Empty
    requires forall i :: 0 <= i < |agents| - 1 ==> agents[i].stack == [] && agents[i].hand == Empty
    ensures Pending(agents) == multiset(agents[|agents| - 1].stack)
  {
    if |agents| > 1 { OnlyLastPending(agents[1..]); }
  }

  lemma {:induction false} DistinctOnce(s: seq<int>, b: int)
    requires (forall i, j :: 0 <= i < j < |s| ==> s[i] != s[j]) && b in s
    ensures multiset(s)[b] == 1
  {
    var k := |s| - 1;
    assert s == s[..k] + [s[k]];
    if b in s[..k] { DistinctOnce(s[..k], b); }
  }

  lemma EvenShares(len: nat, n: nat)
    requires n > 0
    ensures len <= (len + n - 1) / n * n
  {
    var q, r := (len + n - 1) / n, (len + n - 1) % n;
    assert len + n - 1 == q * n + r;
  }

  lemma InitPending(g: Graph, s: State, roots: set<int>)
    requires Init(g, s, roots)
    ensures Pending(s.agents) == multiset(s.agents[N(s)].stack)
    ensures forall b :: b in Pending(s.agents) ==> Pending(s.agents)[b] == 1
  {
    hide Pending;
    var m := s.agents[N(s)];
    OnlyLastPending(s.agents);
    forall b | b in m.stack ensures multiset(m.stack)[b] == 1 { DistinctOnce(m.stack, b); }
  }

  lemma InitInv(g: Graph, s: State, roots: set<int>)
    requires Init(g, s, roots)
    ensures Inv(g, s, roots)
  {
    hide Pending, CtlInv;
    InitPending(g, s, roots);
    InitCtl(g, s, roots);
    var m := s.agents[N(s)];
    assert forall b :: b in Pending(s.agents) <==> b in m.stack;
    InitHands(g, s, roots);
  }

  lemma InitHands(g: Graph, s: State, roots: set<int>)
    requires Init(g, s, roots)
    ensures HandsOk(g, s.marked, s.agents)
  {
    assert forall k :: 0 <= k < |s.agents| ==> s.agents[k].hand == Empty;
  }

  lemma InitCtl(g: Graph, s: State, roots: set<int>)
    requires Init(g, s, roots)
    ensures CtlInv(s)
  {
    EvenShares(|s.agents[N(s)].stack|, N(s));
  }

  lemma StepKeepsInv(g: Graph, s: State, s': State, roots: set<int>)
    requires Inv(g, s, roots) && Next(g, s, s')
    ensures Inv(g, s', roots)
  {
    StepKeepsMarkInv(g, s, s', roots);
    StepKeepsCtlInv(g, s, s');
    MarkedGrows(g, s, s');
  }

  lemma MarkedGrows(g: Graph, s: State, s': State)
    requires g.Valid() && Next(g, s, s')
    ensures s.marked <= s'.marked
  {
  }

  ghost predicate Run(g: Graph, run: seq<State>, roots: set<int>) {
    && g.Valid() && |run| > 0 && Init(g, run[0], roots)
    && forall i :: 0 <= i < |run| - 1 ==> Next(g, run[i], run[i + 1])
  }

  lemma {:induction false} RunKeepsInv(g: Graph, run: seq<State>, roots: set<int>, k: nat)
    requires Run(g, run, roots) && k < |run|
    ensures Inv(g, run[k], roots)
  {
    if k == 0 {
      InitInv(g, run[0], roots);
    } else {
      RunKeepsInv(g, run, roots, k - 1);
      StepKeepsInv(g, run[k - 1], run[k], roots);
    }
  }

  /** Main result, for every interleaving and every split of the work: in each state of a run no
      block is pending twice and every marked block is done or pending; where the collector's wait
      is over the marks are exactly what the roots reach; everywhere else some thread can move. */
  lemma EveryRunMarksExactly(g: Graph, run: seq<State>, roots: set<int>, k: nat)
    requires Run(g, run, roots) && k < |run|
    ensures var s := run[k];
            && s.agents != []
            && (forall b :: Pending(s.agents)[b] <= 1)
            && (forall a, b :: g.Edge(a, b) && a in s.marked && a !in Pending(s.agents) ==> b in s.marked)
            && (if s.agents[N(s)].pc == Finished then forall b :: b in s.marked <==> g.Reach(roots, b)
                else exists s' :: Next(g, s, s'))
  {
    RunKeepsInv(g, run, roots, k);
    var s := run[k];
    if s.agents[N(s)].pc == Finished {
      WaitEndsExact(g, s, roots);
    } else {
      SomeoneMoves(g, s, roots);
      var a, l :| Enabled(g, s, a, l);
      assert Next(g, s, Do(g, s, a, l));
    }
  }

  /** Every run ends: there is no infinite sequence of steps. */
  lemma {:induction false} EveryRunEnds(g: Graph, run: nat -> State, roots: set<int>)
    requires g.Valid() && Inv(g, run(0), roots) && run(0).agents != []
    ensures exists n: nat :: !Next(g, run(n), run(n + 1))
    decreases Unmarked(g, run(0)), StackedAll(run(0).agents), WorkLeft(g, run(0))
  {
    hide *;
    if Next(g, run(0), run(1)) {
      NextIsLower(g, run(0), run(1), roots);
      var rest := (i: nat) => run(i + 1);
      assert rest(0) == run(1);
      EveryRunEnds(g, rest, roots);
      var n: nat :| !Next(g, rest(n), rest(n + 1));
      assert rest(n) == run(n + 1) && rest(n + 1) == run(n + 1 + 1);
      assert !Next(g, run(n + 1), run(n + 1 + 1));
    } else {
      assert !Next(g, run(0), run(0 + 1));
    }
  }

  lemma NextIsLower(g: Graph, s: State, s': State, roots: set<int>)
    requires g.Valid() && Inv(g, s, roots) && s.agents != [] && Next(g, s, s')
    ensures s'.agents != [] && Inv(g, s', roots)
    ensures Unmarked(g, s') < Unmarked(g, s) ||
            (Unmarked(g, s') == Unmarked(g, s) &&
             (StackedAll(s'.agents) < StackedAll(s.agents) ||
              (StackedAll(s'.agents) == StackedAll(s.agents) && WorkLeft(g, s') < WorkLeft(g, s))))
  {
    hide Inv, MarkInv, CtlInv, Next, Unmarked, StackedAll, WorkLeft, Pending;
    StepKeepsInv(g, s, s', roots);
    InvParts(g, s, roots);
    StepLowers(g, s, s', roots);
  }

  lemma InvParts(g: Graph, s: State, roots: set<int>)
    requires Inv(g, s, roots)
    ensures CtlInv(s) && MarkInv(g, s, roots)
  {
  }
}
