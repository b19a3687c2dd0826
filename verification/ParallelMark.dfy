/** The parallel marker as interleaved steps: up to N marker threads and the collecting thread
    share the mark bits and the mask of active threads, and hand each other parts of their mark
    stacks. One step is one access to shared memory, one semaphore operation or one local move;
    memory is sequentially consistent and the bit operations are atomic. */
module ParallelMark {
  import opened HeapGraph

  /** What a thread holds between two steps of `gc_flush_mark`. */
  datatype Hand =
    | Empty
    | Popped(block: int)                             // popped, may still dispatch
    | Scanning(block: int, pos: nat)                 // next word to follow
    | Claimed(block: int, pos: nat, child: int)      // the child's bit was set here, it is not pushed yet

  /** Where a thread stands in the loop of `gc_dispatch_mark`. */
  datatype Dispatch = Idle | Trying(next: nat, count: nat) | Sending(next: nat, count: nat)

  /** The last agent is the collecting thread, the others are marker threads. */
  datatype Pc =
    | Waiting                 // marker: on its `ready` semaphore
    | Running                 // in `gc_flush_mark`
    | Retired                 // marker: own bit cleared, the mask not read yet
    | Distributing            // collector: in the loop of `gc_dispatch_mark(st,true)`
    | Releasing(next: nat)    // collector: waking the markers one by one
    | Checking                // collector: about to read the mask
    | Blocked                 // collector: on `mark_threads_done`
    | Finished

  datatype Agent = Agent(pc: Pc, stack: seq<int>, hand: Hand, disp: Dispatch, ready: nat)

  datatype State = State(marked: set<int>, active: set<nat>, done: nat, agents: seq<Agent>)

  datatype Label =
    | Pop | Begin | StartDispatch(count: nat) | Try | Send | EndDispatch
    | Follow | Push | EndScan | Retire | ReadMask | Wake
    | Flushed | Distributed | Release | Released | Check | Acquire

  function Min(a: nat, b: nat): nat { if a < b then a else b }

  function Put(s: State, a: nat, ag: Agent): State
    requires a < |s.agents|
  {
    s.(agents := s.agents[a := ag])
  }

  /** Number of marker threads. */
  function N(s: State): int { |s.agents| - 1 }

  ghost predicate Enabled(g: Graph, s: State, a: nat, l: Label)
    requires g.Valid()
  {
    a < |s.agents| &&
    var ag := s.agents[a];
    match l
    case Pop => ag.pc == Running && ag.hand == Empty && ag.disp == Idle && ag.stack != []
    case Begin => ag.pc == Running && ag.hand.Popped? && ag.disp == Idle
    case StartDispatch(count) => ag.pc == Running && ag.hand.Popped? && ag.disp == Idle && count > 0
    case Try => ag.disp.Trying? && ag.disp.next < N(s)
    case Send => ag.disp.Sending? && ag.disp.next < N(s)
    case EndDispatch => ag.pc == Running && ag.hand.Popped? && ag.disp.Trying? && ag.disp.next == N(s)
    case Follow => ag.pc == Running && ag.hand.Scanning? && g.Block(ag.hand.block) && ag.hand.pos < |g.words[ag.hand.block]|
    case Push => ag.pc == Running && ag.hand.Claimed?
    case EndScan => ag.pc == Running && ag.hand.Scanning? && g.Block(ag.hand.block) && ag.hand.pos == |g.words[ag.hand.block]|
    case Retire => a < N(s) && ag.pc == Running && ag.hand == Empty && ag.disp == Idle && ag.stack == []
    case ReadMask => a < N(s) && ag.pc == Retired
    case Wake => a < N(s) && ag.pc == Waiting && ag.ready > 0
    case Flushed => a == N(s) && ag.pc == Running && ag.hand == Empty && ag.disp == Idle && ag.stack == []
    case Distributed => a == N(s) && ag.pc == Distributing && ag.disp.Trying? && ag.disp.next == N(s)
    case Release => a == N(s) && ag.pc.Releasing? && ag.pc.next < N(s)
    case Released => a == N(s) && ag.pc.Releasing? && ag.pc.next == N(s)
    case Check => a == N(s) && ag.pc == Checking
    case Acquire => a == N(s) && ag.pc == Blocked && s.done > 0
  }

  /** The state after agent a takes the step l. */
  ghost function Do(g: Graph, s: State, a: nat, l: Label): State
    requires g.Valid() && Enabled(g, s, a, l)
  {
    var ag := s.agents[a];
    var top := |ag.stack| - 1;
    match l
    case Pop => Put(s, a, ag.(stack := ag.stack[..top], hand := Popped(ag.stack[top])))
    case Begin => Put(s, a, ag.(hand := Scanning(ag.hand.block, 0)))
    case StartDispatch(count) => Put(s, a, ag.(disp := Trying(0, count)))
    case Try =>
      // atomic_bit_set on the mask: refused when the bit is already set
      if ag.disp.next in s.active then Put(s, a, ag.(disp := Trying(ag.disp.next + 1, ag.disp.count)))
      else Put(s, a, ag.(disp := Sending(ag.disp.next, ag.disp.count))).(active := s.active + {ag.disp.next})
    case Send => DoSend(s, a)
    case EndDispatch => Put(s, a, ag.(disp := Idle, hand := Scanning(ag.hand.block, 0)))
    case Follow => DoFollow(g, s, a)
    case Push => Put(s, a, ag.(stack := ag.stack + [ag.hand.child], hand := Scanning(ag.hand.block, ag.hand.pos + 1)))
    case EndScan => Put(s, a, ag.(hand := Empty))
    case Retire => Put(s, a, ag.(pc := Retired)).(active := s.active - {a})
    case ReadMask =>
      var s' := Put(s, a, ag.(pc := Waiting));
      if s.active == {} then s'.(done := s.done + 1) else s'
    case Wake => Put(s, a, ag.(pc := Running, ready := ag.ready - 1))
    case Flushed => Put(s, a, ag.(pc := Checking))
    case Distributed => Put(s, a, ag.(pc := Releasing(0), disp := Idle))
    case Release =>
      var i := ag.pc.next;
      Put(Put(s, a, ag.(pc := Releasing(i + 1))), i, s.agents[i].(ready := s.agents[i].ready + 1))
    case Released => Put(s, a, ag.(pc := Checking))
    case Check => Put(s, a, ag.(pc := if s.active == {} then Finished else Blocked))
    case Acquire => Put(s, a, ag.(pc := Checking)).(done := s.done - 1)
  }

  /** Moves the top of a stack to the marker whose bit was just set; while the markers run it is
      also woken, in the first distribution it is woken later. */
  ghost function DoSend(s: State, a: nat): State
    requires a < |s.agents| && s.agents[a].disp.Sending? && s.agents[a].disp.next < N(s)
  {
    var ag := s.agents[a];
    var i := ag.disp.next;
    var keep := |ag.stack| - Min(ag.disp.count, |ag.stack|);
    var s' := Put(s, a, ag.(stack := ag.stack[..keep], disp := Trying(i + 1, ag.disp.count)));
    var to := s'.agents[i];
    Put(s', i, to.(stack := to.stack + ag.stack[keep..],
                   ready := if ag.pc == Distributing then to.ready else to.ready + 1))
  }

  /** Follows one word: an atomic test-and-set of the bit it leads to. */
  ghost function DoFollow(g: Graph, s: State, a: nat): State
    requires g.Valid() && Enabled(g, s, a, Follow)
  {
    var ag := s.agents[a];
    var b, pos := ag.hand.block, ag.hand.pos;
    var w := g.words[b][pos];
    if w < 0 || w in s.marked then Put(s, a, ag.(hand := Scanning(b, pos + 1)))
    else Put(s, a, ag.(hand := if g.scanned[w] then Claimed(b, pos, w) else Scanning(b, pos + 1))).(marked := s.marked + {w})
  }

  ghost predicate Next(g: Graph, s: State, s': State)
    requires g.Valid()
  {
    exists a, l :: Enabled(g, s, a, l) && s' == Do(g, s, a, l)
  }

  // ---- pending blocks

  ghost function HandPending(h: Hand): multiset<int> {
    match h
    case Empty => multiset{}
    case Popped(b) => multiset{b}
    case Scanning(b, _) => multiset{b}
    case Claimed(b, _, c) => multiset{b, c}
  }

  ghost function AgentPending(ag: Agent): multiset<int> { multiset(ag.stack) + HandPending(ag.hand) }

  /** All blocks that are on some stack or in some hand, with how often. */
  ghost function Pending(agents: seq<Agent>): multiset<int> {
    if agents == [] then multiset{} else AgentPending(agents[0]) + Pending(agents[1..])
  }

  lemma PendingCons(agents: seq<Agent>)
    requires agents != []
    ensures Pending(agents) == AgentPending(agents[0]) + Pending(agents[1..])
  {
  }

  lemma Regroup(x: multiset<int>, p: multiset<int>, q: multiset<int>, p': multiset<int>, q': multiset<int>)
    requires p' + q == p + q'
    ensures (x + p') + q == (x + p) + q'
  {
    assert (x + p') + q == x + (p' + q);
    assert (x + p) + q' == x + (p + q');
  }

  lemma {:induction false} PendingUpdate(agents: seq<Agent>, i: nat, ag: Agent)
    requires i < |agents|
    ensures Pending(agents[i := ag]) + AgentPending(agents[i]) == Pending(agents) + AgentPending(ag)
  {
    hide AgentPending, Pending;
    var rest, now := agents[1..], agents[i := ag];
    PendingCons(agents);
    PendingCons(now);
    if i == 0 {
      assert now[0] == ag && now[1..] == rest;
      var x, y, p := AgentPending(ag), AgentPending(agents[0]), Pending(rest);
      assert x + p + y == y + p + x;
    } else {
      assert now[0] == agents[0] && now[1..] == rest[i - 1 := ag] && rest[i - 1] == agents[i];
      PendingUpdate(rest, i - 1, ag);
      Regroup(AgentPending(agents[0]), Pending(rest), AgentPending(agents[i]), Pending(now[1..]), AgentPending(ag));
    }
  }

  lemma {:induction false} PendingHas(agents: seq<Agent>, i: nat, b: int)
    requires i < |agents| && b in AgentPending(agents[i])
    ensures b in Pending(agents)
  {
    hide AgentPending, Pending;
    PendingCons(agents);
    if i > 0 { PendingHas(agents[1..], i - 1, b); }
  }

  lemma {:induction false} PendingNone(agents: seq<Agent>)
    requires forall i :: 0 <= i < |agents| ==> agents[i].stack == [] && agents[i].hand == Empty
    ensures Pending(agents) == multiset{}
  {
    if agents != [] { PendingNone(agents[1..]); }
  }

  // ---- marking invariant

  ghost predicate FollowedTo(g: Graph, marked: set<int>, b: int, pos: nat)
    requires g.Valid()
  {
    g.Block(b) && pos <= |g.words[b]| && forall i :: 0 <= i < pos && g.words[b][i] >= 0 ==> g.words[b][i] in marked
  }

  ghost predicate HandOk(g: Graph, marked: set<int>, h: Hand)
    requires g.Valid()
  {
    match h
    case Empty => true
    case Popped(b) => true
    case Scanning(b, pos) => FollowedTo(g, marked, b, pos)
    case Claimed(b, pos, c) => FollowedTo(g, marked, b, pos + 1) && c == g.words[b][pos]
  }

  /** Each marked block is done, or pending in exactly one place; the marks are sound. */
  ghost predicate InvOn(g: Graph, marked: set<int>, pending: multiset<int>, roots: set<int>)
    requires g.Valid()
  {
    && (forall b :: b in pending ==> pending[b] == 1 && b in marked && g.Block(b) && g.scanned[b])
    && (forall b :: b in marked ==> g.Block(b) && g.Reach(roots, b))
    && (forall a, b :: g.Edge(a, b) && a in marked ==> b in marked || a in pending)
  }

  ghost predicate HandsOk(g: Graph, marked: set<int>, agents: seq<Agent>)
    requires g.Valid()
  {
    forall k :: 0 <= k < |agents| ==> HandOk(g, marked, agents[k].hand)
  }

  ghost predicate MarkInv(g: Graph, s: State, roots: set<int>) {
    g.Valid() && InvOn(g, s.marked, Pending(s.agents), roots) && HandsOk(g, s.marked, s.agents)
  }

  lemma PutPending(s: State, a: nat, ag: Agent)
    requires a < |s.agents| && AgentPending(ag) == AgentPending(s.agents[a])
    ensures Pending(Put(s, a, ag).agents) == Pending(s.agents)
  {
    hide AgentPending, Pending;
    PendingUpdate(s.agents, a, ag);
    var x := AgentPending(ag);
    assert Pending(Put(s, a, ag).agents) == (Pending(Put(s, a, ag).agents) + x) - x;
    assert Pending(s.agents) == (Pending(s.agents) + x) - x;
  }

  /** Steps that leave the marks alone and move pending blocks at most from one place to another. */
  ghost predicate MovesOnly(l: Label) { !l.Follow? && !l.EndScan? }

  lemma SameParts(ag: Agent, ag': Agent)
    requires ag'.stack == ag.stack && HandPending(ag'.hand) == HandPending(ag.hand)
    ensures AgentPending(ag') == AgentPending(ag)
  {
  }

  lemma PopPending(ag: Agent, ag': Agent)
    requires ag.stack != [] && ag.hand == Empty
    requires ag'.stack == ag.stack[..|ag.stack| - 1] && ag'.hand == Popped(ag.stack[|ag.stack| - 1])
    ensures AgentPending(ag') == AgentPending(ag)
  {
    assert ag.stack == ag'.stack + [ag.stack[|ag.stack| - 1]];
  }

  lemma PushPending(ag: Agent, ag': Agent)
    requires ag.hand.Claimed?
    requires ag'.stack == ag.stack + [ag.hand.child] && ag'.hand == Scanning(ag.hand.block, ag.hand.pos + 1)
    ensures AgentPending(ag') == AgentPending(ag)
  {
  }

  /** Most steps change only the agent that takes them, and not what it has pending. */
  lemma LocalStep(g: Graph, s: State, a: nat, l: Label)
    requires g.Valid() && Enabled(g, s, a, l) && MovesOnly(l) && !l.Send? && !l.Release?
    ensures var s' := Do(g, s, a, l);
            && s'.agents == s.agents[a := s'.agents[a]] && s'.marked == s.marked
            && AgentPending(s'.agents[a]) == AgentPending(s.agents[a])
  {
    hide AgentPending, Pending;
    var ag, ag' := s.agents[a], Do(g, s, a, l).agents[a];
    if l.Pop? {
      PopPending(ag, ag');
    } else if l.Push? {
      PushPending(ag, ag');
    } else {
      SameParts(ag, ag');
    }
  }

  lemma ReleaseKeepsPending(g: Graph, s: State, a: nat)
    requires g.Valid() && Enabled(g, s, a, Release)
    ensures Pending(Do(g, s, a, Release).agents) == Pending(s.agents)
  {
    hide AgentPending, Pending;
    var i := s.agents[a].pc.next;
    var ag1 := s.agents[a].(pc := Releasing(i + 1));
    var ag2 := s.agents[i].(ready := s.agents[i].ready + 1);
    SameParts(s.agents[a], ag1);
    SameParts(s.agents[i], ag2);
    PutPending(s, a, ag1);
    PutPending(Put(s, a, ag1), i, ag2);
  }

  /** No step but following a word and finishing a block changes what is pending: handing out part
      of a stack neither loses nor duplicates a block. */
  lemma MovesKeepPending(g: Graph, s: State, a: nat, l: Label)
    requires g.Valid() && Enabled(g, s, a, l) && MovesOnly(l)
    ensures Pending(Do(g, s, a, l).agents) == Pending(s.agents) && Do(g, s, a, l).marked == s.marked
  {
    hide AgentPending, Pending;
    if l.Send? {
      SendKeepsPending(s, a);
    } else if l.Release? {
      ReleaseKeepsPending(g, s, a);
    } else {
      LocalStep(g, s, a, l);
      LocalKeepsPending(s, Do(g, s, a, l), a);
    }
  }

  lemma LocalKeepsPending(s: State, s': State, a: nat)
    requires a < |s.agents| == |s'.agents| && s'.agents == s.agents[a := s'.agents[a]]
    requires AgentPending(s'.agents[a]) == AgentPending(s.agents[a])
    ensures Pending(s'.agents) == Pending(s.agents)
  {
    hide AgentPending, Pending;
    PutPending(s, a, s'.agents[a]);
  }

  lemma StackSplit(ag: Agent, ag': Agent, rest: seq<int>)
    requires ag.stack == ag'.stack + rest && ag.hand == ag'.hand
    ensures AgentPending(ag) == AgentPending(ag') + multiset(rest)
  {
    assert multiset(ag.stack) == multiset(ag'.stack) + multiset(rest);
    var h := HandPending(ag.hand);
    assert (multiset(ag'.stack) + multiset(rest)) + h == (multiset(ag'.stack) + h) + multiset(rest);
  }

  lemma SendKeepsPending(s: State, a: nat)
    requires a < |s.agents| && s.agents[a].disp.Sending? && s.agents[a].disp.next < N(s)
    ensures Pending(DoSend(s, a).agents) == Pending(s.agents)
  {
    hide Pending, AgentPending;
    var ag := s.agents[a];
    var i := ag.disp.next;
    var keep := |ag.stack| - Min(ag.disp.count, |ag.stack|);
    var left := ag.(stack := ag.stack[..keep], disp := Trying(i + 1, ag.disp.count));
    var s1 := Put(s, a, left);
    var to := DoSend(s, a).agents[i];
    assert ag.stack == left.stack + ag.stack[keep..];
    StackSplit(ag, left, ag.stack[keep..]);
    StackSplit(to, s1.agents[i], ag.stack[keep..]);
    PendingUpdate(s.agents, a, left);
    PendingUpdate(s1.agents, i, to);
    assert DoSend(s, a) == Put(s1, i, to);
    MovedBack(Pending(s.agents), Pending(s1.agents), Pending(DoSend(s, a).agents), AgentPending(left),
              AgentPending(s1.agents[i]), multiset(ag.stack[keep..]));
  }

  lemma MovedBack(p: multiset<int>, q: multiset<int>, r: multiset<int>, x: multiset<int>, y: multiset<int>, m: multiset<int>)
    requires q + (x + m) == p + x && r + y == q + (y + m)
    ensures r == p
  {
    assert (q + m) + x == p + x && r + y == (q + m) + y;
    assert q + m == ((q + m) + x) - x && p == (p + x) - x;
    assert r == (r + y) - y && q + m == ((q + m) + y) - y;
  }

  lemma HandAfterMove(g: Graph, s: State, a: nat, l: Label, roots: set<int>)
    requires MarkInv(g, s, roots) && Enabled(g, s, a, l) && MovesOnly(l) && !l.Send? && !l.Release?
    ensures HandOk(g, s.marked, Do(g, s, a, l).agents[a].hand)
  {
    hide Pending, AgentPending;
    var ag := s.agents[a];
    AgentHandOk(g, s.marked, s.agents, a);
    if l.Begin? || l.EndDispatch? {
      InHand(ag, ag.hand.block);
      PendingHas(s.agents, a, ag.hand.block);
    }
  }

  lemma HandsAfterMove(g: Graph, s: State, a: nat, l: Label, roots: set<int>)
    requires MarkInv(g, s, roots) && Enabled(g, s, a, l) && MovesOnly(l)
    ensures HandsOk(g, s.marked, Do(g, s, a, l).agents)
  {
    hide Pending, AgentPending, InvOn;
    var s' := Do(g, s, a, l);
    if l.Send? || l.Release? {
      forall k | 0 <= k < |s'.agents| ensures HandOk(g, s.marked, s'.agents[k].hand) {
        assert s'.agents[k].hand == s.agents[k].hand;
      }
    } else {
      HandAfterMove(g, s, a, l, roots);
      LocalStep(g, s, a, l);
      hide HandsOk, HandOk, Do;
      HandsPut(g, s.marked, {}, s.agents, a, s'.agents[a]) by { assert s.marked + {} == s.marked; }
      assert s.marked + {} == s.marked;
    }
  }

  lemma MovesKeepInv(g: Graph, s: State, a: nat, l: Label, roots: set<int>)
    requires MarkInv(g, s, roots) && Enabled(g, s, a, l) && MovesOnly(l)
    ensures MarkInv(g, Do(g, s, a, l), roots)
  {
    MovesKeepPending(g, s, a, l);
    HandsAfterMove(g, s, a, l, roots);
    hide Pending, InvOn, HandsOk, Do, Enabled;
  }

  /** The set bit of a newly found block, and its place in the finder's hand. */
  lemma Claim(g: Graph, marked: set<int>, p: multiset<int>, q: multiset<int>, roots: set<int>, b: int, w: int)
    requires g.Valid() && InvOn(g, marked, p, roots) && b in p && g.Edge(b, w) && w !in marked
    requires q == p + if g.scanned[w] then multiset{w} else multiset{}
    ensures InvOn(g, marked + {w}, q, roots)
  {
    ReachStep(g, roots, b, w);
  }

  lemma HandsPut(g: Graph, marked: set<int>, more: set<int>, agents: seq<Agent>, a: nat, ag: Agent)
    requires g.Valid() && HandsOk(g, marked, agents) && a < |agents| && HandOk(g, marked + more, ag.hand)
    ensures HandsOk(g, marked + more, agents[a := ag])
  {
    forall k | 0 <= k < |agents| && k != a ensures HandOk(g, marked + more, agents[k].hand) {
      assert HandOk(g, marked, agents[k].hand);
    }
  }

  lemma InHand(ag: Agent, b: int)
    requires b in HandPending(ag.hand)
    ensures b in AgentPending(ag)
  {
  }

  lemma FollowPending(ag: Agent, ag': Agent, extra: multiset<int>)
    requires ag'.stack == ag.stack && HandPending(ag'.hand) == HandPending(ag.hand) + extra
    ensures AgentPending(ag') == AgentPending(ag) + extra
  {
    assert multiset(ag.stack) + (HandPending(ag.hand) + extra) == (multiset(ag.stack) + HandPending(ag.hand)) + extra;
  }

  /** A word that leads nowhere new. */
  lemma FollowOld(g: Graph, s: State, a: nat, roots: set<int>)
    requires MarkInv(g, s, roots) && Enabled(g, s, a, Follow)
    requires var h := s.agents[a].hand; var w := g.words[h.block][h.pos]; w < 0 || w in s.marked
    ensures MarkInv(g, DoFollow(g, s, a), roots)
  {
    hide Pending, AgentPending, InvOn, HandsOk;
    var ag, s' := s.agents[a], DoFollow(g, s, a);
    SameParts(ag, s'.agents[a]);
    LocalKeepsPending(s, s', a);
    assert HandOk(g, s.marked, ag.hand) by { AgentHandOk(g, s.marked, s.agents, a); }
    HandsPut(g, s.marked, {}, s.agents, a, s'.agents[a]);
    assert s.marked + {} == s.marked;
  }

  lemma AgentHandOk(g: Graph, marked: set<int>, agents: seq<Agent>, a: nat)
    requires g.Valid() && HandsOk(g, marked, agents) && a < |agents|
    ensures HandOk(g, marked, agents[a].hand)
  {
  }

  /** A word that leads to an unmarked block. */
  lemma FollowNew(g: Graph, s: State, a: nat, roots: set<int>)
    requires MarkInv(g, s, roots) && Enabled(g, s, a, Follow)
    requires var h := s.agents[a].hand; var w := g.words[h.block][h.pos]; w >= 0 && w !in s.marked
    ensures MarkInv(g, DoFollow(g, s, a), roots)
  {
    hide Pending, AgentPending, InvOn, HandsOk;
    var ag, s' := s.agents[a], DoFollow(g, s, a);
    var ag', b := s'.agents[a], ag.hand.block;
    var w := g.words[b][ag.hand.pos];
    InHand(ag, b);
    PendingHas(s.agents, a, b);
    PendingIsScanned(g, s.marked, Pending(s.agents), roots, b);
    var extra := if g.scanned[w] then multiset{w} else multiset{};
    FollowPending(ag, ag', extra);
    PendingUpdate(s.agents, a, ag');
    Added(Pending(s.agents), Pending(s.agents[a := ag']), AgentPending(ag), extra);
    Claim(g, s.marked, Pending(s.agents), Pending(s.agents[a := ag']), roots, b, w);
    AgentHandOk(g, s.marked, s.agents, a);
    HandsPut(g, s.marked, {w}, s.agents, a, ag');
  }

  lemma PendingIsScanned(g: Graph, marked: set<int>, p: multiset<int>, roots: set<int>, b: int)
    requires g.Valid() && InvOn(g, marked, p, roots) && b in p
    ensures g.Block(b) && g.scanned[b]
  {
  }

  lemma FollowKeepsInv(g: Graph, s: State, a: nat, roots: set<int>)
    requires MarkInv(g, s, roots) && Enabled(g, s, a, Follow)
    ensures MarkInv(g, Do(g, s, a, Follow), roots)
  {
    hide Pending, InvOn, HandsOk;
    var h := s.agents[a].hand;
    var w := g.words[h.block][h.pos];
    if w < 0 || w in s.marked { FollowOld(g, s, a, roots); } else { FollowNew(g, s, a, roots); }
  }

  lemma Added(p: multiset<int>, q: multiset<int>, x: multiset<int>, extra: multiset<int>)
    requires q + x == p + (x + extra)
    ensures q == p + extra
  {
    assert q + x == (p + extra) + x;
    assert q == (q + x) - x && p + extra == ((p + extra) + x) - x;
  }

  /** A block whose words were all followed leaves the finder's hand. */
  lemma Done(g: Graph, marked: set<int>, p: multiset<int>, q: multiset<int>, roots: set<int>, b: int)
    requires g.Valid() && InvOn(g, marked, p, roots) && p == q + multiset{b}
    requires g.Block(b) && FollowedTo(g, marked, b, |g.words[b]|)
    ensures InvOn(g, marked, q, roots)
  {
    forall x | x in q ensures q[x] == 1 && x in marked && g.Block(x) && g.scanned[x] {
      assert x in p && q[x] <= p[x];
    }
    forall x, y | g.Edge(x, y) && x in marked ensures y in marked || x in q {
      if x == b {
        var i :| 0 <= i < |g.words[b]| && g.words[b][i] == y;
      }
    }
  }

  lemma EndScanKeepsInv(g: Graph, s: State, a: nat, roots: set<int>)
    requires MarkInv(g, s, roots) && Enabled(g, s, a, EndScan)
    ensures MarkInv(g, Do(g, s, a, EndScan), roots)
  {
    hide Pending, AgentPending, InvOn, HandsOk;
    var ag := s.agents[a];
    var b := ag.hand.block;
    var ag' := ag.(hand := Empty);
    FollowPending(ag', ag, multiset{b});
    PendingUpdate(s.agents, a, ag');
    Added(Pending(s.agents[a := ag']), Pending(s.agents), AgentPending(ag'), multiset{b});
    AgentHandOk(g, s.marked, s.agents, a);
    Done(g, s.marked, Pending(s.agents), Pending(s.agents[a := ag']), roots, b);
    HandsPut(g, s.marked, {}, s.agents, a, ag');
    assert s.marked + {} == s.marked;
  }

  /** Every step of every thread keeps the marking invariant. */
  lemma StepKeepsMarkInv(g: Graph, s: State, s': State, roots: set<int>)
    requires MarkInv(g, s, roots) && Next(g, s, s')
    ensures MarkInv(g, s', roots)
  {
    var a, l :| Enabled(g, s, a, l) && s' == Do(g, s, a, l);
    if l.Follow? { FollowKeepsInv(g, s, a, roots); }
    else if l.EndScan? { EndScanKeepsInv(g, s, a, roots); }
    else { MovesKeepInv(g, s, a, l, roots); }
  }
}
