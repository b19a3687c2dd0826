/** A mark phase with foreign roots when there are several marker threads: both of its passes as runs of
    the interleaved steps, with the bitmaps that the serial passes leave. */
module ParallelPasses {
  import opened HeapGraph
  import opened ParallelMark
  import opened ParallelMarkRuns
  import opened ParallelMarkEnds
  import ForeignRoots

  ghost predicate Asleep(ag: Agent) {
    ag == Agent(Waiting, [], Empty, Idle, 0) || ag == Agent(Retired, [], Empty, Idle, 0)
  }

  /** What pushing the roots leaves on a stack: each newly marked root that holds pointers, once. */
  ghost predicate Pushed(g: Graph, before: set<int>, roots: set<int>, stack: seq<int>) {
    && (forall i, j :: 0 <= i < j < |stack| ==> stack[i] != stack[j])
    && (forall b :: b in stack <==> b in roots && g.Block(b) && g.scanned[b] && b !in before)
  }

  ghost function Blocks(g: Graph, roots: set<int>): set<int> { set r | r in roots && g.Block(r) }

  /** The first pass is about to hand out what pushing the native roots has left on the collector's
      stack; with nothing on it there is nothing to hand out. */
  ghost predicate FirstStart(g: Graph, s: State, native: set<int>) {
    && |s.agents| > 1 && s.active == {} && (forall i :: 0 <= i < N(s) ==> Asleep(s.agents[i]))
    && s.marked == Blocks(g, native)
    && var m := s.agents[N(s)];
       && m.hand == Empty && Pushed(g, {}, native, m.stack)
       && if m.stack == [] then m.pc == Checking && m.disp == Idle
          else m.pc == Distributing && m.disp == Trying(0, (|m.stack| + N(s) - 1) / N(s))
  }

  /** Where the first pass has ended in state s, the second starts: the deferred roots are pushed and the
      collector marks along. A marker that was about to read the mask may have done so meanwhile. */
  ghost predicate SecondStart(g: Graph, s: State, t: State, foreign: set<int>)
    requires s.agents != []
  {
    && |t.agents| == |s.agents| && t.active == s.active && t.marked == s.marked + Blocks(g, foreign)
    && (forall i :: 0 <= i < N(s) ==> t.agents[i] == s.agents[i] || t.agents[i] == s.agents[i].(pc := Waiting))
    && var m := t.agents[N(t)];
       m.pc == Running && m.hand == Empty && m.disp == Idle && Pushed(g, s.marked, foreign, m.stack)
  }

  ghost predicate Steps(g: Graph, run: seq<State>)
    requires g.Valid()
  {
    |run| > 0 && forall i :: 0 <= i < |run| - 1 ==> Next(g, run[i], run[i + 1])
  }

  ghost predicate Ended(s: State) { s.agents != [] && s.agents[N(s)].pc == Finished }

  lemma FirstIsInit(g: Graph, s: State, native: set<int>)
    requires g.Valid() && FirstStart(g, s, native)
    ensures Init(g, s, native)
  {
    hide InitMarks;
    FirstMarks(g, native, s.marked, s.agents[N(s)].stack);
  }

  lemma FirstMarks(g: Graph, native: set<int>, marked: set<int>, stack: seq<int>)
    requires g.Valid() && marked == Blocks(g, native) && Pushed(g, {}, native, stack)
    ensures InitMarks(g, marked, stack, native)
  {
    hide HeapGraph.Graph.Reach;
    forall b | b in marked ensures g.Reach(native, b) { ReachRoot(g, native, b); }
  }

  /** The end of a pass leaves every marker asleep and nothing pending. */
  lemma EndedAsleep(g: Graph, s: State, roots: set<int>)
    requires Inv(g, s, roots) && Ended(s)
    ensures s.active == {} && |s.agents| > 1 && forall i :: 0 <= i < N(s) ==> Asleep(s.agents[i])
    ensures forall b :: b in s.marked <==> g.Reach(roots, b)
  {
    hide MarkInv;
    WaitEndsExact(g, s, roots);
    forall i | 0 <= i < N(s) ensures Asleep(s.agents[i]) { assert WorkerOk(s, i); }
  }

  lemma SecondIsInit(g: Graph, s: State, t: State, native: set<int>, foreign: set<int>)
    requires g.Valid() && Inv(g, s, native) && Ended(s) && SecondStart(g, s, t, foreign)
    ensures Init(g, t, native + foreign)
  {
    hide Inv, InitMarks, SecondStart, Pushed, Blocks, HeapGraph.Graph.Reach, HeapGraph.Graph.Valid;
    EndedAsleep(g, s, native);
    StillAsleep(g, s, t, foreign);
    SecondMarks(g, native, foreign, s.marked, t.marked, t.agents[N(t)].stack);
  }

  lemma StillAsleep(g: Graph, s: State, t: State, foreign: set<int>)
    requires |s.agents| > 1 && (forall i :: 0 <= i < N(s) ==> Asleep(s.agents[i])) && SecondStart(g, s, t, foreign)
    ensures |t.agents| == |s.agents| && t.active == s.active && t.marked == s.marked + Blocks(g, foreign)
    ensures forall i :: 0 <= i < N(t) ==> Asleep(t.agents[i])
    ensures var m := t.agents[N(t)];
            m.pc == Running && m.hand == Empty && m.disp == Idle && Pushed(g, s.marked, foreign, m.stack)
  {
    hide Pushed, Blocks;
  }

  lemma SecondMarks(g: Graph, native: set<int>, foreign: set<int>, before: set<int>, marked: set<int>, stack: seq<int>)
    requires g.Valid() && (forall b :: b in before <==> g.Reach(native, b))
    requires marked == before + Blocks(g, foreign) && Pushed(g, before, foreign, stack)
    ensures InitMarks(g, marked, stack, native + foreign)
  {
    hide HeapGraph.Graph.Reach;
    forall b | b in marked ensures g.Block(b) && g.Reach(native + foreign, b) {
      ReachUnion(g, native, foreign, b);
      if b in before { ReachIsBlock(g, native, b); } else { ReachRoot(g, foreign, b); }
    }
    forall r | r in native + foreign && g.Block(r) ensures r in marked {
      if r in native { ReachRoot(g, native, r); }
    }
    forall a, b | g.Edge(a, b) && a in marked ensures b in marked || a in stack {
      if a in before { ReachStep(g, native, a, b); }
    }
  }

  /** A set of blocks as a bitmap. */
  ghost function Bitmap(g: Graph, marked: set<int>): seq<bool> { seq(g.Size(), b => b in marked) }

  lemma ExactBitmap(g: Graph, marked: set<int>, roots: set<int>)
    requires g.Valid() && forall b :: b in marked <==> g.Reach(roots, b)
    ensures ForeignRoots.Exactly(g, Bitmap(g, marked), roots)
  {
  }

  /** For any number of marker threads, every interleaving of both passes and every split of the work:
      the first pass ends with exactly the marks of the serial native pass, the second with exactly those
      of the serial foreign pass; until then some thread can always move. */
  lemma PassesMarkExactly(g: Graph, slots: seq<ForeignRoots.RootSlot>, stacks: seq<ForeignRoots.Word>,
                          first: seq<State>, second: seq<State>)
    requires g.Valid() && Steps(g, first) && Steps(g, second)
    requires FirstStart(g, first[0], ForeignRoots.NativeRoots(slots, stacks)) && Ended(first[|first| - 1])
    requires SecondStart(g, first[|first| - 1], second[0], ForeignRoots.SlotRoots(slots, true))
    ensures ForeignRoots.Exactly(g, Bitmap(g, first[|first| - 1].marked), ForeignRoots.NativeRoots(slots, stacks))
    ensures var last := second[|second| - 1];
            if Ended(last)
            then ForeignRoots.Exactly(g, Bitmap(g, last.marked), ForeignRoots.NativeRoots(slots, stacks) + ForeignRoots.SlotRoots(slots, true))
            else exists next :: Next(g, last, next)
  {
    hide FirstStart, SecondStart, Next, Inv, Init, Ended, Bitmap, ForeignRoots.Exactly, ForeignRoots.NativeRoots, ForeignRoots.SlotRoots;
    var native, foreign := ForeignRoots.NativeRoots(slots, stacks), ForeignRoots.SlotRoots(slots, true);
    var s, t := first[|first| - 1], second[|second| - 1];
    FirstIsInit(g, first[0], native);
    var _ := LastOfRun(g, first, native);
    EndedAsleep(g, s, native);
    ExactBitmap(g, s.marked, native);
    SecondIsInit(g, s, second[0], native, foreign);
    var more := LastOfRun(g, second, native + foreign);
    if Ended(t) {
      EndedAsleep(g, t, native + foreign);
      ExactBitmap(g, t.marked, native + foreign);
    } else {
      assert Next(g, t, more);
    }
  }

  lemma LastOfRun(g: Graph, run: seq<State>, roots: set<int>) returns (next: State)
    requires g.Valid() && Steps(g, run) && Init(g, run[0], roots)
    ensures Inv(g, run[|run| - 1], roots)
    ensures Ended(run[|run| - 1]) || Next(g, run[|run| - 1], next)
  {
    hide Init, Next, Inv;
    assert Run(g, run, roots);
    var s := run[|run| - 1];
    next := s;
    RunKeepsInv(g, run, roots, |run| - 1);
    EveryRunMarksExactly(g, run, roots, |run| - 1);
    if !Ended(s) { next :| Next(g, s, next); }
  }
}
