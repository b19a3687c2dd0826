/** A whole mark phase with foreign roots: mark from the native roots with the foreign ones
    deferred, note what is natively live, trace each foreign root alone on a cleared bitmap,
    put the bitmap back, and only then mark from the foreign roots. */
module ForeignRoots {
  import opened HeapGraph
  import opened Marking

  /** A root word as the two block lookups resolve it: `id` accepts only the start of a block,
      `interior` any address inside one. Both are -1 when the lookup refuses the word. */
  datatype Word = Word(id: int, interior: int)

  /** One entry of `gc_roots`: whether the foreign side claims the slot, and the word in it. */
  datatype RootSlot = RootSlot(deferred: bool, word: Word)

  ghost predicate WordOk(g: Graph, w: Word) {
    -1 <= w.interior < g.Size() && (w.id == -1 || w.id == w.interior)
  }

  ghost predicate WordsOk(g: Graph, ws: seq<Word>) { forall i :: 0 <= i < |ws| ==> WordOk(g, ws[i]) }

  ghost predicate SlotsOk(g: Graph, rs: seq<RootSlot>) { forall i :: 0 <= i < |rs| ==> WordOk(g, rs[i].word) }

  /** Blocks that stack words keep alive. */
  ghost function InteriorRoots(ws: seq<Word>): set<int> {
    set i | 0 <= i < |ws| && ws[i].interior >= 0 :: ws[i].interior
  }

  /** Blocks that root slots of one kind keep alive. */
  ghost function SlotRoots(rs: seq<RootSlot>, deferred: bool): set<int> {
    set i | 0 <= i < |rs| && rs[i].deferred == deferred && rs[i].word.id >= 0 :: rs[i].word.id
  }

  ghost function NativeRoots(rs: seq<RootSlot>, stacks: seq<Word>): set<int> {
    SlotRoots(rs, false) + InteriorRoots(stacks)
  }

  /** A bitmap that holds exactly what the roots reach. */
  ghost predicate Exactly(g: Graph, m: seq<bool>, roots: set<int>)
    requires g.Valid()
  {
    |m| == g.Size() && forall b :: 0 <= b < |m| ==> (m[b] <==> g.Reach(roots, b))
  }

  /** A report of blocks: each once, exactly what the roots reach. */
  ghost predicate ReportsExactly(g: Graph, report: seq<nat>, roots: set<int>)
    requires g.Valid()
  {
    Distinct(report) && forall b: nat :: b in report <==> g.Reach(roots, b)
  }

  ghost predicate AllClear(m: seq<bool>) { forall b :: 0 <= b < |m| ==> !m[b] }

  lemma ClearBitmapReady(g: Graph, m: seq<bool>, roots: set<int>)
    requires g.Valid() && |m| == g.Size() && AllClear(m)
    ensures MarkInv(g, m, [], roots) && TraceExact(m, [], [])
  {
  }

  /** More roots may be promised at any time. */
  lemma MoreRoots(g: Graph, m: seq<bool>, pending: seq<int>, r1: set<int>, r2: set<int>)
    requires MarkInv(g, m, pending, r1)
    ensures MarkInv(g, m, pending, r1 + r2)
  {
    forall b | 0 <= b < |m| && m[b] ensures g.Reach(r1 + r2, b) { ReachUnion(g, r1, r2, b); }
  }

  /** Marking a root keeps the marker's invariant. */
  lemma MarkRoot(g: Graph, m: seq<bool>, pending: seq<int>, roots: set<int>, w: int)
    requires MarkInv(g, m, pending, roots) && w in roots && g.Block(w)
    ensures MarkInv(g, m[w := true], if !m[w] && g.scanned[w] then pending + [w] else pending, roots)
  {
    ReachRoot(g, roots, w);
    var pending' := if !m[w] && g.scanned[w] then pending + [w] else pending;
    forall a, b | g.Edge(a, b) && m[w := true][a] ensures m[w := true][b] || a in pending' {
      if a == w && !m[w] { assert w in pending'; }
    }
  }

  lemma InvParts(g: Graph, m: seq<bool>, pending: seq<int>, roots: set<int>)
    requires MarkInv(g, m, pending, roots)
    ensures g.Valid() && |m| == g.Size() && PendingOk(g, m, pending)
  {
  }

  /** Marks the block of one root word, if it has one. */
  method MarkRootWord(g: Graph, st: MarkStack, marks: array<bool>, trace: Trace?, bid: int, ghost roots: set<int>)
    requires StackReady(g, st, marks, trace) && MarkInv(g, marks[..], st.Contents(), roots)
    requires -1 <= bid < g.Size() && (bid >= 0 ==> bid in roots)
    modifies st, st.buf, marks, trace
    ensures StackReady(g, st, marks, trace) && (st.buf == old(st.buf) || fresh(st.buf))
    ensures MarkInv(g, marks[..], st.Contents(), roots)
    ensures Grown(old(marks[..]), marks[..]) && (bid >= 0 ==> marks[bid])
  {
    hide MarkInv, TraceExact;
    InvParts(g, marks[..], st.Contents(), roots);
    if bid >= 0 { MarkRoot(g, marks[..], st.Contents(), roots, bid); }
    MarkBlock(g, st, marks, trace, bid);
  }

  /** `gc_mark_stack`: conservative words, resolved as interior pointers. */
  method MarkWords(g: Graph, st: MarkStack, marks: array<bool>, trace: Trace?, words: seq<Word>, ghost roots: set<int>)
    requires StackReady(g, st, marks, trace) && MarkInv(g, marks[..], st.Contents(), roots)
    requires WordsOk(g, words) && InteriorRoots(words) <= roots
    modifies st, st.buf, marks, trace
    ensures StackReady(g, st, marks, trace) && (st.buf == old(st.buf) || fresh(st.buf))
    ensures MarkInv(g, marks[..], st.Contents(), roots)
    ensures Grown(old(marks[..]), marks[..])
    ensures forall b :: b in InteriorRoots(words) ==> 0 <= b < marks.Length && marks[b]
  {
    hide MarkInv, TraceExact;
    var i := 0;
    while i < |words|
      invariant i <= |words|
      invariant StackReady(g, st, marks, trace) && (st.buf == old(st.buf) || fresh(st.buf))
      invariant MarkInv(g, marks[..], st.Contents(), roots)
      invariant Grown(old(marks[..]), marks[..])
      invariant forall j :: 0 <= j < i && words[j].interior >= 0 ==> marks[words[j].interior]
    {
      var w := words[i];
      assert w.interior >= 0 ==> w.interior in InteriorRoots(words);
      MarkRootWord(g, st, marks, trace, w.interior, roots);
      i := i + 1;
    }
  }

  /** The loops of `gc_mark` over the root slots: those of one kind, resolved as block starts. */
  method MarkSlots(g: Graph, st: MarkStack, marks: array<bool>, slots: seq<RootSlot>, deferred: bool, ghost roots: set<int>)
    requires StackReady(g, st, marks, null) && MarkInv(g, marks[..], st.Contents(), roots)
    requires SlotsOk(g, slots) && SlotRoots(slots, deferred) <= roots
    modifies st, st.buf, marks
    ensures StackReady(g, st, marks, null) && (st.buf == old(st.buf) || fresh(st.buf))
    ensures MarkInv(g, marks[..], st.Contents(), roots)
    ensures Grown(old(marks[..]), marks[..])
    ensures forall b :: b in SlotRoots(slots, deferred) ==> 0 <= b < marks.Length && marks[b]
  {
    hide MarkInv, TraceExact;
    var i := 0;
    while i < |slots|
      invariant i <= |slots|
      invariant StackReady(g, st, marks, null) && (st.buf == old(st.buf) || fresh(st.buf))
      invariant MarkInv(g, marks[..], st.Contents(), roots)
      invariant Grown(old(marks[..]), marks[..])
      invariant forall j :: 0 <= j < i && slots[j].deferred == deferred && slots[j].word.id >= 0 ==> marks[slots[j].word.id]
    {
      var s := slots[i];
      if s.deferred == deferred {
        assert s.word.id >= 0 ==> s.word.id in SlotRoots(slots, deferred);
        MarkRootWord(g, st, marks, null, s.word.id, roots);
      }
      i := i + 1;
    }
  }

  method ClearBitmap(marks: array<bool>)
    modifies marks
    ensures AllClear(marks[..])
  {
    forall i | 0 <= i < marks.Length { marks[i] := false; }
  }

  /** Zeroes the recorded mark bytes, newest first. */
  method UndoTrace(marks: array<bool>, trace: Trace)
    requires TraceExact(marks[..], trace.visits, trace.bytes)
    modifies marks, trace`bytes
    ensures AllClear(marks[..]) && trace.bytes == []
  {
    while trace.bytes != []
      invariant forall b :: 0 <= b < marks.Length && marks[b] ==> b / 8 in trace.bytes
      decreases |trace.bytes|
    {
      var last := trace.bytes[|trace.bytes| - 1];
      ghost var was := trace.bytes;
      trace.bytes := trace.bytes[..|trace.bytes| - 1];
      forall i | 0 <= i < marks.Length && i / 8 == last { marks[i] := false; }
      assert was == trace.bytes + [last];
    }
  }

  /** Traces one foreign root alone: reports what it reaches, each block once, and leaves the
      bitmap as clear as it found it. */
  method TraceRoot(g: Graph, st: MarkStack, marks: array<bool>, word: Word) returns (report: seq<nat>)
    requires StackReady(g, st, marks, null) && st.Contents() == [] && g.Valid()
    requires AllClear(marks[..]) && WordOk(g, word)
    modifies st, st.buf, marks
    ensures StackReady(g, st, marks, null) && st.Contents() == [] && (st.buf == old(st.buf) || fresh(st.buf))
    ensures AllClear(marks[..])
    ensures ReportsExactly(g, report, InteriorRoots([word]))
  {
    ghost var roots := InteriorRoots([word]);
    ClearBitmapReady(g, marks[..], roots);
    hide MarkInv, TraceExact, AllClear, ReportsExactly;
    var trace := new Trace();
    MarkWords(g, st, marks, trace, [word], roots);
    FlushMark(g, st, marks, trace, roots);
    MarkedExactly(g, marks[..], roots);
    report := trace.visits;
    ReportIs(g, marks[..], report, trace.bytes, roots);
    UndoTrace(marks, trace);
  }

  lemma ReportIs(g: Graph, m: seq<bool>, visits: seq<nat>, bytes: seq<nat>, roots: set<int>)
    requires g.Valid() && Exactly(g, m, roots) && TraceExact(m, visits, bytes)
    ensures ReportsExactly(g, visits, roots)
  {
    forall b: nat | g.Reach(roots, b) ensures b < |m| { ReachIsBlock(g, roots, b); }
  }

  /** One report for each slot, empty for the slots that are not deferred. */
  ghost predicate ReportsPerSlot(g: Graph, slots: seq<RootSlot>, reports: seq<seq<nat>>)
    requires g.Valid()
  {
    |reports| == |slots| && forall i :: 0 <= i < |slots| ==>
      if slots[i].deferred then ReportsExactly(g, reports[i], InteriorRoots([slots[i].word])) else reports[i] == []
  }

  /** The tracing pass: every deferred slot in turn. */
  method TraceDeferred(g: Graph, st: MarkStack, marks: array<bool>, slots: seq<RootSlot>) returns (reports: seq<seq<nat>>)
    requires StackReady(g, st, marks, null) && st.Contents() == [] && g.Valid()
    requires AllClear(marks[..]) && SlotsOk(g, slots)
    modifies st, st.buf, marks
    ensures StackReady(g, st, marks, null) && st.Contents() == [] && (st.buf == old(st.buf) || fresh(st.buf))
    ensures ReportsPerSlot(g, slots, reports)
  {
    hide ReportsExactly, AllClear;
    reports := [];
    while |reports| < |slots|
      invariant |reports| <= |slots|
      invariant StackReady(g, st, marks, null) && st.Contents() == [] && (st.buf == old(st.buf) || fresh(st.buf))
      invariant AllClear(marks[..])
      invariant forall i :: 0 <= i < |reports| ==>
                  if slots[i].deferred then ReportsExactly(g, reports[i], InteriorRoots([slots[i].word])) else reports[i] == []
    {
      var s := slots[|reports|];
      var report := [];
      if s.deferred { report := TraceRoot(g, st, marks, s.word); }
      reports := reports + [report];
    }
  }

  /** First pass: everything but the deferred slots. */
  method NativePass(g: Graph, st: MarkStack, marks: array<bool>, slots: seq<RootSlot>, stacks: seq<Word>)
    requires StackReady(g, st, marks, null) && st.Contents() == []
    requires g.Valid() && SlotsOk(g, slots) && WordsOk(g, stacks)
    modifies st, st.buf, marks
    ensures StackReady(g, st, marks, null) && st.Contents() == [] && (st.buf == old(st.buf) || fresh(st.buf))
    ensures MarkInv(g, marks[..], [], NativeRoots(slots, stacks)) && Exactly(g, marks[..], NativeRoots(slots, stacks))
  {
    ghost var native := NativeRoots(slots, stacks);
    ClearBitmap(marks);
    ClearBitmapReady(g, marks[..], native);
    hide MarkInv, TraceExact;
    MarkSlots(g, st, marks, slots, false, native);
    MarkWords(g, st, marks, null, stacks, native);
    FlushMark(g, st, marks, null, native);
    MarkedExactly(g, marks[..], native);
  }

  /** Tracing pass: the bitmap is saved, used for the traces, and put back. */
  method TracePass(g: Graph, st: MarkStack, marks: array<bool>, slots: seq<RootSlot>) returns (reports: seq<seq<nat>>)
    requires StackReady(g, st, marks, null) && st.Contents() == [] && g.Valid() && SlotsOk(g, slots)
    modifies st, st.buf, marks
    ensures StackReady(g, st, marks, null) && st.Contents() == [] && (st.buf == old(st.buf) || fresh(st.buf))
    ensures marks[..] == old(marks[..])
    ensures ReportsPerSlot(g, slots, reports)
  {
    var saved := marks[..];
    ClearBitmap(marks);
    reports := TraceDeferred(g, st, marks, slots);
    forall i | 0 <= i < marks.Length { marks[i] := saved[i]; }
    assert marks[..] == saved;
  }

  /** Second pass: the deferred slots, on top of what is already marked. */
  method ForeignPass(g: Graph, st: MarkStack, marks: array<bool>, slots: seq<RootSlot>, ghost native: set<int>)
    requires StackReady(g, st, marks, null) && st.Contents() == [] && SlotsOk(g, slots)
    requires MarkInv(g, marks[..], [], native) && Exactly(g, marks[..], native)
    modifies st, st.buf, marks
    ensures g.Valid() && Exactly(g, marks[..], native + SlotRoots(slots, true))
  {
    ghost var roots := native + SlotRoots(slots, true);
    ghost var m := marks[..];
    MoreRoots(g, m, [], native, SlotRoots(slots, true));
    hide MarkInv, TraceExact;
    MarkSlots(g, st, marks, slots, true, roots);
    FlushMark(g, st, marks, null, roots);
    forall r | r in native && g.Block(r) ensures m[r] { ReachRoot(g, native, r); }
    MarkedExactly(g, marks[..], roots);
  }

  /** `gc_mark` up to the sweep, with the foreign hooks installed. */
  method GcMark(g: Graph, slots: seq<RootSlot>, stacks: seq<Word>, marks: array<bool>, tracing: bool)
    returns (nativeLive: seq<bool>, reports: seq<seq<nat>>)
    requires g.Valid() && marks.Length == g.Size() && SlotsOk(g, slots) && WordsOk(g, stacks)
    modifies marks
    ensures Exactly(g, nativeLive, NativeRoots(slots, stacks))
    ensures Exactly(g, marks[..], NativeRoots(slots, stacks) + SlotRoots(slots, true))
    ensures tracing ==> ReportsPerSlot(g, slots, reports)
  {
    hide *;
    var st := NewStack(g, marks);
    NativePass(g, st, marks, slots, stacks);
    nativeLive := marks[..];
    reports := [];
    if tracing { reports := TracePass(g, st, marks, slots); }
    ForeignPass(g, st, marks, slots, NativeRoots(slots, stacks));
  }

  method NewStack(g: Graph, marks: array<bool>) returns (st: MarkStack)
    requires marks.Length == g.Size()
    ensures StackReady(g, st, marks, null) && st.Contents() == [] && fresh(st) && fresh(st.buf)
  {
    st := new MarkStack();
  }

  /** The passes together mark what one pass over all the roots would have marked: the blocks
      reachable from native roots, and those reachable from some foreign root. */
  lemma PassesAgreeWithOne(g: Graph, slots: seq<RootSlot>, stacks: seq<Word>, b: int)
    requires g.Valid()
    ensures g.Reach(NativeRoots(slots, stacks) + SlotRoots(slots, true), b) <==>
            g.Reach(NativeRoots(slots, stacks), b) ||
            exists i :: 0 <= i < |slots| && slots[i].deferred && slots[i].word.id >= 0 && g.Reach({slots[i].word.id}, b)
  {
    var native, foreign := NativeRoots(slots, stacks), SlotRoots(slots, true);
    ReachUnion(g, native, foreign, b);
    if g.Reach(foreign, b) {
      var p :| g.Path(p) && p[0] in foreign && p[|p| - 1] == b;
      var i :| 0 <= i < |slots| && slots[i].deferred && slots[i].word.id >= 0 && slots[i].word.id == p[0];
      assert g.Reach({slots[i].word.id}, b);
    }
    if i :| 0 <= i < |slots| && slots[i].deferred && slots[i].word.id >= 0 && g.Reach({slots[i].word.id}, b) {
      ReachRoot(g, foreign, slots[i].word.id) by {
        assert slots[i].word.id in foreign;
        ReachIsBlockRoot(g, slots[i].word.id, b);
      }
      ReachFromReached(g, foreign, slots[i].word.id, b);
    }
  }

  lemma ReachIsBlockRoot(g: Graph, r: int, b: int)
    requires g.Valid() && g.Reach({r}, b)
    ensures g.Block(r)
  {
  }

  // ---- a trace resolves its root as an interior pointer, the second pass as a block start

  /** Everything the trace of slot i reports is also marked at the end of the phase. */
  ghost predicate TraceWithinMarks(g: Graph, slots: seq<RootSlot>, stacks: seq<Word>, i: nat)
    requires g.Valid() && i < |slots|
  {
    forall b :: g.Reach(InteriorRoots([slots[i].word]), b) ==> g.Reach(NativeRoots(slots, stacks) + SlotRoots(slots, true), b)
  }

  ghost predicate Setting(g: Graph, slots: seq<RootSlot>, stacks: seq<Word>, i: int, w: Word) {
    g.Valid() && SlotsOk(g, slots) && WordsOk(g, stacks) && 0 <= i < |slots| && slots[i] == RootSlot(true, w)
  }

  lemma TraceOfBlockStart(g: Graph, slots: seq<RootSlot>, stacks: seq<Word>, i: nat, w: Word)
    requires Setting(g, slots, stacks, i, w) && w.id == w.interior
    ensures TraceWithinMarks(g, slots, stacks, i)
  {
    var all := NativeRoots(slots, stacks) + SlotRoots(slots, true);
    forall b | g.Reach(InteriorRoots([slots[i].word]), b) ensures g.Reach(all, b) {
      var p :| g.Path(p) && p[0] in InteriorRoots([slots[i].word]) && p[|p| - 1] == b;
      assert p[0] == slots[i].word.id;
      assert slots[i].word.id in SlotRoots(slots, true);
    }
  }

  /** A heap in which an interior root is traced and not marked: no other root leads to it. */
  lemma TraceOfInteriorPointer(w: Word) returns (g: Graph, slots: seq<RootSlot>)
    requires w.id == -1 && w.interior >= 0
    ensures Setting(g, slots, [], 0, w) && !TraceWithinMarks(g, slots, [], 0)
  {
    var n := w.interior + 1;
    g := Graph(seq(n, _ => false), seq(n, _ => []));
    slots := [RootSlot(true, w)];
    assert InteriorRoots([slots[0].word]) == {w.interior} by { assert [slots[0].word][0].interior == w.interior; }
    ReachRoot(g, InteriorRoots([slots[0].word]), w.interior);
    assert NativeRoots(slots, []) + SlotRoots(slots, true) == {};
  }

  /** Traces stay within the marks in every heap exactly when the word in the slot is the start
      of a block (or no block at all): when both lookups agree on it. */
  lemma TraceWithinMarksIff(w: Word)
    requires w.interior >= -1 && (w.id == -1 || w.id == w.interior)
    ensures (forall g: Graph, slots: seq<RootSlot>, stacks: seq<Word>, i: nat ::
               Setting(g, slots, stacks, i, w) ==> TraceWithinMarks(g, slots, stacks, i))
            <==> w.id == w.interior
  {
    if w.id == w.interior {
      forall g: Graph, slots: seq<RootSlot>, stacks: seq<Word>, i: nat | Setting(g, slots, stacks, i, w)
        ensures TraceWithinMarks(g, slots, stacks, i)
      {
        TraceOfBlockStart(g, slots, stacks, i, w);
      }
    } else {
      var g, slots := TraceOfInteriorPointer(w);
    }
  }
}
