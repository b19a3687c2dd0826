/** The mark stack and the serial marker: `hl_gc_mark_grow`, `gc_mark_stack`, `gc_flush_mark`
    and, for a collection with foreign roots, `gc_trace_visit`. */
module Marking {
  import opened HeapGraph

  /** The null word that sits at the bottom of every mark stack. */
  const SENTINEL := -1

  /** `gc_mstack`: a buffer that starts out unallocated; `cur` is the next free slot. */
  class MarkStack {
    var buf: array<int>
    var cur: nat

    ghost predicate Valid()
      reads this, buf
    {
      && cur <= buf.Length
      && (buf.Length == 0 || (buf.Length >= 256 && cur > 0 && buf[0] == SENTINEL))
      && forall i :: 1 <= i < cur ==> buf[i] != SENTINEL
    }

    /** The pending blocks, oldest first, without the sentinel. */
    ghost function Contents(): seq<int>
      reads this, buf
      requires Valid()
    {
      if cur == 0 then [] else buf[1..cur]
    }

    constructor ()
      ensures Valid() && Contents() == [] && fresh(buf)
    {
      buf := new int[0];
      cur := 0;
    }

    /** `hl_gc_mark_grow` */
    method Grow()
      requires Valid()
      modifies this
      ensures Valid() && Contents() == old(Contents()) && fresh(buf)
      ensures buf.Length > old(buf.Length) && 0 < cur < buf.Length
    {
      var size := buf.Length;
      var nsize := if size != 0 then size * 3 / 2 / 2 * 2 else 256;
      var nbuf := new int[nsize];
      forall i | 0 <= i < cur { nbuf[i] := buf[i]; }
      ghost var was := Contents();
      buf := nbuf;
      if cur == 0 {
        buf[0] := SENTINEL;
        cur := 1;
      }
      assert Contents() == was;
    }

    method Push(b: int)
      requires Valid() && b != SENTINEL
      modifies this, buf
      ensures Valid() && Contents() == old(Contents()) + [b]
      ensures buf == old(buf) || fresh(buf)
    {
      if cur == buf.Length { Grow(); }
      buf[cur] := b;
      cur := cur + 1;
    }

    /** Reads the top word; the sentinel is put back, so an empty stack answers SENTINEL. */
    method Pop() returns (b: int)
      requires Valid() && cur > 0
      modifies this`cur
      ensures Valid()
      ensures old(Contents()) == [] ==> b == SENTINEL && Contents() == []
      ensures old(Contents()) != [] ==> b != SENTINEL && old(Contents()) == Contents() + [b]
      ensures cur > 0
    {
      cur := cur - 1;
      b := buf[cur];
      if b == SENTINEL { cur := cur + 1; }
    }
  }

  /** `gc_trace_marks`: the mark bytes a foreign trace has touched, and the blocks it reported. */
  class Trace {
    var bytes: seq<nat>
    var visits: seq<nat>

    constructor ()
      ensures bytes == [] && visits == []
    {
      bytes, visits := [], [];
    }

    /** `gc_trace_visit` */
    method Visit(bid: nat)
      modifies this
      ensures bytes == old(bytes) + [bid / 8] && visits == old(visits) + [bid]
    {
      bytes := bytes + [bid / 8];
      visits := visits + [bid];
    }
  }

  ghost predicate Distinct(s: seq<nat>) { forall i, j :: 0 <= i < j < |s| ==> s[i] != s[j] }

  ghost function Unmarked(m: seq<bool>): set<int> { set b | 0 <= b < |m| && !m[b] }

  /** Every marked block has had its successors marked, except those still on the stack. */
  ghost predicate ScannedExcept(g: Graph, m: seq<bool>, pending: seq<int>)
    requires g.Valid() && |m| == g.Size()
  {
    forall a, b :: g.Edge(a, b) && m[a] ==> m[b] || a in pending
  }

  ghost predicate OnlyReached(g: Graph, m: seq<bool>, roots: set<int>)
    requires g.Valid() && |m| == g.Size()
  {
    forall b :: 0 <= b < |m| && m[b] ==> g.Reach(roots, b)
  }

  ghost predicate PendingOk(g: Graph, m: seq<bool>, pending: seq<int>)
    requires |m| == g.Size()
  {
    forall b :: b in pending ==> g.Block(b) && m[b]
  }

  /** What a trace has recorded: each visited block once, exactly the set bits, one byte each. */
  ghost predicate TraceExact(m: seq<bool>, visits: seq<nat>, bytes: seq<nat>) {
    && Distinct(visits)
    && (forall b: nat :: b in visits <==> b < |m| && m[b])
    && |bytes| == |visits|
    && (forall i :: 0 <= i < |bytes| ==> bytes[i] == visits[i] / 8)
  }

  /** The state between two steps of the serial marker. */
  ghost predicate MarkInv(g: Graph, m: seq<bool>, pending: seq<int>, roots: set<int>) {
    && g.Valid() && |m| == g.Size()
    && PendingOk(g, m, pending)
    && ScannedExcept(g, m, pending)
    && OnlyReached(g, m, roots)
  }

  /** Tests and sets the bit of a block; a newly marked block is reported when a trace is on and
      pushed when it holds pointers. The common body of all the marking loops. */
  method MarkBlock(g: Graph, st: MarkStack, marks: array<bool>, trace: Trace?, bid: int)
    requires g.Valid() && marks.Length == g.Size() && -1 <= bid < g.Size()
    requires st.Valid() && PendingOk(g, marks[..], st.Contents())
    requires trace != null ==> TraceExact(marks[..], trace.visits, trace.bytes)
    modifies st, st.buf, marks, trace
    ensures st.Valid() && (st.buf == old(st.buf) || fresh(st.buf))
    ensures trace != null ==> TraceExact(marks[..], trace.visits, trace.bytes)
    ensures marks[..] == if bid >= 0 then old(marks[..])[bid := true] else old(marks[..])
    ensures st.Contents() == if bid >= 0 && !old(marks[..])[bid] && g.scanned[bid]
                             then old(st.Contents()) + [bid] else old(st.Contents())
    ensures old(st.cur) > 0 ==> st.cur > 0
  {
    if bid >= 0 && !marks[bid] {
      ghost var m := marks[..];
      marks[bid] := true;
      assert marks[..] == m[bid := true];
      if trace != null {
        trace.Visit(bid);
        TraceGrows(m, old(trace.visits), old(trace.bytes), bid);
      }
      if g.scanned[bid] { st.Push(bid); }
    }
    assert bid >= 0 && old(marks[..])[bid] ==> marks[..] == old(marks[..])[bid := true];
  }

  lemma TraceGrows(m: seq<bool>, visits: seq<nat>, bytes: seq<nat>, b: nat)
    requires TraceExact(m, visits, bytes) && b < |m| && !m[b]
    ensures TraceExact(m[b := true], visits + [b], bytes + [b / 8])
  {
  }

  /** The words of a block up to pos have been followed. */
  ghost predicate WordsFollowed(g: Graph, m: seq<bool>, block: int, pos: nat)
    requires g.Valid() && |m| == g.Size() && g.Block(block)
  {
    pos <= |g.words[block]| &&
    forall i :: 0 <= i < pos && g.words[block][i] >= 0 ==> m[g.words[block][i]]
  }

  /** Following one word of a block in hand. */
  lemma FollowWord(g: Graph, m: seq<bool>, pending: seq<int>, roots: set<int>, block: int, pos: nat)
    requires MarkInv(g, m, pending + [block], roots) && g.Block(block) && g.scanned[block]
    requires WordsFollowed(g, m, block, pos) && pos < |g.words[block]|
    ensures var w := g.words[block][pos];
            && (w < 0 ==> WordsFollowed(g, m, block, pos + 1))
            && (w >= 0 ==> MarkInv(g, m[w := true], (if !m[w] && g.scanned[w] then pending + [w] else pending) + [block], roots)
                           && WordsFollowed(g, m[w := true], block, pos + 1))
  {
    var w := g.words[block][pos];
    if w >= 0 {
      assert block in pending + [block];
      assert g.Edge(block, w);
      ReachStep(g, roots, block, w);
      var m' := m[w := true];
      var pending' := if !m[w] && g.scanned[w] then pending + [w] else pending;
      forall a, b | g.Edge(a, b) && m'[a] ensures m'[b] || a in pending' + [block] {
        if a == w && !m[w] { assert w in pending'; }
      }
      assert forall b :: b in pending' + [block] ==> b == w || b in pending + [block];
    }
  }

  /** A block whose words have all been followed is no longer pending. */
  lemma BlockDone(g: Graph, m: seq<bool>, pending: seq<int>, roots: set<int>, block: int)
    requires MarkInv(g, m, pending + [block], roots)
    requires g.Block(block) && WordsFollowed(g, m, block, |g.words[block]|)
    ensures MarkInv(g, m, pending, roots)
  {
    assert forall b :: b in pending ==> b in pending + [block];
    forall a, b | g.Edge(a, b) && m[a] ensures m[b] || a in pending {
      if a !in pending + [block] {
      } else if a == block {
        var i :| 0 <= i < |g.words[block]| && g.words[block][i] == b;
      }
    }
  }

  ghost predicate Grown(was: seq<bool>, now: seq<bool>) {
    |was| == |now| && forall b :: 0 <= b < |was| && was[b] ==> now[b]
  }

  lemma NothingGrown(m: seq<bool>)
    ensures Grown(m, m)
  {
  }

  lemma BitSet(was: seq<bool>, m: seq<bool>, w: nat)
    requires Grown(was, m) && w < |m|
    ensures Grown(was, m[w := true]) && Unmarked(m[w := true]) <= Unmarked(was)
    ensures if m[w] then m[w := true] == m else Unmarked(m[w := true]) < Unmarked(was)
  {
    if !m[w] { assert w in Unmarked(was) && w !in Unmarked(m[w := true]); }
  }

  ghost predicate StackReady(g: Graph, st: MarkStack, marks: array<bool>, trace: Trace?)
    reads st, st.buf, marks, trace
  {
    && st.Valid() && marks.Length == g.Size()
    && (forall b :: b in st.Contents() ==> g.Block(b) && g.scanned[b])
    && (trace != null ==> TraceExact(marks[..], trace.visits, trace.bytes))
  }

  /** The loop over a popped block's words. */
  method ScanBlock(g: Graph, st: MarkStack, marks: array<bool>, trace: Trace?, block: int, ghost roots: set<int>)
    requires StackReady(g, st, marks, trace) && st.cur > 0
    requires MarkInv(g, marks[..], st.Contents() + [block], roots) && g.Block(block) && g.scanned[block]
    modifies st, st.buf, marks, trace
    ensures StackReady(g, st, marks, trace) && st.cur > 0 && (st.buf == old(st.buf) || fresh(st.buf))
    ensures MarkInv(g, marks[..], st.Contents(), roots)
    ensures Grown(old(marks[..]), marks[..])
    ensures Unmarked(marks[..]) < Unmarked(old(marks[..])) || st.Contents() == old(st.Contents())
    ensures Unmarked(marks[..]) <= Unmarked(old(marks[..]))
  {
    hide MarkInv, WordsFollowed, TraceExact, Grown, Unmarked;
    ghost var was := marks[..];
    NothingGrown(was);
    PendingPart(g, marks[..], st.Contents(), block, roots);
    StartWords(g, marks[..], st.Contents() + [block], roots, block);
    var pos := 0;
    var words := g.words[block];
    while pos < |words|
      invariant pos <= |words|
      invariant StackReady(g, st, marks, trace) && st.cur > 0 && (st.buf == old(st.buf) || fresh(st.buf))
      invariant MarkInv(g, marks[..], st.Contents() + [block], roots)
      invariant WordsFollowed(g, marks[..], block, pos)
      invariant Grown(was, marks[..]) && Unmarked(marks[..]) <= Unmarked(was)
      invariant Unmarked(marks[..]) < Unmarked(was) || st.Contents() == old(st.Contents())
    {
      var w := words[pos];
      FollowWord(g, marks[..], st.Contents(), roots, block, pos);
      PendingPart(g, marks[..], st.Contents(), block, roots);
      if w >= 0 { BitSet(was, marks[..], w); }
      MarkBlock(g, st, marks, trace, w);
      pos := pos + 1;
    }
    BlockDone(g, marks[..], st.Contents(), roots, block);
  }

  lemma StartWords(g: Graph, m: seq<bool>, pending: seq<int>, roots: set<int>, block: int)
    requires MarkInv(g, m, pending, roots) && g.Block(block)
    ensures WordsFollowed(g, m, block, 0)
  {
  }

  lemma PendingPart(g: Graph, m: seq<bool>, pending: seq<int>, block: int, roots: set<int>)
    requires MarkInv(g, m, pending + [block], roots)
    ensures g.Valid() && |m| == g.Size() && PendingOk(g, m, pending)
    ensures g.Block(block) ==> forall i :: 0 <= i < |g.words[block]| ==> -1 <= g.words[block][i] < g.Size()
  {
    assert forall b :: b in pending ==> b in pending + [block];
  }

  /** `gc_flush_mark` with one marker: pops and scans until the sentinel comes up. */
  method FlushMark(g: Graph, st: MarkStack, marks: array<bool>, trace: Trace?, ghost roots: set<int>)
    requires StackReady(g, st, marks, trace)
    requires MarkInv(g, marks[..], st.Contents(), roots)
    modifies st, st.buf, marks, trace
    ensures StackReady(g, st, marks, trace) && st.Contents() == [] && (st.buf == old(st.buf) || fresh(st.buf))
    ensures MarkInv(g, marks[..], [], roots)
    ensures Grown(old(marks[..]), marks[..])
  {
    hide MarkInv, TraceExact;
    if st.cur == 0 { return; }
    while true
      invariant StackReady(g, st, marks, trace) && st.cur > 0 && (st.buf == old(st.buf) || fresh(st.buf))
      invariant MarkInv(g, marks[..], st.Contents(), roots)
      invariant Grown(old(marks[..]), marks[..])
      decreases Unmarked(marks[..]), |st.Contents()|
    {
      ghost var pending := st.Contents();
      var block := st.Pop();
      if block == SENTINEL { break; }
      assert block in pending;
      ScanBlock(g, st, marks, trace, block, roots);
    }
  }

  /** What a run of the marker leaves: exactly the blocks reachable from the roots it was given. */
  lemma MarkedExactly(g: Graph, m: seq<bool>, roots: set<int>)
    requires MarkInv(g, m, [], roots)
    requires forall r :: r in roots && g.Block(r) ==> m[r]
    ensures forall b :: 0 <= b < |m| ==> (m[b] <==> g.Reach(roots, b))
  {
    var s := iset b | 0 <= b < |m| && m[b];
    forall b | 0 <= b < |m| ensures m[b] <==> g.Reach(roots, b) {
      if g.Reach(roots, b) { ReachLeast(g, roots, s, b); }
    }
  }
}
