/** The whole heap over any run of allocations, stores, sweeps and collections. It composes what
    a mark phase leaves in the bitmap with lazy sweeping, release of empty pages and reuse. */
module HeapRuns {
  import opened PageModel
  import HeapGraph
  import ForeignRoots

  /** One allocation ever made: the page, the first block and the number of blocks. Its identity
      is its index in the history. */
  datatype Alloc = Alloc(page: nat, head: nat, len: nat)

  /** Page identities are never reused: a page that is released and one that is mapped later are
      different pages even if the operating system hands back the same addresses.
      `kept` holds the allocations that were reachable at every collection since they were made;
      `calls` is the log of finalizer calls. */
  datatype Heap = Heap(
    pages: map<nat, PageState>,
    nextPage: nat,
    large: set<nat>,
    finalizerPages: set<nat>,
    allocs: seq<Alloc>,
    kept: set<nat>,
    calls: seq<nat>
  )

  const EMPTY := Heap(map[], 0, {}, {}, [], {}, [])

  // ---- steps

  function FreshPage(first: nat, max: nat, varsize: bool): PageState
    requires first <= max
  {
    PageState(first, max, if varsize then Some(seq(max, _ => 0)) else None, None, false, [Run(first, max - first)], 0)
  }

  function LargePage(): PageState { PageState(0, 1, None, None, false, [Run(0, 1)], 0) }

  /** A page is mapped for blocks below a megabyte; of finalizer kind it then has a size table. */
  ghost predicate AddsPage(h: Heap, h': Heap, first: nat, max: nat, varsize: bool, finalizer: bool) {
    && first < max < CURSOR_RANGE && (!varsize ==> first == 0) && (finalizer ==> varsize)
    && h' == h.(pages := h.pages[h.nextPage := FreshPage(first, max, varsize)], nextPage := h.nextPage + 1,
                finalizerPages := if finalizer then h.finalizerPages + {h.nextPage} else h.finalizerPages)
  }

  /** A block of a megabyte or more gets a page of its own, of finalizer kind or not, without a size
      table; the page's free run still covers it. */
  ghost predicate AllocatesLarge(h: Heap, h': Heap, finalizer: bool) {
    h' == h.(pages := h.pages[h.nextPage := LargePage()], nextPage := h.nextPage + 1, large := h.large + {h.nextPage},
             finalizerPages := if finalizer then h.finalizerPages + {h.nextPage} else h.finalizerPages,
             allocs := h.allocs + [Alloc(h.nextPage, 0, 1)], kept := h.kept + {|h.allocs|})
  }

  ghost predicate Handed(h: Heap, h': Heap, page: nat, q: PageState, bid: nat, n: nat) {
    h' == h.(pages := h.pages[page := q], allocs := h.allocs + [Alloc(page, bid, n)], kept := h.kept + {|h.allocs|})
  }

  /** `gc_alloc_fixed` finds room on a page. */
  ghost predicate AllocatesFixed(h: Heap, h': Heap, page: nat, mid: PageState) {
    && page in h.pages && page !in h.large && Valid(h.pages[page]) && h.pages[page].sizes.None?
    && Settled(h.pages[page], mid) && mid.current < |mid.runs| && mid.runs[mid.current].count > 0
    && Handed(h, h', page, TakeFromRun(mid, mid.current, 1), mid.runs[mid.current].pos, 1)
  }

  /** `gc_alloc_var` finds room for n blocks on a page. */
  ghost predicate AllocatesVar(h: Heap, h': Heap, page: nat, mid: PageState, k: nat, n: nat) {
    && page in h.pages && Valid(h.pages[page]) && h.pages[page].sizes.Some?
    && Settled(h.pages[page], mid) && Valid(mid) && mid.sizes.Some? && 0 < n < 255
    && mid.current <= |mid.runs| && k == FirstFit(mid.runs, mid.current, n)
    && Handed(h, h', page, TakeVar(mid, k, n), mid.runs[k].pos, n)
  }

  /** A page is swept outside an allocation (when free memory is counted). */
  ghost predicate Sweeps(h: Heap, h': Heap, page: nat, q: PageState) {
    && page in h.pages && Valid(h.pages[page]) && h.pages[page].needFlush
    && Swept(h.pages[page], q) && h' == h.(pages := h.pages[page := q])
  }

  /** Where each page's slice of the mark bitmap starts. */
  ghost predicate LayoutOk(h: Heap, layout: map<nat, nat>, size: nat) {
    && layout.Keys == h.pages.Keys
    && (forall p :: p in layout ==> layout[p] + h.pages[p].max <= size)
    && (forall p, q :: p in layout && q in layout && p != q ==>
          layout[p] + h.pages[p].max <= layout[q] || layout[q] + h.pages[q].max <= layout[p])
  }

  /** Bit b of the bitmap belongs to a block that the lookups recognise. */
  ghost predicate Recognised(h: Heap, layout: map<nat, nat>, b: int) {
    exists p, bid :: p in h.pages && p in layout && Head(h.pages[p], bid) && b == layout[p] + bid
  }

  /** A heap graph as the marker may meet it: whatever the program has stored, every word that is
      followed was accepted by a lookup. */
  ghost predicate GraphOk(h: Heap, g: HeapGraph.Graph, layout: map<nat, nat>, roots: set<int>) {
    && g.Valid() && LayoutOk(h, layout, g.Size())
    && (forall a, b :: g.Edge(a, b) ==> Recognised(h, layout, b))
    && (forall r :: r in roots && g.Block(r) ==> Recognised(h, layout, r))
  }

  ghost function Bit(h: Heap, layout: map<nat, nat>, a: Alloc): int
    requires a.page in layout
  {
    layout[a.page] + a.head
  }

  /** A page after the marks are in: its slice of the bitmap, a sweep owed. */
  ghost function WithMarks(p: PageState, m: seq<bool>, at: nat): PageState
    requires at + p.max <= |m|
  {
    p.(bmp := Some(m[at..at + p.max]), needFlush := true)
  }

  /** The finalizer scan reads the size table of every page of finalizer kind; where one has none the
      scan, and with it the collection, faults. */
  ghost predicate ScanReadsTables(h: Heap) {
    forall p :: p in h.finalizerPages && p in h.pages ==> h.pages[p].sizes.Some?
  }

  ghost predicate Empty(p: PageState) { forall b :: !Marked(p, b) }

  /** The page state a collection leaves: with the marks, and on a finalizer page without the
      unmarked heads. */
  ghost predicate PageCollected(h: Heap, p: nat, q: PageState, m: seq<bool>, layout: map<nat, nat>)
    requires p in h.pages && p in layout && layout[p] + h.pages[p].max <= |m|
  {
    var w := WithMarks(h.pages[p], m, layout[p]);
    if p in h.finalizerPages then Valid(w) && w.sizes.Some? && DeadCleared(w, q) else q == w
  }

  /** Allocation i is what a lookup of its head finds: no later one was made there. */
  ghost predicate Occupies(h: Heap, i: nat) {
    && i < |h.allocs| && h.allocs[i].page in h.pages && Head(h.pages[h.allocs[i].page], h.allocs[i].head)
    && forall j :: i < j < |h.allocs| ==> h.allocs[j].page != h.allocs[i].page || h.allocs[j].head != h.allocs[i].head
  }

  /** Allocation i is of finalizer kind and this collection leaves it unmarked. */
  ghost predicate Dies(h: Heap, m: seq<bool>, layout: map<nat, nat>, i: nat) {
    && Occupies(h, i) && h.allocs[i].page in h.finalizerPages && h.allocs[i].page in layout
    && 0 <= Bit(h, layout, h.allocs[i]) < |m| && !m[Bit(h, layout, h.allocs[i])]
  }

  /** A collection that completes: marks exactly what the roots reach, calls the finalizers of the finalizer-kind
      allocations left unmarked (those that have one), and releases the pages without marks. */
  ghost predicate Collects(h: Heap, h': Heap, g: HeapGraph.Graph, layout: map<nat, nat>, roots: set<int>, m: seq<bool>,
                           hasFinalizer: set<nat>, newCalls: seq<nat>)
  {
    && GraphOk(h, g, layout, roots) && ForeignRoots.Exactly(g, m, roots) && ScanReadsTables(h)
    && (forall p :: p in h'.pages ==> p in h.pages && PageCollected(h, p, h'.pages[p], m, layout))
    && (forall p :: p in h.pages ==> (p in h'.pages <==> !Empty(WithMarks(h.pages[p], m, layout[p]))))
    && (forall i, j :: 0 <= i < j < |newCalls| ==> newCalls[i] != newCalls[j])
    && (forall i: nat :: i in newCalls <==> Dies(h, m, layout, i) && i in hasFinalizer)
    && h' == h.(pages := h'.pages, calls := h.calls + newCalls,
                kept := set i | i in h.kept && i < |h.allocs| && h.allocs[i].page in layout
                              && 0 <= Bit(h, layout, h.allocs[i]) < |m| && m[Bit(h, layout, h.allocs[i])])
  }

  ghost predicate Next(h: Heap, h': Heap) {
    || (exists first, max, varsize, finalizer :: AddsPage(h, h', first, max, varsize, finalizer))
    || AllocatesLarge(h, h', false) || AllocatesLarge(h, h', true)
    || (exists page, mid :: AllocatesFixed(h, h', page, mid))
    || (exists page, mid, k, n :: AllocatesVar(h, h', page, mid, k, n))
    || (exists page, q :: Sweeps(h, h', page, q))
    || (exists g, layout, roots, m, hasFinalizer, newCalls :: Collects(h, h', g, layout, roots, m, hasFinalizer, newCalls))
  }

  // ---- invariant

  /** The page still holds the allocation: same head, same size, none of it available. */
  ghost predicate Holds(h: Heap, a: Alloc) {
    && a.page in h.pages
    && var p := h.pages[a.page];
       && Head(p, a.head) && Step(p, a.head) == a.len
       && (a.page !in h.large ==> forall b :: a.head <= b < a.head + a.len ==> !Free(p, b))
  }

  ghost predicate Overlap(a: Alloc, b: Alloc) {
    a.page == b.page && a.head < b.head + b.len && b.head < a.head + a.len
  }

  ghost predicate Owned(h: Heap, p: nat, head: int) {
    exists i :: i in h.kept && i < |h.allocs| && h.allocs[i].page == p && h.allocs[i].head == head
  }

  ghost predicate PagesOk(h: Heap) {
    && (forall p :: p in h.pages ==> p < h.nextPage && Valid(h.pages[p]))
    && (forall p :: p in h.large ==> p < h.nextPage && (p in h.pages ==> h.pages[p].sizes.None?))
    && (forall p :: p in h.finalizerPages ==> p < h.nextPage && (p in h.pages ==> h.pages[p].sizes.Some? || p in h.large))
    && (forall p :: p in h.finalizerPages && p in h.large ==> p in h.pages)
    && (forall i :: 0 <= i < |h.allocs| ==> h.allocs[i].page < h.nextPage && h.allocs[i].len > 0)
    && (forall i :: i in h.kept ==> i < |h.allocs|)
  }

  ghost predicate KeptOk(h: Heap) {
    forall i :: i in h.kept && i < |h.allocs| ==>
      Holds(h, h.allocs[i]) && (h.pages[h.allocs[i].page].needFlush ==> Marked(h.pages[h.allocs[i].page], h.allocs[i].head))
  }

  ghost predicate NoOverlap(h: Heap) {
    forall i, j :: 0 <= i < j < |h.allocs| && i in h.kept ==> !Overlap(h.allocs[i], h.allocs[j])
  }

  ghost predicate FinalizersOk(h: Heap) {
    forall p, head :: p in h.finalizerPages && p in h.pages && Head(h.pages[p], head) ==> Owned(h, p, head)
  }

  ghost predicate CallsOk(h: Heap) {
    && (forall i, j :: 0 <= i < j < |h.calls| ==> h.calls[i] != h.calls[j])
    && (forall i :: i in h.calls ==> i < |h.allocs| && i !in h.kept && h.allocs[i].page in h.finalizerPages)
  }

  ghost predicate Inv(h: Heap) { PagesOk(h) && KeptOk(h) && NoOverlap(h) && FinalizersOk(h) && CallsOk(h) }

  // ---- every step keeps the invariant

  /** Replacing one page by a state that still holds what it held. */
  ghost predicate PageStill(h: Heap, page: nat, q: PageState)
  {
    && page in h.pages && Valid(q) && (q.sizes.Some? <==> h.pages[page].sizes.Some?)
    && forall i :: i in h.kept && i < |h.allocs| && h.allocs[i].page == page ==>
         var a := h.allocs[i];
         && Head(q, a.head) && Step(q, a.head) == a.len
         && (page !in h.large ==> forall b :: a.head <= b < a.head + a.len ==> !Free(q, b))
         && (q.needFlush ==> Marked(q, a.head))
  }

  lemma ReplacePage(h: Heap, page: nat, q: PageState)
    requires PagesOk(h) && KeptOk(h) && PageStill(h, page, q)
    ensures PagesOk(h.(pages := h.pages[page := q])) && KeptOk(h.(pages := h.pages[page := q]))
  {
    var h' := h.(pages := h.pages[page := q]);
    forall i | i in h'.kept && i < |h'.allocs|
      ensures Holds(h', h'.allocs[i]) && (h'.pages[h'.allocs[i].page].needFlush ==> Marked(h'.pages[h'.allocs[i].page], h'.allocs[i].head))
    {
      assert Holds(h, h.allocs[i]);
    }
  }

  lemma SweepStill(h: Heap, page: nat, q: PageState)
    requires PagesOk(h) && KeptOk(h) && page in h.pages && Settled(h.pages[page], q)
    ensures PageStill(h, page, q)
    ensures forall head :: Head(q, head) ==> Head(h.pages[page], head)
  {
    hide Valid;
    var p := h.pages[page];
    SettledShape(p, q);
    forall i | i in h.kept && i < |h.allocs| && h.allocs[i].page == page
      ensures var a := h.allocs[i];
              && Head(q, a.head) && Step(q, a.head) == a.len
              && (page !in h.large ==> forall b :: a.head <= b < a.head + a.len ==> !Free(q, b))
              && (q.needFlush ==> Marked(q, a.head))
    {
      assert Holds(h, h.allocs[i]);
      KeptBlock(h, p, q, h.allocs[i]);
    }
  }

  lemma SettledShape(p: PageState, q: PageState)
    requires Valid(p) && Settled(p, q)
    ensures Valid(q) && !q.needFlush && q.sizes.Some? == p.sizes.Some? && q.max == p.max && q.first == p.first
    ensures forall head :: Head(q, head) ==> Head(p, head)
  {
  }

  lemma KeptBlock(h: Heap, p: PageState, q: PageState, a: Alloc)
    requires Valid(p) && Settled(p, q) && Head(p, a.head) && Step(p, a.head) == a.len
    requires a.page !in h.large ==> forall b :: a.head <= b < a.head + a.len ==> !Free(p, b)
    requires p.needFlush ==> Marked(p, a.head)
    ensures Head(q, a.head) && Step(q, a.head) == a.len
    ensures a.page !in h.large ==> forall b :: a.head <= b < a.head + a.len ==> !Free(q, b)
  {
    if p.needFlush {
      if a.page !in h.large {
        assert Covers(p, a.head, a.head);
        SweepKeepsMarked(p, q, a.head);
        assert forall b :: a.head <= b < a.head + a.len ==> Covers(p, a.head, b);
      }
    }
  }

  lemma SettleKeepsInv(h: Heap, page: nat, q: PageState)
    requires Inv(h) && page in h.pages && Settled(h.pages[page], q)
    ensures Inv(h.(pages := h.pages[page := q]))
  {
    hide Valid, Settled;
    SweepStill(h, page, q);
    ReplacePage(h, page, q);
    var h' := h.(pages := h.pages[page := q]);
    forall p, head | p in h'.finalizerPages && p in h'.pages && Head(h'.pages[p], head) ensures Owned(h', p, head) {
      assert Owned(h, p, head);
    }
  }

  /** What makes a hand-out sound: the new extent is disjoint from everything the page still holds. */
  ghost predicate GoodExtent(h: Heap, page: nat, q: PageState, bid: nat, n: nat) {
    && PageStill(h, page, q) && page !in h.large && n > 0
    && Head(q, bid) && Step(q, bid) == n && (q.needFlush ==> Marked(q, bid))
    && (forall b :: bid <= b < bid + n ==> !Free(q, b))
    && (forall i :: i in h.kept && i < |h.allocs| && h.allocs[i].page == page ==> !Overlap(h.allocs[i], Alloc(page, bid, n)))
    && (forall head :: Head(q, head) ==> head == bid || Head(h.pages[page], head))
  }

  lemma HandOutKeepsInv(h: Heap, h': Heap, page: nat, q: PageState, bid: nat, n: nat)
    requires Inv(h) && GoodExtent(h, page, q, bid, n) && Handed(h, h', page, q, bid, n)
    ensures Inv(h')
  {
    hide Valid;
    ReplacePage(h, page, q);
    var h1 := h.(pages := h.pages[page := q]);
    var a := Alloc(page, bid, n);
    HandOutKept(h1, h', a);
    HandOutPages(h1, h', a);
    HandOutFinalizers(h, h', page, q, bid, n);
  }

  lemma HandOutKept(h1: Heap, h': Heap, a: Alloc)
    requires KeptOk(h1) && PagesOk(h1) && h' == h1.(allocs := h1.allocs + [a], kept := h1.kept + {|h1.allocs|})
    requires Holds(h1, a) && (h1.pages[a.page].needFlush ==> Marked(h1.pages[a.page], a.head))
    ensures KeptOk(h')
  {
    forall i | i in h'.kept && i < |h'.allocs|
      ensures Holds(h', h'.allocs[i]) && (h'.pages[h'.allocs[i].page].needFlush ==> Marked(h'.pages[h'.allocs[i].page], h'.allocs[i].head))
    {
      if i < |h1.allocs| { assert Holds(h1, h1.allocs[i]); }
    }
  }

  lemma HandOutPages(h1: Heap, h': Heap, a: Alloc)
    requires PagesOk(h1) && h' == h1.(allocs := h1.allocs + [a], kept := h1.kept + {|h1.allocs|})
    requires a.page < h1.nextPage && a.len > 0
    ensures PagesOk(h')
  {
    hide Valid;
  }

  lemma HandOutFinalizers(h: Heap, h': Heap, page: nat, q: PageState, bid: nat, n: nat)
    requires FinalizersOk(h) && GoodExtent(h, page, q, bid, n) && Handed(h, h', page, q, bid, n)
    ensures FinalizersOk(h')
  {
    hide Valid, Holds;
    forall p, head | p in h'.finalizerPages && p in h'.pages && Head(h'.pages[p], head) ensures Owned(h', p, head) {
      if p == page && head == bid {
        assert h'.allocs[|h.allocs|] == Alloc(page, bid, n);
        assert |h.allocs| in h'.kept;
      } else {
        assert Owned(h, p, head);
        var i :| i in h.kept && i < |h.allocs| && h.allocs[i].page == p && h.allocs[i].head == head;
        assert h'.allocs[i] == h.allocs[i];
      }
    }
  }

  lemma AddsPageKeepsInv(h: Heap, h': Heap, first: nat, max: nat, varsize: bool, finalizer: bool)
    requires Inv(h) && AddsPage(h, h', first, max, varsize, finalizer)
    ensures Inv(h')
  {
    FreshPageOk(first, max, varsize);
    hide Valid, FreshPage;
    assert forall i :: i in h.kept && i < |h.allocs| ==> Holds(h, h.allocs[i]);
    forall p, head | p in h'.finalizerPages && p in h'.pages && Head(h'.pages[p], head) ensures Owned(h', p, head) {
      assert Owned(h, p, head);
    }
  }

  lemma FreshPageOk(first: nat, max: nat, varsize: bool)
    requires first < max < CURSOR_RANGE && (!varsize ==> first == 0)
    ensures Valid(FreshPage(first, max, varsize)) && !FreshPage(first, max, varsize).needFlush
    ensures FreshPage(first, max, varsize).sizes.Some? == varsize
    ensures varsize ==> forall head :: !Head(FreshPage(first, max, varsize), head)
  {
  }

  lemma LargePageAdded(h: Heap, h1: Heap, finalizer: bool)
    requires Inv(h)
    requires h1 == h.(pages := h.pages[h.nextPage := LargePage()], nextPage := h.nextPage + 1, large := h.large + {h.nextPage},
                      finalizerPages := if finalizer then h.finalizerPages + {h.nextPage} else h.finalizerPages)
    ensures PagesOk(h1) && KeptOk(h1) && NoOverlap(h1)
  {
    assert Valid(LargePage());
    hide Valid;
    forall i | i in h1.kept && i < |h1.allocs|
      ensures Holds(h1, h1.allocs[i]) && (h1.pages[h1.allocs[i].page].needFlush ==> Marked(h1.pages[h1.allocs[i].page], h1.allocs[i].head))
    {
      assert Holds(h, h.allocs[i]);
    }
  }

  lemma AllocatesLargeKeepsInv(h: Heap, h': Heap, finalizer: bool)
    requires Inv(h) && AllocatesLarge(h, h', finalizer)
    ensures Inv(h')
  {
    hide Valid;
    var a := Alloc(h.nextPage, 0, 1);
    var h1 := h.(pages := h'.pages, nextPage := h'.nextPage, large := h'.large, finalizerPages := h'.finalizerPages);
    LargePageAdded(h, h1, finalizer);
    assert Holds(h1, a);
    HandOutKept(h1, h', a);
    HandOutPages(h1, h', a);
    hide Holds, KeptOk;
    forall p, head | p in h'.finalizerPages && p in h'.pages && Head(h'.pages[p], head) ensures Owned(h', p, head) {
      if p == h.nextPage {
        assert h'.allocs[|h.allocs|] == a && |h.allocs| in h'.kept;
      } else {
        assert Owned(h, p, head);
        var i :| i in h.kept && i < |h.allocs| && h.allocs[i].page == p && h.allocs[i].head == head;
        assert h'.allocs[i] == h.allocs[i];
      }
    }
  }

  lemma AllocatesFixedKeepsInv(h: Heap, h': Heap, page: nat, mid: PageState)
    requires Inv(h) && AllocatesFixed(h, h', page, mid)
    ensures Inv(h')
  {
    SettledShape(h.pages[page], mid);
    SettleKeepsInv(h, page, mid);
    var hm := h.(pages := h.pages[page := mid]);
    var bid, q := mid.runs[mid.current].pos, TakeFromRun(mid, mid.current, 1);
    TakeFixedOk(mid);
    FixedExtent(hm, page, bid, q);
    hide Inv, Valid;
    assert Handed(hm, h', page, q, bid, 1) by { assert hm.pages[page := q] == h.pages[page := q]; }
    HandOutKeepsInv(hm, h', page, q, bid, 1);
  }

  lemma FixedExtent(h: Heap, page: nat, bid: nat, q: PageState)
    requires PagesOk(h) && KeptOk(h) && page in h.pages && page !in h.large && h.pages[page].sizes.None? && !h.pages[page].needFlush
    requires Valid(q) && q == h.pages[page].(runs := q.runs, current := q.current) && Free(h.pages[page], bid)
    requires forall b :: Free(q, b) <==> Free(h.pages[page], b) && b != bid
    ensures GoodExtent(h, page, q, bid, 1)
  {
    FreeInside(h.pages[page], bid);
    hide Valid, Free;
    forall i | i in h.kept && i < |h.allocs| && h.allocs[i].page == page
      ensures var a := h.allocs[i];
              && Head(q, a.head) && Step(q, a.head) == a.len && a.head != bid
              && forall b :: a.head <= b < a.head + a.len ==> !Free(q, b)
    {
      assert Holds(h, h.allocs[i]);
      assert !Free(h.pages[page], h.allocs[i].head);
    }
  }

  lemma FreeInside(p: PageState, b: int)
    requires Valid(p) && Free(p, b)
    ensures p.first <= b < p.max
  {
  }

  lemma AllocatesVarKeepsInv(h: Heap, h': Heap, page: nat, mid: PageState, k: nat, n: nat)
    requires Inv(h) && AllocatesVar(h, h', page, mid, k, n)
    ensures Inv(h')
  {
    hide Valid, Settled, NoOverlap, FinalizersOk, CallsOk;
    SettledShape(h.pages[page], mid);
    SettleKeepsInv(h, page, mid);
    var hm := h.(pages := h.pages[page := mid]);
    FitInside(mid, k, n);
    VarExtent(hm, page, k, n);
    hide Inv, TakeVar;
    assert Handed(hm, h', page, TakeVar(mid, k, n), mid.runs[k].pos, n) by {
      assert hm.pages[page := TakeVar(mid, k, n)] == h.pages[page := TakeVar(mid, k, n)];
    }
    HandOutKeepsInv(hm, h', page, TakeVar(mid, k, n), mid.runs[k].pos, n);
  }

  lemma FitInside(p: PageState, k: nat, n: nat)
    requires Valid(p) && p.sizes.Some? && p.current <= |p.runs| && k == FirstFit(p.runs, p.current, n)
    ensures p.current <= k < |p.runs| && n <= p.runs[k].count && p.runs[k].End() <= |p.sizes.value|
    ensures p.bmp.Some? ==> |p.bmp.value| == |p.sizes.value|
  {
  }

  lemma VarExtent(h: Heap, page: nat, k: nat, n: nat)
    requires PagesOk(h) && KeptOk(h) && page in h.pages && h.pages[page].sizes.Some? && !h.pages[page].needFlush
    requires 0 < n < 255 && h.pages[page].current <= k < |h.pages[page].runs| && n <= h.pages[page].runs[k].count
    ensures GoodExtent(h, page, TakeVar(h.pages[page], k, n), h.pages[page].runs[k].pos, n)
  {
    var p := h.pages[page];
    var q, bid := TakeVar(p, k, n), p.runs[k].pos;
    TakeVarValid(p, k, n);
    TakeVarHeads(p, k, n);
    TakeVarFree(p, k, n);
    TakeVarLessFree(p, k, n);
    TakeVarFlags(p, k, n);
    hide Valid, Free, TakeVar;
    forall i | i in h.kept && i < |h.allocs| && h.allocs[i].page == page
      ensures var a := h.allocs[i];
              && Head(q, a.head) && Step(q, a.head) == a.len && !Overlap(a, Alloc(page, bid, n))
              && forall b :: a.head <= b < a.head + a.len ==> !Free(q, b)
    {
      assert Holds(h, h.allocs[i]);
    }
  }

  lemma TakeVarLessFree(p: PageState, k: nat, n: nat)
    requires Valid(p) && p.sizes.Some? && 0 < n < 256 && p.current <= k < |p.runs| && n <= p.runs[k].count
    ensures forall b :: Free(TakeVar(p, k, n), b) ==> Free(p, b)
  {
    forall b { TakeFree(p, k, n, b); }
  }

  lemma TakeVarFlags(p: PageState, k: nat, n: nat)
    requires Valid(p) && p.sizes.Some? && 0 < n < 256 && p.current <= k < |p.runs| && n <= p.runs[k].count
    ensures TakeVar(p, k, n).needFlush == p.needFlush && TakeVar(p, k, n).sizes.Some?
  {
  }

  // ---- collections

  /** Every marked bit is the bit of a recognised block: nothing else is ever a root or a target. */
  lemma MarksAreHeads(h: Heap, g: HeapGraph.Graph, layout: map<nat, nat>, roots: set<int>, m: seq<bool>, p: nat, b: nat)
    requires PagesOk(h) && GraphOk(h, g, layout, roots) && ForeignRoots.Exactly(g, m, roots)
    requires p in h.pages && b < h.pages[p].max && m[layout[p] + b]
    ensures Head(h.pages[p], b)
  {
    hide Valid;
    var x := layout[p] + b;
    assert g.Reach(roots, x);
    var path :| g.Path(path) && path[0] in roots && path[|path| - 1] == x;
    if |path| > 1 {
      assert g.Edge(path[|path| - 2], path[|path| - 2 + 1]);
    }
    assert Recognised(h, layout, x);
    var p', bid :| p' in h.pages && p' in layout && Head(h.pages[p'], bid) && x == layout[p'] + bid;
    assert p' == p;
  }

  lemma WithMarksValid(h: Heap, g: HeapGraph.Graph, layout: map<nat, nat>, roots: set<int>, m: seq<bool>, p: nat)
    requires PagesOk(h) && GraphOk(h, g, layout, roots) && ForeignRoots.Exactly(g, m, roots) && p in h.pages
    ensures p in layout && layout[p] + h.pages[p].max <= |m| && Valid(WithMarks(h.pages[p], m, layout[p]))
    ensures forall b :: 0 <= b < h.pages[p].max ==> (Marked(WithMarks(h.pages[p], m, layout[p]), b) <==> m[layout[p] + b])
  {
    var w := WithMarks(h.pages[p], m, layout[p]);
    forall b | Marked(w, b) ensures Head(w, b) {
      MarksAreHeads(h, g, layout, roots, m, p, b);
    }
    assert forall b :: Head(w, b) <==> Head(h.pages[p], b);
  }

  lemma PageAfterCollection(h: Heap, g: HeapGraph.Graph, layout: map<nat, nat>, roots: set<int>, m: seq<bool>, p: nat, q: PageState)
    requires PagesOk(h) && GraphOk(h, g, layout, roots) && ForeignRoots.Exactly(g, m, roots) && p in h.pages
    requires layout[p] + h.pages[p].max <= |m| && PageCollected(h, p, q, m, layout)
    ensures Valid(q) && q.max == h.pages[p].max && (q.sizes.Some? <==> h.pages[p].sizes.Some?)
    ensures forall b :: 0 <= b < q.max ==> (Marked(q, b) <==> m[layout[p] + b])
    ensures forall b :: Head(q, b) ==> Head(h.pages[p], b) && (p in h.finalizerPages ==> Marked(q, b))
    ensures forall b :: Head(h.pages[p], b) && Marked(q, b) ==> Head(q, b) && Step(q, b) == Step(h.pages[p], b)
    ensures forall b :: Free(q, b) <==> Free(h.pages[p], b)
  {
    WithMarksValid(h, g, layout, roots, m, p);
    var w := WithMarks(h.pages[p], m, layout[p]);
    if p in h.finalizerPages { DeadClearedOk(w, q); }
    assert forall b :: Free(w, b) <==> Free(h.pages[p], b);
    assert forall b :: Head(w, b) <==> Head(h.pages[p], b);
  }

  lemma CollectKeepsPages(h: Heap, h': Heap, g: HeapGraph.Graph, layout: map<nat, nat>, roots: set<int>, m: seq<bool>,
                          hasFinalizer: set<nat>, newCalls: seq<nat>)
    requires Inv(h) && Collects(h, h', g, layout, roots, m, hasFinalizer, newCalls)
    ensures PagesOk(h')
  {
    hide KeptOk, NoOverlap, FinalizersOk, CallsOk, ForeignRoots.Exactly, Valid, PageCollected, WithMarks, GraphOk;
    forall p | p in h'.pages ensures Valid(h'.pages[p]) && (h'.pages[p].sizes.Some? <==> h.pages[p].sizes.Some?) {
      WithMarksValid(h, g, layout, roots, m, p);
      PageAfterCollection(h, g, layout, roots, m, p, h'.pages[p]);
    }
  }

  lemma CollectKeepsKept(h: Heap, h': Heap, g: HeapGraph.Graph, layout: map<nat, nat>, roots: set<int>, m: seq<bool>,
                         hasFinalizer: set<nat>, newCalls: seq<nat>)
    requires Inv(h) && Collects(h, h', g, layout, roots, m, hasFinalizer, newCalls)
    ensures KeptOk(h')
  {
    hide NoOverlap, FinalizersOk, CallsOk, ForeignRoots.Exactly, Valid, Free, Step, PageCollected, GraphOk;
    forall i | i in h'.kept && i < |h'.allocs|
      ensures Holds(h', h'.allocs[i]) && Marked(h'.pages[h'.allocs[i].page], h'.allocs[i].head)
    {
      var a := h.allocs[i];
      assert Holds(h, a);
      WithMarksValid(h, g, layout, roots, m, a.page);
      assert Marked(WithMarks(h.pages[a.page], m, layout[a.page]), a.head);
      assert a.page in h'.pages;
      PageAfterCollection(h, g, layout, roots, m, a.page, h'.pages[a.page]);
    }
  }

  lemma CollectKeepsFinalizers(h: Heap, h': Heap, g: HeapGraph.Graph, layout: map<nat, nat>, roots: set<int>, m: seq<bool>,
                               hasFinalizer: set<nat>, newCalls: seq<nat>)
    requires Inv(h) && Collects(h, h', g, layout, roots, m, hasFinalizer, newCalls)
    ensures FinalizersOk(h')
  {
    hide NoOverlap, CallsOk, KeptOk, ForeignRoots.Exactly, Valid, Free, Step, PageCollected, WithMarks, GraphOk;
    forall p, head | p in h'.finalizerPages && p in h'.pages && Head(h'.pages[p], head) ensures Owned(h', p, head) {
      WithMarksValid(h, g, layout, roots, m, p);
      PageAfterCollection(h, g, layout, roots, m, p, h'.pages[p]);
      assert Owned(h, p, head);
      var i :| i in h.kept && i < |h.allocs| && h.allocs[i].page == p && h.allocs[i].head == head;
      assert i in h'.kept;
    }
  }

  /** On a finalizer page what a lookup finds has been reachable at every collection. */
  lemma OccupantIsKept(h: Heap, i: nat)
    requires Inv(h) && Occupies(h, i) && h.allocs[i].page in h.finalizerPages
    ensures i in h.kept
  {
    hide Valid, KeptOk, CallsOk;
    assert Owned(h, h.allocs[i].page, h.allocs[i].head);
    var j :| j in h.kept && j < |h.allocs| && h.allocs[j].page == h.allocs[i].page && h.allocs[j].head == h.allocs[i].head;
    assert Overlap(h.allocs[j], h.allocs[i]);
    assert j == i;
  }

  lemma CollectKeepsCalls(h: Heap, h': Heap, g: HeapGraph.Graph, layout: map<nat, nat>, roots: set<int>, m: seq<bool>,
                          hasFinalizer: set<nat>, newCalls: seq<nat>)
    requires Inv(h) && Collects(h, h', g, layout, roots, m, hasFinalizer, newCalls)
    ensures CallsOk(h')
  {
    hide Valid, NoOverlap, KeptOk, FinalizersOk, PagesOk;
    forall i | i in newCalls ensures i in h.kept && i !in h'.kept { OccupantIsKept(h, i); }
    forall i, j | 0 <= i < j < |h'.calls| ensures h'.calls[i] != h'.calls[j] {
      if i < |h.calls| <= j {
        assert h'.calls[i] in h.calls && h'.calls[j] in newCalls;
      }
    }
  }

  /** A collection releases a page exactly if nothing on it is reachable. */
  lemma ReleasedIff(h: Heap, h': Heap, g: HeapGraph.Graph, layout: map<nat, nat>, roots: set<int>, m: seq<bool>,
                    hasFinalizer: set<nat>, newCalls: seq<nat>, p: nat)
    requires Inv(h) && Collects(h, h', g, layout, roots, m, hasFinalizer, newCalls) && p in h.pages
    ensures p in layout && g.Valid() && (p in h'.pages <==> exists b :: Reached(h, g, layout, roots, p, b))
  {
    hide KeptOk, NoOverlap, FinalizersOk, CallsOk, Valid, PageCollected, GraphOk;
    GraphIsValid(h, g, layout, roots);
    WithMarksValid(h, g, layout, roots, m, p);
    var w := WithMarks(h.pages[p], m, layout[p]);
    MarkedIsReached(h, g, layout, roots, m, p, w);
    assert forall b :: Marked(w, b) ==> 0 <= b < h.pages[p].max;
    if b :| Reached(h, g, layout, roots, p, b) { assert Marked(w, b); }
    if b :| Marked(w, b) { assert Reached(h, g, layout, roots, p, b); }
  }

  /** Block b of page p can be reached. */
  ghost predicate Reached(h: Heap, g: HeapGraph.Graph, layout: map<nat, nat>, roots: set<int>, p: nat, b: int)
    requires g.Valid() && p in h.pages && p in layout
  {
    0 <= b < h.pages[p].max && g.Reach(roots, layout[p] + b)
  }

  lemma GraphIsValid(h: Heap, g: HeapGraph.Graph, layout: map<nat, nat>, roots: set<int>)
    requires GraphOk(h, g, layout, roots)
    ensures g.Valid() && layout.Keys == h.pages.Keys
  {
  }

  /** Block b lies in an extent that can be reached. */
  ghost predicate InReach(h: Heap, g: HeapGraph.Graph, layout: map<nat, nat>, roots: set<int>, p: nat, b: int)
    requires g.Valid() && p in h.pages && p in layout
  {
    exists head: nat :: Covers(h.pages[p], head, b) && Reached(h, g, layout, roots, p, head)
  }

  /** On a page that stays, the sweep that the collection leaves owed makes every block available that is
      not part of something reachable, and no other. */
  lemma SpaceComesBack(h: Heap, h': Heap, g: HeapGraph.Graph, layout: map<nat, nat>, roots: set<int>, m: seq<bool>,
                       hasFinalizer: set<nat>, newCalls: seq<nat>, p: nat, q: PageState, b: nat)
    requires Inv(h) && Collects(h, h', g, layout, roots, m, hasFinalizer, newCalls)
    requires g.Valid() && p in h'.pages && h'.pages[p].sizes.Some? && h'.pages[p].first <= b < h'.pages[p].max
    requires Valid(h'.pages[p]) && h'.pages[p].bmp.Some? && Swept(h'.pages[p], q)
    ensures p in h.pages && p in layout && (Free(q, b) <==> !InReach(h, g, layout, roots, p, b))
  {
    hide KeptOk, NoOverlap, FinalizersOk, CallsOk, Valid, PageCollected, GraphOk, Free, WithMarks, Step;
    var o := h'.pages[p];
    WithMarksValid(h, g, layout, roots, m, p);
    PageAfterCollection(h, g, layout, roots, m, p, o);
    MarkedIsReached(h, g, layout, roots, m, p, o);
    if Kept(o, b) {
      var head: int :| Marked(o, head) && Covers(o, head, b);
      ExtentsNotFree(o, head, b);
      assert Covers(h.pages[p], head, b) && Reached(h, g, layout, roots, p, head);
    }
    if InReach(h, g, layout, roots, p, b) {
      var head: nat :| Covers(h.pages[p], head, b) && Reached(h, g, layout, roots, p, head);
      assert Marked(o, head) && Covers(o, head, b);
    }
  }

  lemma MarkedIsReached(h: Heap, g: HeapGraph.Graph, layout: map<nat, nat>, roots: set<int>, m: seq<bool>, p: nat, o: PageState)
    requires p in h.pages && p in layout && layout[p] + h.pages[p].max <= |m| && o.max == h.pages[p].max
    requires g.Valid() && ForeignRoots.Exactly(g, m, roots)
    requires forall b :: 0 <= b < o.max ==> (Marked(o, b) <==> m[layout[p] + b])
    ensures forall b: int :: 0 <= b < o.max ==> (Marked(o, b) <==> Reached(h, g, layout, roots, p, b))
  {
    hide Marked;
    forall b: int | 0 <= b < o.max ensures Marked(o, b) <==> Reached(h, g, layout, roots, p, b) {
      assert m[layout[p] + b] <==> g.Reach(roots, layout[p] + b);
    }
  }

  lemma CollectKeepsInv(h: Heap, h': Heap, g: HeapGraph.Graph, layout: map<nat, nat>, roots: set<int>, m: seq<bool>,
                        hasFinalizer: set<nat>, newCalls: seq<nat>)
    requires Inv(h) && Collects(h, h', g, layout, roots, m, hasFinalizer, newCalls)
    ensures Inv(h')
  {
    hide *;
    CollectKeepsPages(h, h', g, layout, roots, m, hasFinalizer, newCalls);
    CollectKeepsKept(h, h', g, layout, roots, m, hasFinalizer, newCalls);
    CollectKeepsFinalizers(h, h', g, layout, roots, m, hasFinalizer, newCalls);
    CollectKeepsCalls(h, h', g, layout, roots, m, hasFinalizer, newCalls);
    CollectKeepsOverlap(h, h', g, layout, roots, m, hasFinalizer, newCalls);
    InvOfParts(h');
  }

  lemma CollectKeepsOverlap(h: Heap, h': Heap, g: HeapGraph.Graph, layout: map<nat, nat>, roots: set<int>, m: seq<bool>,
                            hasFinalizer: set<nat>, newCalls: seq<nat>)
    requires Inv(h) && Collects(h, h', g, layout, roots, m, hasFinalizer, newCalls)
    ensures NoOverlap(h')
  {
    hide Valid, KeptOk, PagesOk, FinalizersOk, CallsOk, ForeignRoots.Exactly;
  }

  lemma InvOfParts(h: Heap)
    requires PagesOk(h) && KeptOk(h) && NoOverlap(h) && FinalizersOk(h) && CallsOk(h)
    ensures Inv(h)
  {
  }

  lemma StepKeepsInv(h: Heap, h': Heap)
    requires Inv(h) && Next(h, h')
    ensures Inv(h')
  {
    hide Inv, Collects, AllocatesVar, AllocatesFixed, AddsPage, AllocatesLarge, Sweeps;
    if first, max, varsize, finalizer :| AddsPage(h, h', first, max, varsize, finalizer) {
      AddsPageKeepsInv(h, h', first, max, varsize, finalizer);
    } else if AllocatesLarge(h, h', false) {
      AllocatesLargeKeepsInv(h, h', false);
    } else if AllocatesLarge(h, h', true) {
      AllocatesLargeKeepsInv(h, h', true);
    } else if page, mid :| AllocatesFixed(h, h', page, mid) {
      AllocatesFixedKeepsInv(h, h', page, mid);
    } else if page, mid, k, n :| AllocatesVar(h, h', page, mid, k, n) {
      AllocatesVarKeepsInv(h, h', page, mid, k, n);
    } else if page, q :| Sweeps(h, h', page, q) {
      SweepsKeepsInv(h, h', page, q);
    } else {
      var g, layout, roots, m, hasFinalizer, newCalls :| Collects(h, h', g, layout, roots, m, hasFinalizer, newCalls);
      CollectKeepsInv(h, h', g, layout, roots, m, hasFinalizer, newCalls);
    }
  }

  lemma SweepsKeepsInv(h: Heap, h': Heap, page: nat, q: PageState)
    requires Inv(h) && Sweeps(h, h', page, q)
    ensures Inv(h')
  {
    hide Inv, Valid, Swept;
    SettleKeepsInv(h, page, q);
  }

  // ---- runs

  ghost predicate History(run: seq<Heap>) {
    |run| > 0 && run[0] == EMPTY && forall t :: 0 <= t < |run| - 1 ==> Next(run[t], run[t + 1])
  }

  lemma {:induction false} RunKeepsInv(run: seq<Heap>, t: nat)
    requires History(run) && t < |run|
    ensures Inv(run[t])
  {
    hide Inv, Next;
    if t == 0 {
      EmptyInv();
    } else {
      RunKeepsInv(run, t - 1);
      StepKeepsInv(run[t - 1], run[t]);
    }
  }

  lemma EmptyInv()
    ensures Inv(EMPTY)
  {
  }

  lemma HistoryGrows(h: Heap, h': Heap)
    requires Next(h, h')
    ensures |h.allocs| <= |h'.allocs| && h.allocs == h'.allocs[..|h.allocs|]
    ensures forall i :: i in h'.kept ==> i in h.kept || |h.allocs| <= i
    ensures |h.calls| <= |h'.calls| && h.calls == h'.calls[..|h.calls|]
  {
    hide Valid, Settled, Swept;
    if g, layout, roots, m, hasFinalizer, newCalls :| Collects(h, h', g, layout, roots, m, hasFinalizer, newCalls) {
    }
  }

  /** Main result. In every state of every run: an allocation that was reachable at each collection
      so far still has its block, with its size, no part of it available for reuse; and no
      allocation made after it, dead or alive, overlaps it. */
  lemma KeptAllocationsAreSafe(run: seq<Heap>, t: nat, i: nat)
    requires History(run) && t < |run| && i in run[t].kept
    ensures i < |run[t].allocs| && Holds(run[t], run[t].allocs[i])
    ensures forall j :: i < j < |run[t].allocs| ==> !Overlap(run[t].allocs[i], run[t].allocs[j])
  {
    RunKeepsInv(run, t);
  }

  // ---- finalizer requests of a megabyte or more

  lemma LargeFinalizerStep(h: Heap, h': Heap)
    requires PagesOk(h) && Next(h, h')
    ensures h'.large !! h'.finalizerPages <==> h.large !! h.finalizerPages && !AllocatesLarge(h, h', true)
  {
    hide Valid, Settled, Swept, GraphOk, PageCollected, ForeignRoots.Exactly;
    if AllocatesLarge(h, h', true) { assert h.nextPage in h'.large * h'.finalizerPages; }
  }

  /** A collection's finalizer scan finds a table on every page it reads exactly if no finalizer request
      of a megabyte or more has been made; after one, no collection completes any more. */
  lemma {:induction false} ScanReadsTablesIff(run: seq<Heap>, t: nat)
    requires History(run) && t < |run|
    ensures ScanReadsTables(run[t]) <==> forall u :: 0 <= u < t ==> !AllocatesLarge(run[u], run[u + 1], true)
    ensures run[t].large !! run[t].finalizerPages <==> forall u :: 0 <= u < t ==> !AllocatesLarge(run[u], run[u + 1], true)
  {
    RunKeepsInv(run, t);
    hide Next, Valid, AllocatesLarge, KeptOk, NoOverlap, FinalizersOk, CallsOk;
    if t > 0 {
      ScanReadsTablesIff(run, t - 1);
      RunKeepsInv(run, t - 1);
      LargeFinalizerStep(run[t - 1], run[t]);
    }
    TablesIffDisjoint(run[t]);
  }

  lemma TablesIffDisjoint(h: Heap)
    requires PagesOk(h)
    ensures ScanReadsTables(h) <==> h.large !! h.finalizerPages
  {
    hide Valid;
  }

  /** A run in which the request is made, and in which nothing can then be collected. */
  lemma LargeFinalizerRun() returns (run: seq<Heap>)
    ensures History(run) && |run| == 2 && AllocatesLarge(run[0], run[1], true) && !ScanReadsTables(run[1])
    ensures forall h', g, layout, roots, m, hasFinalizer, newCalls :: !Collects(run[1], h', g, layout, roots, m, hasFinalizer, newCalls)
  {
    var h := Heap(map[0 := LargePage()], 1, {0}, {0}, [Alloc(0, 0, 1)], {0}, []);
    run := [EMPTY, h];
    assert EMPTY.pages[0 := LargePage()] == h.pages && EMPTY.large + {0} == {0};
    assert EMPTY.allocs + [Alloc(0, 0, 1)] == h.allocs && EMPTY.kept + {0} == h.kept;
    assert AllocatesLarge(EMPTY, h, true);
    assert 0 in h.finalizerPages && 0 in h.pages && h.pages[0].sizes.None?;
  }

  /** Finalizers over whole runs: none is called twice, and none for an allocation that has been
      reachable at every collection so far. */
  lemma FinalizersCalledAtMostOnce(run: seq<Heap>, t: nat)
    requires History(run) && t < |run|
    ensures forall i, j :: 0 <= i < j < |run[t].calls| ==> run[t].calls[i] != run[t].calls[j]
    ensures forall i :: i in run[t].calls ==> i !in run[t].kept
  {
    RunKeepsInv(run, t);
  }

  /** A finalizer runs exactly in the first collection that leaves its allocation unmarked; from then
      on a lookup of the head finds nothing, until a later allocation starts there. */
  lemma FinalizerRunsWhenFirstUnmarked(h: Heap, h': Heap, g: HeapGraph.Graph, layout: map<nat, nat>, roots: set<int>, m: seq<bool>,
                                       hasFinalizer: set<nat>, newCalls: seq<nat>, i: nat)
    requires Inv(h) && Collects(h, h', g, layout, roots, m, hasFinalizer, newCalls)
    requires i < |h.allocs| && h.allocs[i].page in h.finalizerPages
    ensures i in newCalls <==> i in h.kept && i !in h'.kept && i in hasFinalizer
    ensures i !in h'.kept && h.allocs[i].page in h'.pages && Head(h'.pages[h.allocs[i].page], h.allocs[i].head) ==>
              exists j :: i < j < |h.allocs| && j in h'.kept && h.allocs[j].page == h.allocs[i].page && h.allocs[j].head == h.allocs[i].head
  {
    hide Valid, Free, ForeignRoots.Exactly, Inv, Collects, Holds, Overlap, Head;
    CalledWhenFirstUnmarked(h, h', g, layout, roots, m, hasFinalizer, newCalls, i);
    CollectKeepsInv(h, h', g, layout, roots, m, hasFinalizer, newCalls);
    CollectAddsNothing(h, h', g, layout, roots, m, hasFinalizer, newCalls);
    if i !in h'.kept && h.allocs[i].page in h'.pages && Head(h'.pages[h.allocs[i].page], h.allocs[i].head) {
      HeadHasOwner(h', i);
    }
  }

  lemma CollectAddsNothing(h: Heap, h': Heap, g: HeapGraph.Graph, layout: map<nat, nat>, roots: set<int>, m: seq<bool>,
                           hasFinalizer: set<nat>, newCalls: seq<nat>)
    requires Collects(h, h', g, layout, roots, m, hasFinalizer, newCalls)
    ensures h'.allocs == h.allocs && h'.finalizerPages == h.finalizerPages
  {
    hide Valid, Free, ForeignRoots.Exactly;
  }

  lemma CalledWhenFirstUnmarked(h: Heap, h': Heap, g: HeapGraph.Graph, layout: map<nat, nat>, roots: set<int>, m: seq<bool>,
                                hasFinalizer: set<nat>, newCalls: seq<nat>, i: nat)
    requires Inv(h) && Collects(h, h', g, layout, roots, m, hasFinalizer, newCalls)
    requires i < |h.allocs| && h.allocs[i].page in h.finalizerPages
    ensures i in newCalls <==> i in h.kept && i !in h'.kept && i in hasFinalizer
  {
    CollectKeepsInv(h, h', g, layout, roots, m, hasFinalizer, newCalls);
    hide Valid, Free, ForeignRoots.Exactly;
    if i in newCalls { OccupantIsKept(h, i); }
    if i in h.kept && i !in h'.kept {
      assert Holds(h, h.allocs[i]);
      KeptOccupies(h, i);
      assert Dies(h, m, layout, i);
    }
  }

  /** A head found where a lost allocation was belongs to a later one. */
  lemma HeadHasOwner(h: Heap, i: nat)
    requires Inv(h) && i < |h.allocs| && i !in h.kept && h.allocs[i].page in h.finalizerPages
    requires h.allocs[i].page in h.pages && Head(h.pages[h.allocs[i].page], h.allocs[i].head)
    ensures exists j :: i < j < |h.allocs| && j in h.kept && h.allocs[j].page == h.allocs[i].page && h.allocs[j].head == h.allocs[i].head
  {
    hide Valid, Free, Head;
    var a := h.allocs[i];
    assert Owned(h, a.page, a.head);
    var j :| j in h.kept && j < |h.allocs| && h.allocs[j].page == a.page && h.allocs[j].head == a.head;
    assert j < i ==> Overlap(h.allocs[j], a);
  }

  lemma KeptOccupies(h: Heap, i: nat)
    requires Inv(h) && i in h.kept && i < |h.allocs|
    ensures Occupies(h, i)
  {
    hide Valid, Free;
    assert Holds(h, h.allocs[i]);
    forall j | i < j < |h.allocs| ensures h.allocs[j].page != h.allocs[i].page || h.allocs[j].head != h.allocs[i].head {
      assert !Overlap(h.allocs[i], h.allocs[j]);
    }
  }
}
