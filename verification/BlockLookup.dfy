/** From an address to the word of the marking model: what the two lookups of a page answer, as block
    numbers of the whole heap. */
module BlockLookup {
  import PageModel
  import PageAllocator
  import HeapGraph
  import ForeignRoots
  import HeapRuns

  /** The word of an address `offset` bytes into a page whose blocks are numbered from `at`. */
  method Resolve(page: PageAllocator.Page, at: nat, offset: nat) returns (w: ForeignRoots.Word)
    requires page.Valid() && page.blockSize > 0
    ensures Resolves(page.Model(), page.blockSize, at, offset, w)
  {
    hide PageModel.Valid;
    var id := page.GetBlockId(offset);
    var interior := page.GetBlockInterior(offset);
    w := ForeignRoots.Word(if id < 0 then -1 else at + id, if interior < 0 then -1 else at + interior);
    LookupsAgree(page.Model(), page.blockSize, at, offset, id, interior, w);
  }

  /** The number `b` is that of an allocation that holds the address, or that starts there; -1 if none. */
  ghost predicate Resolves(p: PageModel.PageState, blockSize: nat, at: nat, offset: nat, w: ForeignRoots.Word) {
    && blockSize > 0
    && (w.interior == -1 || (w.interior >= at && PageModel.AddressIn(p, blockSize, w.interior - at, offset)))
    && (w.interior == -1 ==> forall h :: !PageModel.AddressIn(p, blockSize, h, offset))
    && (w.id == -1 || (w.id >= at && PageModel.Head(p, w.id - at) && offset == (w.id - at) * blockSize))
    && (w.id == -1 ==> forall h :: PageModel.Head(p, h) ==> offset != h * blockSize)
  }

  lemma LookupsAgree(p: PageModel.PageState, blockSize: nat, at: nat, offset: nat, id: int, interior: int, w: ForeignRoots.Word)
    requires blockSize > 0 && id >= -1 && interior >= -1
    requires w == ForeignRoots.Word(if id < 0 then -1 else at + id, if interior < 0 then -1 else at + interior)
    requires id == -1 || (PageModel.Head(p, id) && offset == id * blockSize)
    requires id == -1 ==> forall h :: PageModel.Head(p, h) ==> offset != h * blockSize
    requires interior == -1 || PageModel.AddressIn(p, blockSize, interior, offset)
    requires interior == -1 ==> forall h :: !PageModel.AddressIn(p, blockSize, h, offset)
    ensures Resolves(p, blockSize, at, offset, w)
  {
    hide PageModel.Head, PageModel.AddressIn;
  }

  /** What the marking model takes for granted of its words follows from the lookups: a word lies in the
      heap, where both lookups accept it they agree, and what they accept is a block that the heap runs
      recognise. */
  lemma ResolvedWordOk(h: HeapRuns.Heap, layout: map<nat, nat>, g: HeapGraph.Graph, page: nat, blockSize: nat, offset: nat,
                       w: ForeignRoots.Word)
    requires HeapRuns.PagesOk(h) && HeapRuns.LayoutOk(h, layout, g.Size()) && page in h.pages
    requires Resolves(h.pages[page], blockSize, layout[page], offset, w)
    ensures ForeignRoots.WordOk(g, w)
    ensures w.interior >= 0 ==> HeapRuns.Recognised(h, layout, w.interior)
    ensures w.id >= 0 ==> HeapRuns.Recognised(h, layout, w.id)
  {
    var p, at := h.pages[page], layout[page];
    hide PageModel.Valid, HeapRuns.PagesOk, HeapRuns.LayoutOk;
    PageOf(h, layout, g, page);
    if w.interior >= 0 {
      HolderIsHead(p, blockSize, w.interior - at, offset);
      assert PageModel.Head(h.pages[page], w.interior - at) && w.interior == layout[page] + (w.interior - at);
    }
    if w.id >= 0 {
      PageModel.StartIsInside(p, blockSize, w.id - at);
      PageModel.AddressUnique(p, blockSize, w.id - at, w.interior - at, offset);
    }
  }

  lemma PageOf(h: HeapRuns.Heap, layout: map<nat, nat>, g: HeapGraph.Graph, page: nat)
    requires HeapRuns.PagesOk(h) && HeapRuns.LayoutOk(h, layout, g.Size()) && page in h.pages
    ensures PageModel.Valid(h.pages[page]) && page in layout && layout[page] + h.pages[page].max <= g.Size()
  {
    hide PageModel.Valid;
  }

  lemma HolderIsHead(p: PageModel.PageState, blockSize: nat, b: int, offset: nat)
    requires blockSize > 0 && PageModel.AddressIn(p, blockSize, b, offset)
    ensures PageModel.Head(p, b) && 0 <= b < p.max
  {
  }
}
