/** One page of the HashLink allocator as a value: the free runs, the table of
    block sizes, the slice of the mark bitmap, and what they mean together. */
module PageModel {

  /** `gc_fl`: a run of `count` free blocks starting at block `pos`. */
  datatype Run = Run(pos: nat, count: nat) {
    function End(): nat { pos + count }
  }

  datatype Option<+T> = None | Some(value: T)

  /** `fl_cursor` is an unsigned 16-bit integer: what is stored in a run is truncated. */
  const CURSOR_RANGE: nat := 0x1_0000

  function Cursor(x: nat): (r: nat)
    ensures r < CURSOR_RANGE
    ensures x < CURSOR_RANGE ==> r == x
  {
    x % CURSOR_RANGE
  }

  /** `sizes` is None for a page of fixed-size blocks (a NULL table in the source);
      `bmp` is None until the first collection gives the page a slice of the bitmap. */
  datatype PageState = PageState(
    first: nat,
    max: nat,
    sizes: Option<seq<nat>>,
    bmp: Option<seq<bool>>,
    needFlush: bool,
    runs: seq<Run>,
    current: nat
  )

  /** Block b lies in one of the runs from index `from` on. */
  ghost predicate InRuns(runs: seq<Run>, from: nat, b: int) {
    exists i :: from <= i < |runs| && runs[i].pos <= b < runs[i].End()
  }

  ghost predicate Free(p: PageState, b: int) { InRuns(p.runs, p.current, b) }

  /** Number of blocks the sweep steps over when it stands on block b. */
  function Step(p: PageState, b: nat): (n: nat)
    requires p.sizes.Some? ==> b < |p.sizes.value|
  {
    if p.sizes.Some? && p.sizes.value[b] > 0 then p.sizes.value[b] else 1
  }

  /** Block h starts an allocation that the lookups recognise. On a fixed page every block does. */
  ghost predicate Head(p: PageState, h: int) {
    p.first <= h < p.max &&
    (p.sizes.Some? ==> h < |p.sizes.value| && p.sizes.value[h] > 0)
  }

  /** Block b belongs to the allocation that starts at h. */
  ghost predicate Covers(p: PageState, h: int, b: int) {
    Head(p, h) && h <= b < h + Step(p, h)
  }

  ghost predicate Marked(p: PageState, h: int) {
    p.bmp.Some? && 0 <= h < |p.bmp.value| && p.bmp.value[h]
  }

  /** Block b belongs to a marked allocation. */
  ghost predicate Kept(p: PageState, b: int) {
    exists h :: Marked(p, h) && Covers(p, h, b)
  }

  ghost predicate RunsInside(runs: seq<Run>, from: nat, lo: int, hi: int) {
    forall i :: from <= i < |runs| ==> lo <= runs[i].pos && runs[i].End() <= hi
  }

  ghost predicate RunsSorted(runs: seq<Run>, from: nat) {
    forall i, j :: from <= i < j < |runs| ==> runs[i].End() <= runs[j].pos
  }

  /** Sorted with a gap between neighbours: no two runs could be merged. */
  ghost predicate RunsSeparated(runs: seq<Run>) {
    forall i, j :: 0 <= i < j < |runs| ==> runs[i].End() < runs[j].pos
  }

  /** No run from `from` on touches the blocks lo..hi, and none starts strictly inside them. */
  ghost predicate RunsAvoid(runs: seq<Run>, from: nat, lo: int, hi: int) {
    forall i :: from <= i < |runs| ==> runs[i].End() <= lo || hi <= runs[i].pos
  }

  /** The size table is nonzero only at extent heads: an extent is its head and zeros. */
  ghost predicate SizesWellFormed(sz: seq<nat>, first: nat, max: nat) {
    |sz| == max &&
    forall h :: 0 <= h < max && sz[h] > 0 ==>
      first <= h && h + sz[h] <= max && sz[h] < 256 &&
      forall j :: h < j < h + sz[h] ==> sz[j] == 0
  }

  ghost predicate Valid(p: PageState) {
    && p.first <= p.max < CURSOR_RANGE
    && p.current <= |p.runs|
    && RunsInside(p.runs, p.current, p.first, p.max)
    && RunsSorted(p.runs, p.current)
    && (p.bmp.Some? ==> |p.bmp.value| == p.max)
    && (p.needFlush ==> p.bmp.Some?)
    && (p.sizes.Some? ==>
          && SizesWellFormed(p.sizes.value, p.first, p.max)
          && (forall h :: Head(p, h) ==> RunsAvoid(p.runs, p.current, h, h + p.sizes.value[h]))
          && (forall h :: Marked(p, h) ==> Head(p, h)))
    && (p.sizes.None? ==>
          && p.first == 0
          && (forall i :: p.current <= i < |p.runs| ==> p.runs[i].count > 0))
  }

  /** What a lazy sweep does to a page: it hands back the old free runs and every block
      outside the marked allocations, and forgets the heads of the dead ones. */
  ghost predicate Swept(p: PageState, q: PageState)
    requires Valid(p) && p.bmp.Some?
  {
    && Valid(q)
    && q.first == p.first && q.max == p.max && q.bmp == p.bmp
    && !q.needFlush && q.current == 0
    && RunsSeparated(q.runs)
    && (forall b :: p.first <= b < p.max ==> (Free(q, b) <==> Free(p, b) || !Kept(p, b)))
    && q.sizes.Some? == p.sizes.Some?
    && (p.sizes.Some? ==>
          forall b :: 0 <= b < p.max ==>
            q.sizes.value[b] == if p.bmp.value[b] then p.sizes.value[b] else 0)
  }

  // ---- extents

  /** Two allocations of a page that share a block are the same allocation. */
  lemma ExtentsDisjoint(p: PageState, h: int, h': int, b: int)
    requires Valid(p) && Covers(p, h, b) && Covers(p, h', b)
    ensures h == h'
  {
  }

  /** On a page with a size table no allocation overlaps a run the allocator can still use. */
  lemma ExtentsNotFree(p: PageState, h: int, b: int)
    requires Valid(p) && p.sizes.Some? && Covers(p, h, b)
    ensures !Free(p, b)
  {
    assert RunsAvoid(p.runs, p.current, h, h + p.sizes.value[h]);
  }

  /** A sweep keeps every marked allocation that was not already free: same head, same size, and
      none of its blocks becomes available. */
  lemma SweepKeepsMarked(p: PageState, q: PageState, h: int)
    requires Valid(p) && p.bmp.Some? && Swept(p, q)
    requires Marked(p, h) && Head(p, h)
    requires p.sizes.None? ==> !Free(p, h)
    ensures Head(q, h) && Step(q, h) == Step(p, h)
    ensures forall b :: Covers(p, h, b) ==> Covers(q, h, b) && !Free(q, b)
  {
    forall b | Covers(p, h, b) ensures Covers(q, h, b) && !Free(q, b) {
      if p.sizes.Some? { ExtentsNotFree(p, h, b); } else { assert b == h; }
      assert Kept(p, b);
    }
  }

  /** A sweep loses nothing: on a page with a size table every block is afterwards
      either available or in a marked allocation, never in between. */
  lemma SweepRecoversAll(p: PageState, q: PageState, b: int)
    requires Valid(p) && p.bmp.Some? && p.sizes.Some? && Swept(p, q)
    requires p.first <= b < p.max
    ensures Free(q, b) <==> !(exists h :: Covers(q, h, b))
  {
    if Kept(p, b) {
      var h :| Marked(p, h) && Covers(p, h, b);
      assert Covers(q, h, b);
    }
    if h :| Covers(q, h, b) {
      ExtentsNotFree(q, h, b);
    }
  }

  // ---- run lists

  lemma InRunsAppend(runs: seq<Run>, r: Run, b: int)
    ensures InRuns(runs + [r], 0, b) <==> InRuns(runs, 0, b) || r.pos <= b < r.End()
  {
    var s := runs + [r];
    if InRuns(runs, 0, b) {
      var i :| 0 <= i < |runs| && runs[i].pos <= b < runs[i].End();
      assert s[i] == runs[i];
    }
    if r.pos <= b < r.End() { assert s[|runs|] == r; }
  }

  lemma InRunsGrowLast(runs: seq<Run>, n: nat, b: int)
    requires |runs| > 0
    ensures var l := |runs| - 1;
            InRuns(runs[l := Run(runs[l].pos, runs[l].count + n)], 0, b) <==>
            InRuns(runs, 0, b) || runs[l].End() <= b < runs[l].End() + n
  {
    var l := |runs| - 1;
    var s := runs[l := Run(runs[l].pos, runs[l].count + n)];
    if InRuns(runs, 0, b) {
      var i :| 0 <= i < |runs| && runs[i].pos <= b < runs[i].End();
      assert s[i].pos <= b < s[i].End();
    }
    if runs[l].End() <= b < runs[l].End() + n { assert s[l].pos <= b < s[l].End(); }
  }

  // ---- allocation

  /** The page an allocation works on: swept first when a collection has left it unswept. */
  ghost predicate Settled(p: PageState, q: PageState)
    requires Valid(p)
  {
    if p.needFlush then Swept(p, q) else q == p
  }

  /** First run from index `from` on that has n blocks left, or -1. */
  function FirstFit(runs: seq<Run>, from: nat, n: nat): (k: int)
    requires from <= |runs|
    ensures k == -1 || from <= k < |runs|
    ensures k >= 0 ==> runs[k].count >= n
    ensures forall i :: from <= i < (if k < 0 then |runs| else k) ==> runs[i].count < n
    decreases |runs| - from
  {
    if from == |runs| then -1
    else if runs[from].count >= n then from
    else FirstFit(runs, from + 1, n)
  }

  /** Takes the first n blocks of run k. The cursor moves past the run at `current` when the
      run that was used is drained, whichever run that was. */
  function TakeFromRun(p: PageState, k: nat, n: nat): PageState
    requires p.current <= k < |p.runs| && n <= p.runs[k].count
  {
    var r := p.runs[k];
    p.(runs := p.runs[k := Run(Cursor(r.pos + n), r.count - n)],
       current := if r.count == n then p.current + 1 else p.current)
  }

  function WriteExtent(sz: seq<nat>, bid: nat, n: nat): (r: seq<nat>)
    requires bid + n <= |sz|
    ensures |r| == |sz|
  {
    seq(|sz|, i requires 0 <= i < |sz| => if i == bid then n % 256 else if bid < i < bid + n then 0 else sz[i])
  }

  /** A variable-size allocation of n blocks from run k: the run shrinks, the extent is entered in
      the size table, and the head is marked when the page has a bitmap. */
  function TakeVar(p: PageState, k: nat, n: nat): PageState
    requires p.current <= k < |p.runs| && n <= p.runs[k].count && p.sizes.Some?
    requires p.runs[k].End() <= |p.sizes.value|
    requires p.bmp.Some? ==> |p.bmp.value| == |p.sizes.value|
    requires n > 0
  {
    var bid := p.runs[k].pos;
    TakeFromRun(p, k, n).(
      sizes := Some(WriteExtent(p.sizes.value, bid, n)),
      bmp := if p.bmp.Some? then Some(p.bmp.value[bid := true]) else None)
  }

  lemma RunBounds(p: PageState)
    requires Valid(p)
    ensures p.current <= |p.runs| && p.first <= p.max < CURSOR_RANGE
    ensures p.sizes.None? ==> p.first == 0
    ensures forall i :: p.current <= i < |p.runs| ==> p.runs[i].End() <= p.max
    ensures p.sizes.Some? ==> |p.sizes.value| == p.max
    ensures p.bmp.Some? ==> |p.bmp.value| == p.max
    ensures p.needFlush ==> p.bmp.Some?
    ensures p.sizes.None? ==> forall i :: p.current <= i < |p.runs| ==> p.runs[i].count > 0
  {
  }

  /** Shrinking run k from its front removes exactly those blocks from a sorted list. */
  lemma ShrinkRun(runs: seq<Run>, c: nat, k: nat, n: nat, b: int)
    requires RunsSorted(runs, c) && c <= k < |runs| && n <= runs[k].count
    ensures InRuns(runs[k := Run(runs[k].pos + n, runs[k].count - n)], c, b) <==>
            InRuns(runs, c, b) && !(runs[k].pos <= b < runs[k].pos + n)
  {
    var s := runs[k := Run(runs[k].pos + n, runs[k].count - n)];
    if InRuns(runs, c, b) && !(runs[k].pos <= b < runs[k].pos + n) {
      var i :| c <= i < |runs| && runs[i].pos <= b < runs[i].End();
      assert s[i].pos <= b < s[i].End();
    }
    if InRuns(s, c, b) {
      var i :| c <= i < |s| && s[i].pos <= b < s[i].End();
      assert runs[i].pos <= b < runs[i].End();
      assert i < k ==> runs[i].End() <= runs[k].pos;
      assert k < i ==> runs[k].End() <= runs[i].pos;
    }
  }

  /** Moving the cursor past run c removes exactly its blocks. */
  lemma SkipRun(runs: seq<Run>, c: nat, b: int)
    requires RunsSorted(runs, c) && c < |runs|
    ensures InRuns(runs, c + 1, b) <==> InRuns(runs, c, b) && !(runs[c].pos <= b < runs[c].End())
  {
    if InRuns(runs, c + 1, b) {
      var i :| c + 1 <= i < |runs| && runs[i].pos <= b < runs[i].End();
      assert runs[c].End() <= runs[i].pos;
    }
  }

  ghost predicate Inside(r: Run, b: int) { r.pos <= b < r.End() }

  /** What taking n blocks from run k does to the free blocks, exactly. The blocks of the run at
      `current` go missing when a later run is the one that was drained. */
  lemma TakeFree(p: PageState, k: nat, n: nat, b: int)
    requires Valid(p) && p.current <= k < |p.runs| && n <= p.runs[k].count
    ensures Free(TakeFromRun(p, k, n), b) <==>
            && Free(p, b)
            && !(p.runs[k].pos <= b < p.runs[k].pos + n)
            && !(p.runs[k].count == n && p.current < k && Inside(p.runs[p.current], b))
  {
    var s := p.runs[k := Run(p.runs[k].pos + n, p.runs[k].count - n)];
    assert TakeFromRun(p, k, n).runs == s;
    ShrinkRun(p.runs, p.current, k, n, b);
    if p.runs[k].count == n { SkipRun(s, p.current, b); }
  }

  /** A fixed-size allocation hands out the least available block and changes nothing else. */
  lemma TakeFixedOk(p: PageState)
    requires Valid(p) && p.sizes.None? && p.current < |p.runs|
    ensures var bid, q := p.runs[p.current].pos, TakeFromRun(p, p.current, 1);
            && Valid(q) && Free(p, bid)
            && (forall b :: Free(p, b) ==> bid <= b)
            && (forall b :: Free(q, b) <==> Free(p, b) && b != bid)
  {
    assert Inside(p.runs[p.current], p.runs[p.current].pos);
    forall b { TakeFree(p, p.current, 1, b); }
  }

  /** The extent entered by an allocation is made of blocks that were free and are not any more. */
  lemma TakeVarFree(p: PageState, k: nat, n: nat)
    requires Valid(p) && p.sizes.Some? && 0 < n < 256
    requires p.current <= k < |p.runs| && n <= p.runs[k].count
    ensures var bid, q := p.runs[k].pos, TakeVar(p, k, n);
            forall b :: bid <= b < bid + n ==> Free(p, b) && !Free(q, b) && p.sizes.value[b] == 0
  {
    var bid := p.runs[k].pos;
    forall b | bid <= b < bid + n ensures Free(p, b) && !Free(TakeVar(p, k, n), b) && p.sizes.value[b] == 0 {
      assert Inside(p.runs[k], b);
      TakeFree(p, k, n, b);
      FreeBlockHasNoSize(p, b);
    }
  }

  lemma FreeBlockHasNoSize(p: PageState, b: nat)
    requires Valid(p) && p.sizes.Some? && b < p.max && Free(p, b)
    ensures p.sizes.value[b] == 0
  {
    if p.sizes.value[b] > 0 {
      ExtentsNotFree(p, b, b);
      assert false;
    }
  }

  lemma WriteExtentWellFormed(sz: seq<nat>, first: nat, max: nat, bid: nat, n: nat)
    requires SizesWellFormed(sz, first, max) && first <= bid && bid + n <= max && 0 < n < 256
    requires forall h :: 0 <= h < max && sz[h] > 0 ==> h + sz[h] <= bid || bid + n <= h
    ensures SizesWellFormed(WriteExtent(sz, bid, n), first, max)
  {
  }

  lemma ExtentsClearOfTaken(p: PageState, k: nat, n: nat)
    requires Valid(p) && p.sizes.Some? && p.current <= k < |p.runs| && n <= p.runs[k].count
    ensures forall h :: Head(p, h) ==> h + Step(p, h) <= p.runs[k].pos || p.runs[k].pos + n <= h
  {
    forall h | Head(p, h) ensures h + Step(p, h) <= p.runs[k].pos || p.runs[k].pos + n <= h {
      assert RunsAvoid(p.runs, p.current, h, h + p.sizes.value[h]);
    }
  }

  /** A variable-size allocation adds one extent; every other extent stands as it was. */
  lemma TakeVarHeads(p: PageState, k: nat, n: nat)
    requires Valid(p) && p.sizes.Some? && 0 < n < 256
    requires p.current <= k < |p.runs| && n <= p.runs[k].count
    ensures var bid, q := p.runs[k].pos, TakeVar(p, k, n);
            && SizesWellFormed(q.sizes.value, q.first, q.max)
            && Head(q, bid) && Step(q, bid) == n
            && (forall h :: h != bid ==> (Head(q, h) <==> Head(p, h)))
            && (forall h :: Head(p, h) ==> h != bid && Step(q, h) == Step(p, h) && (h + Step(p, h) <= bid || bid + n <= h))
            && (p.bmp.Some? ==> Marked(q, bid) && forall h :: h != bid ==> (Marked(q, h) <==> Marked(p, h)))
  {
    TakeVarFree(p, k, n);
    ExtentsClearOfTaken(p, k, n);
    RunBounds(p);
    RunStartsInside(p, k);
    TableOf(p);
    hide Valid;
    var sz := p.sizes.value;
    forall h | 0 <= h < p.max && sz[h] > 0 ensures h + sz[h] <= p.runs[k].pos || p.runs[k].pos + n <= h {
      assert Head(p, h);
    }
    WriteExtentWellFormed(sz, p.first, p.max, p.runs[k].pos, n);
  }

  lemma RunStartsInside(p: PageState, k: nat)
    requires Valid(p) && p.current <= k < |p.runs|
    ensures p.first <= p.runs[k].pos
  {
  }

  lemma TableOf(p: PageState)
    requires Valid(p) && p.sizes.Some?
    ensures SizesWellFormed(p.sizes.value, p.first, p.max)
  {
  }

  lemma TakeVarRuns(p: PageState, k: nat, n: nat)
    requires Valid(p) && p.sizes.Some? && 0 < n < 256
    requires p.current <= k < |p.runs| && n <= p.runs[k].count
    ensures var bid, q := p.runs[k].pos, TakeFromRun(p, k, n);
            && RunsInside(q.runs, q.current, q.first, q.max)
            && RunsSorted(q.runs, q.current)
            && RunsAvoid(q.runs, q.current, bid, bid + n)
            && (forall h :: Head(p, h) ==> RunsAvoid(q.runs, q.current, h, h + p.sizes.value[h]))
  {
    var q := TakeFromRun(p, k, n);
    assert q.runs == p.runs[k := Run(p.runs[k].pos + n, p.runs[k].count - n)];
    forall h | Head(p, h) ensures RunsAvoid(q.runs, q.current, h, h + p.sizes.value[h]) {
      assert RunsAvoid(p.runs, p.current, h, h + p.sizes.value[h]);
    }
  }

  lemma TakeVarValid(p: PageState, k: nat, n: nat)
    requires Valid(p) && p.sizes.Some? && 0 < n < 256
    requires p.current <= k < |p.runs| && n <= p.runs[k].count
    ensures Valid(TakeVar(p, k, n))
  {
    var bid, q := p.runs[k].pos, TakeVar(p, k, n);
    TakeVarHeads(p, k, n);
    TakeVarRuns(p, k, n);
    forall h | Head(q, h) ensures RunsAvoid(q.runs, q.current, h, h + q.sizes.value[h]) {
      assert h == bid || Head(p, h);
    }
  }

  /** Exactly when an allocation makes free blocks unreachable until the next sweep: it drained
      a run that is not the current one, and the current one still had blocks. */
  lemma TakeVarForgets(p: PageState, k: nat, n: nat)
    requires Valid(p) && p.current <= k < |p.runs| && n <= p.runs[k].count
    ensures (exists b :: Free(p, b) && !(p.runs[k].pos <= b < p.runs[k].pos + n) && !Free(TakeFromRun(p, k, n), b))
            <==> p.runs[k].count == n && p.current < k && p.runs[p.current].count > 0
  {
    if p.runs[k].count == n && p.current < k && p.runs[p.current].count > 0 {
      var b := p.runs[p.current].pos;
      TakeFree(p, k, n, b);
      assert Inside(p.runs[p.current], b);
      assert Free(p, b);
    }
    if b :| Free(p, b) && !(p.runs[k].pos <= b < p.runs[k].pos + n) && !Free(TakeFromRun(p, k, n), b) {
      TakeFree(p, k, n, b);
    }
  }

  // ---- lookups and finalizers

  /** Byte offset o of the page lies in the allocation that starts at block h. */
  ghost predicate AddressIn(p: PageState, blockSize: nat, h: int, o: int) {
    Head(p, h) && h * blockSize <= o < (h + Step(p, h)) * blockSize
  }

  lemma BlockOfOffset(blockSize: nat, o: nat, h: int, n: nat)
    requires blockSize > 0
    ensures h <= o / blockSize < h + n <==> h * blockSize <= o < (h + n) * blockSize
  {
    var q, r := o / blockSize, o % blockSize;
    assert o == q * blockSize + r;
    if h <= q { assert h * blockSize <= q * blockSize; } else { assert (q + 1) * blockSize <= h * blockSize; }
    if q < h + n { assert (q + 1) * blockSize <= (h + n) * blockSize; } else { assert (h + n) * blockSize <= q * blockSize; }
  }

  lemma AddressBlock(p: PageState, blockSize: nat, h: int, o: nat)
    requires blockSize > 0
    ensures AddressIn(p, blockSize, h, o) <==> Covers(p, h, o / blockSize)
  {
    if Head(p, h) { BlockOfOffset(blockSize, o, h, Step(p, h)); }
  }

  /** At most one allocation holds an address, so an address that is the start of an allocation
      means the same to both lookups. */
  lemma AddressUnique(p: PageState, blockSize: nat, h: int, h': int, o: nat)
    requires Valid(p) && blockSize > 0
    requires AddressIn(p, blockSize, h, o) && AddressIn(p, blockSize, h', o)
    ensures h == h'
  {
    AddressBlock(p, blockSize, h, o);
    AddressBlock(p, blockSize, h', o);
    ExtentsDisjoint(p, h, h', o / blockSize);
  }

  lemma StartIsInside(p: PageState, blockSize: nat, h: nat)
    requires blockSize > 0 && Head(p, h)
    ensures AddressIn(p, blockSize, h, h * blockSize)
  {
    assert (h + Step(p, h)) * blockSize == h * blockSize + Step(p, h) * blockSize;
    assert Step(p, h) * blockSize > 0;
  }

  /** The table after unmarked heads are cleared. */
  ghost predicate DeadCleared(p: PageState, q: PageState)
    requires Valid(p) && p.bmp.Some? && p.sizes.Some?
  {
    && q == p.(sizes := q.sizes) && q.sizes.Some? && |q.sizes.value| == p.max
    && forall b :: 0 <= b < p.max ==> q.sizes.value[b] == if p.bmp.value[b] then p.sizes.value[b] else 0
  }

  /** Clearing the heads of unmarked allocations leaves a consistent page on which a lookup
      recognises exactly the marked allocations; nothing becomes available by it. */
  lemma DeadClearedOk(p: PageState, q: PageState)
    requires Valid(p) && p.bmp.Some? && p.sizes.Some? && DeadCleared(p, q)
    ensures Valid(q)
    ensures forall h :: Head(q, h) <==> Head(p, h) && Marked(p, h)
    ensures forall h :: Head(q, h) ==> Step(q, h) == Step(p, h)
    ensures forall b :: (Free(q, b) <==> Free(p, b)) && (Kept(q, b) <==> Kept(p, b))
  {
    forall h | Marked(q, h) ensures Head(q, h) {
      assert Marked(p, h);
      assert Head(p, h);
    }
    forall h | Head(q, h) ensures RunsAvoid(q.runs, q.current, h, h + q.sizes.value[h]) {
      assert Head(p, h);
    }
    forall b ensures Kept(q, b) <==> Kept(p, b) {
      if Kept(p, b) { var h :| Marked(p, h) && Covers(p, h, b); assert Covers(q, h, b); }
      if Kept(q, b) { var h :| Marked(q, h) && Covers(q, h, b); assert Covers(p, h, b); }
    }
  }
}
