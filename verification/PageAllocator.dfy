/** One allocator page: the lazy sweep, the two allocators, the two block lookups and the
    finalizer scan, each worked out on the page's arrays and run list. */
module PageAllocator {
  import opened PageModel

  class Page {
    const blockSize: nat
    const firstBlock: nat
    const maxBlocks: nat
    /** Null on a page of fixed-size blocks. */
    const sizes: array?<nat>
    /** The page's slice of the mark bitmap; null until the first collection. */
    var bmp: array?<bool>
    var needFlush: bool
    var runs: seq<Run>
    var current: nat

    function Model(): PageState
      reads this, sizes, bmp
    {
      PageState(firstBlock, maxBlocks,
                if sizes == null then None else Some(sizes[..]),
                if bmp == null then None else Some(bmp[..]),
                needFlush, runs, current)
    }

    ghost predicate Valid()
      reads this, sizes, bmp
    {
      PageModel.Valid(Model())
    }

    /** A page fresh from the operating system: one run over everything after the size table. */
    constructor (block: nat, first: nat, max: nat, varsize: bool)
      requires first <= max < CURSOR_RANGE
      requires !varsize ==> first == 0 && max > 0
      ensures Valid() && fresh(this) && (sizes != null ==> fresh(sizes))
      ensures blockSize == block && (sizes != null <==> varsize) && !needFlush && bmp == null
      ensures Model().first == first && Model().max == max
      ensures runs == [Run(first, max - first)] && current == 0
      ensures varsize ==> forall b :: 0 <= b < max ==> sizes[b] == 0
    {
      blockSize, firstBlock, maxBlocks := block, first, max;
      bmp, needFlush, current := null, false, 0;
      runs := [Run(Cursor(first), Cursor(max - first))];
      if varsize {
        sizes := new nat[max](_ => 0);
      } else {
        sizes := null;
      }
    }

    /** The table as the sweep of page state p has left it when it stands at block bid. */
    ghost predicate TableSweptTo(p: PageState, bid: int)
      reads sizes
      requires p.sizes.Some? ==> p.bmp.Some?
    {
      (sizes != null <==> p.sizes.Some?) && (sizes != null ==> SizesSweptTo(p, sizes[..], bid))
    }

    /** The sweep's step over an allocation or a lone block. */
    method SweepBlock(bid: nat, ghost p: PageState) returns (count: nat, dead: bool)
      requires PageModel.Valid(p) && p.bmp.Some? && bmp != null && bmp[..] == p.bmp.value
      requires p.first <= bid < p.max && TableSweptTo(p, bid)
      modifies sizes
      ensures count == Step(p, bid) && dead == !p.bmp.value[bid]
      ensures TableSweptTo(p, bid + count)
    {
      count := 1;
      dead := !bmp[bid];
      if sizes != null {
        SizesAcrossExtent(p, sizes[..], bid);
        if sizes[bid] > 0 { count := sizes[bid]; }
        if dead { sizes[bid] := 0; }
      }
    }

    /** The loop of `flush_free_list`: one walk over the page with two cursors, one over the
        blocks and one over the old runs, building the new run list and clearing dead heads. */
    method RebuildRuns(ghost p: PageState) returns (newRuns: seq<Run>)
      requires p == Model() && PageModel.Valid(p) && bmp != null
      modifies sizes
      ensures TableSweptTo(p, p.max) && NewRunsOk(p, newRuns, p.max) && CoveredTo(p, newRuns, p.max)
    {
      var bid: nat, last := firstBlock, maxBlocks;
      var oldRuns, reuse: nat := runs, current;
      newRuns := [];
      hide SweepInv;
      SweepStarts(p);
      while bid < last
        invariant TableSweptTo(p, bid)
        invariant SweepInv(p, newRuns, reuse, bid)
        decreases last - bid, |oldRuns| - reuse
      {
        SweepBounds(p, newRuns, reuse, bid);
        if reuse < |oldRuns| && oldRuns[reuse].pos == bid {
          TakeOldRun(p, newRuns, reuse, bid);
          if sizes != null { SizesAcrossRun(p, sizes[..], reuse, bid); }
          newRuns := Record(newRuns, bid, oldRuns[reuse].count);
          bid := newRuns[|newRuns| - 1].End();
          reuse := reuse + 1;
        } else {
          SweepExtent(p, newRuns, reuse, bid);
          var count, dead := SweepBlock(bid, p);
          if dead { newRuns := Record(newRuns, bid, count); }
          bid := bid + count;
        }
      }
      SweepBounds(p, newRuns, reuse, bid);
    }

    /** `flush_free_list` */
    method Flush()
      requires Valid() && bmp != null
      modifies this`runs, this`current, this`needFlush, sizes
      ensures Valid() && Swept(old(Model()), Model())
    {
      ghost var p := Model();
      var newRuns := RebuildRuns(p);
      runs := newRuns;
      current := 0;
      needFlush := false;
      SweepResultValid(p, Model());
    }

    /** The page's part of `gc_alloc_fixed`: one block, or -1 when the page is full. */
    method AllocFixed() returns (bid: int, ghost mid: PageState)
      requires Valid() && sizes == null
      modifies this`runs, this`current, this`needFlush
      ensures Valid() && Settled(old(Model()), mid)
      ensures bid == -1 ==> Model() == mid && forall b :: !Free(mid, b)
      ensures bid != -1 ==> mid.current < |mid.runs| && bid == mid.runs[mid.current].pos
                            && Model() == TakeFromRun(mid, mid.current, 1)
    {
      hide PageModel.Valid, Swept;
      RunBounds(Model());
      if needFlush { Flush(); }
      mid := Model();
      RunBounds(mid);
      if current < |runs| {
        TakeFixedOk(mid);
        var c := runs[current];
        bid := c.pos;
        runs := runs[current := Run(Cursor(c.pos + 1), c.count - 1)];
        if c.count == 1 { current := current + 1; }
      } else {
        bid := -1;
        assert forall b :: !Free(mid, b);
      }
    }

    method FindRun(n: nat) returns (k: int)
      requires current <= |runs|
      ensures k == FirstFit(runs, current, n)
    {
      k := current;
      while k < |runs|
        invariant current <= k <= |runs|
        invariant FirstFit(runs, current, n) == FirstFit(runs, k, n)
      {
        if runs[k].count >= n { return; }
        k := k + 1;
      }
      k := -1;
    }

    /** The page's part of `gc_alloc_var`: n consecutive blocks from the first run that has them,
        or -1 when none has. */
    method AllocVar(n: nat) returns (bid: int, ghost mid: PageState)
      requires Valid() && sizes != null && 0 < n < 255
      modifies this`runs, this`current, this`needFlush, sizes, bmp
      ensures Valid() && Settled(old(Model()), mid) && bmp == old(bmp)
      ensures var k := FirstFit(mid.runs, mid.current, n);
              if k == -1 then bid == -1 && Model() == mid
              else bid == mid.runs[k].pos && Model() == TakeVar(mid, k, n)
    {
      hide PageModel.Valid, Swept, WriteExtent, FirstFit;
      RunBounds(Model());
      if needFlush { Flush(); }
      mid := Model();
      RunBounds(mid);
      var k := FindRun(n);
      if k < 0 { return -1, mid; }
      TakeVarValid(mid, k, n);
      var c := runs[k];
      bid := c.pos;
      runs := runs[k := Run(Cursor(c.pos + n), c.count - n)];
      if c.count == n { current := current + 1; }
      EnterExtent(bid, n);
    }

    /** Marks the head when there is a bitmap, zeroes the extent's table entries and writes its size. */
    method EnterExtent(bid: nat, n: nat)
      requires sizes != null && bid + n <= sizes.Length && 0 < n
      requires bmp != null ==> bmp.Length == sizes.Length
      modifies sizes, bmp
      ensures sizes[..] == WriteExtent(old(sizes[..]), bid, n)
      ensures bmp != null ==> bmp[..] == old(bmp[..])[bid := true]
    {
      if bmp != null { bmp[bid] := true; }
      if n > 1 {
        forall i | bid <= i < bid + n { sizes[i] := 0; }
      }
      sizes[bid] := n % 256;
    }

    /** `gc_allocator_get_block_id` on a byte offset into the page: accepts exactly the starts
        of allocations. */
    method GetBlockId(offset: nat) returns (r: int)
      requires Valid() && blockSize > 0
      ensures r == -1 || (Head(Model(), r) && offset == r * blockSize)
      ensures r == -1 ==> forall h :: Head(Model(), h) ==> offset != h * blockSize
    {
      var bid := offset / blockSize;
      if bid * blockSize != offset {
        forall h | Head(Model(), h) ensures offset != h * blockSize {
          if offset == h * blockSize { BlockOfOffset(blockSize, offset, h, 1); assert false; }
        }
        return -1;
      }
      forall h | Head(Model(), h) && offset == h * blockSize ensures h == bid {
        StartIsInside(Model(), blockSize, h);
        BlockOfOffset(blockSize, offset, h, 1);
      }
      if bid >= maxBlocks { return -1; }
      if sizes != null {
        if bid < firstBlock { return -1; }
        if sizes[bid] == 0 { return -1; }
      }
      return bid;
    }

    /** `gc_allocator_get_block_interior`: walks back to the closest recorded head; maps any
        address to the one allocation that holds it, or to -1 when none does. */
    method GetBlockInterior(offset: nat) returns (r: int)
      requires Valid() && blockSize > 0
      ensures r == -1 || AddressIn(Model(), blockSize, r, offset)
      ensures r == -1 ==> forall h :: !AddressIn(Model(), blockSize, h, offset)
    {
      hide PageModel.Valid;
      ghost var p := Model();
      RunBounds(p);
      forall h { AddressBlock(p, blockSize, h, offset); }
      var bid := offset / blockSize;
      if bid >= maxBlocks {
        forall h | Head(p, h) { LastBlockOf(p, h); }
        return -1;
      }
      if sizes != null {
        if bid < firstBlock { return -1; }
        var start := bid;
        while sizes[bid] == 0
          invariant firstBlock <= bid <= start < maxBlocks
          invariant NoHeadBetween(p, bid, start)
          decreases bid
        {
          if bid == firstBlock {
            assert forall h :: !Covers(p, h, start);
            return -1;
          }
          bid := bid - 1;
        }
        var size := sizes[bid];
        if start - bid >= size {
          forall h { ClosestHeadMisses(p, bid, start, h); }
          return -1;
        }
        assert Covers(p, bid, start);
      }
      assert Covers(p, bid, offset / blockSize);
      return bid;
    }

    /** The page's part of `gc_call_finalizers`: forgets every unmarked allocation and calls the
        finalizer of those that have one, in block order. It reads the size table of every block: the
        scan faults at the first one exactly if the page has no table. */
    method CallFinalizers(hasFinalizer: seq<bool>) returns (called: seq<nat>, faulted: bool)
      requires Valid() && bmp != null && |hasFinalizer| == maxBlocks
      modifies sizes
      ensures faulted <==> sizes == null && firstBlock < maxBlocks
      ensures sizes == null ==> called == [] && Model() == old(Model())
      ensures sizes != null ==> Valid() && DeadCleared(old(Model()), Model())
      ensures forall i, j :: 0 <= i < j < |called| ==> called[i] < called[j]
      ensures sizes != null ==>
                forall h :: h in called <==> Head(old(Model()), h) && !Marked(old(Model()), h) && hasFinalizer[h]
    {
      hide PageModel.Valid, SizesSweptTo;
      ghost var p := Model();
      RunBounds(p);
      if sizes != null { SizesUnswept(p); }
      called := [];
      faulted := false;
      var bid := firstBlock;
      while bid < maxBlocks
        invariant firstBlock <= bid <= maxBlocks
        invariant sizes == null ==> called == [] && bid == firstBlock
        invariant sizes != null ==> SizesSweptTo(p, sizes[..], bid)
        invariant forall i :: 0 <= i < |called| ==> called[i] < bid
        invariant forall i, j :: 0 <= i < j < |called| ==> called[i] < called[j]
        invariant sizes != null ==> forall h :: h in called <==> Head(p, h) && h < bid && !Marked(p, h) && hasFinalizer[h]
      {
        if sizes == null { return called, true; }
        var size := sizes[bid];
        SizesAcrossBlock(p, sizes[..], bid);
        assert (Head(p, bid) <==> size != 0) && (Marked(p, bid) <==> bmp[bid]);
        ghost var before := called;
        if size != 0 && !bmp[bid] {
          sizes[bid] := 0;
          if hasFinalizer[bid] { called := called + [bid]; }
        }
        assert forall h :: h in called <==> h in before || (h == bid && |called| > |before|);
        bid := bid + 1;
      }
      if sizes != null {
        SizesAllSwept(p, Model());
        DeadClearedOk(p, Model());
      }
    }

    /** The page's part of `gc_allocator_before_mark`: a cleared slice of the bitmap, and a
        sweep owed before the next allocation. */
    method BeforeMark(slice: array<bool>)
      requires Valid() && slice.Length == maxBlocks && forall i :: 0 <= i < slice.Length ==> !slice[i]
      modifies this`bmp, this`needFlush
      ensures Valid() && bmp == slice && needFlush
      ensures Model() == old(Model()).(bmp := Some(seq(maxBlocks, i => false)), needFlush := true)
    {
      bmp := slice;
      needFlush := true;
      assert slice[..] == seq(maxBlocks, i => false);
    }

    /** The test of `gc_flush_empty_pages`: no bit of the page's slice from the first block on is set. */
    method HasNoMarks() returns (empty: bool)
      requires Valid() && bmp != null
      ensures empty <==> forall h :: !Marked(Model(), h)
    {
      var i := firstBlock;
      while i < maxBlocks
        invariant firstBlock <= i <= maxBlocks
        invariant forall j :: firstBlock <= j < i ==> !bmp[j]
      {
        if bmp[i] { assert Marked(Model(), i); return false; }
        i := i + 1;
      }
      return true;
    }
  }

  // ---- what the sweep's loop maintains

  /** Every old run behind the cursor ends there; every run ahead starts at or after it. */
  ghost predicate MetAtStart(p: PageState, nx: int, bid: int) {
    && p.current <= nx <= |p.runs|
    && (forall i :: p.current <= i < nx ==> p.runs[i].End() <= bid)
    && (forall i :: nx <= i < |p.runs| ==> bid <= p.runs[i].pos)
  }

  /** The cursor never stands strictly inside an allocation. */
  ghost predicate AtBoundary(p: PageState, bid: int) {
    forall h :: Head(p, h) && h < bid ==> h + Step(p, h) <= bid
  }

  ghost predicate NewRunsOk(p: PageState, newRuns: seq<Run>, bid: int) {
    && RunsInside(newRuns, 0, p.first, bid)
    && RunsSeparated(newRuns)
    && (p.sizes.None? ==> forall i :: 0 <= i < |newRuns| ==> newRuns[i].count > 0)
    && (forall h :: Head(p, h) && Marked(p, h) && p.sizes.Some? ==> RunsAvoid(newRuns, 0, h, h + Step(p, h)))
  }

  ghost predicate CoveredTo(p: PageState, newRuns: seq<Run>, bid: int) {
    forall b :: p.first <= b < bid ==> (InRuns(newRuns, 0, b) <==> Free(p, b) || !Kept(p, b))
  }

  ghost predicate SweepInv(p: PageState, newRuns: seq<Run>, nx: int, bid: int) {
    match p case PageState(first, max, _, _, _, _, _) =>
    && p.first <= bid <= p.max
    && MetAtStart(p, nx, bid)
    && AtBoundary(p, bid)
    && NewRunsOk(p, newRuns, bid)
    && CoveredTo(p, newRuns, bid)
  }

  lemma SweepStarts(p: PageState)
    requires PageModel.Valid(p) && p.bmp.Some?
    ensures SweepInv(p, [], p.current, p.first)
  {
  }

  lemma SweepBounds(p: PageState, rs: seq<Run>, nx: int, bid: int)
    requires SweepInv(p, rs, nx, bid)
    ensures p.first <= bid <= p.max && p.current <= nx <= |p.runs|
    ensures bid == p.max ==> NewRunsOk(p, rs, p.max) && CoveredTo(p, rs, p.max)
  {
  }

  /** Behind the cursor dead heads are cleared, ahead of it nothing has changed. */
  ghost predicate SizesSweptTo(p: PageState, sz: seq<nat>, bid: int)
    requires p.sizes.Some? && p.bmp.Some?
  {
    && |sz| == |p.sizes.value| == |p.bmp.value|
    && (forall j :: 0 <= j < |sz| && j < bid ==> sz[j] == if p.bmp.value[j] then p.sizes.value[j] else 0)
    && (forall j :: bid <= j < |sz| && 0 <= j ==> sz[j] == p.sizes.value[j])
  }

  /** Notes n free blocks from position bid on: merged into the last run when it ends there,
      as a run of their own otherwise. */
  function Record(rs: seq<Run>, bid: nat, n: nat): seq<Run> {
    var l := |rs| - 1;
    if |rs| > 0 && rs[l].End() == bid
    then rs[l := Run(rs[l].pos, Cursor(rs[l].count + n))]
    else rs + [Run(Cursor(bid), Cursor(n))]
  }

  /** Recording adds exactly the n blocks, and leaves the list separated and below its new end. */
  lemma RecordAdds(rs: seq<Run>, first: int, bid: nat, n: nat)
    requires bid + n < CURSOR_RANGE && first <= bid
    requires RunsInside(rs, 0, first, bid) && RunsSeparated(rs)
    ensures var rs' := Record(rs, bid, n);
            && RunsInside(rs', 0, first, bid + n) && RunsSeparated(rs')
            && |rs'| > 0 && rs'[|rs'| - 1].End() == bid + n
            && forall b :: InRuns(rs', 0, b) <==> InRuns(rs, 0, b) || bid <= b < bid + n
  {
    var rs' := Record(rs, bid, n);
    var l := |rs| - 1;
    if |rs| > 0 && rs[l].End() == bid {
      assert rs' == rs[l := Run(rs[l].pos, rs[l].count + n)];
      forall b ensures InRuns(rs', 0, b) <==> InRuns(rs, 0, b) || bid <= b < bid + n {
        InRunsGrowLast(rs, n, b);
      }
    } else {
      assert rs' == rs + [Run(bid, n)];
      forall b ensures InRuns(rs', 0, b) <==> InRuns(rs, 0, b) || bid <= b < bid + n {
        InRunsAppend(rs, Run(bid, n), b);
      }
      forall i | 0 <= i < |rs| ensures rs[i].End() < bid {
        if i < l { assert rs[i].End() < rs[l].pos; }
      }
    }
  }

  /** Recording blocks of no marked allocation keeps the list clear of all marked ones. */
  lemma RecordOk(p: PageState, rs: seq<Run>, bid: nat, n: nat)
    requires PageModel.Valid(p) && p.bmp.Some?
    requires p.first <= bid && bid + n <= p.max
    requires AtBoundary(p, bid) && NewRunsOk(p, rs, bid)
    requires forall h :: bid <= h < bid + n && Head(p, h) && Marked(p, h) ==> p.sizes.None?
    requires p.sizes.None? ==> n > 0
    ensures NewRunsOk(p, Record(rs, bid, n), bid + n)
  {
    RecordAdds(rs, p.first, bid, n);
    forall h | Head(p, h) && Marked(p, h) && p.sizes.Some?
      ensures RunsAvoid(Record(rs, bid, n), 0, h, h + Step(p, h))
    {
      assert RunsAvoid(rs, 0, h, h + Step(p, h));
    }
  }

  lemma TakeOldRun(p: PageState, rs: seq<Run>, nx: int, bid: nat)
    requires PageModel.Valid(p) && p.bmp.Some? && SweepInv(p, rs, nx, bid)
    requires nx < |p.runs| && p.runs[nx].pos == bid
    ensures var rs' := Record(rs, bid, p.runs[nx].count);
            && SweepInv(p, rs', nx + 1, p.runs[nx].End())
            && |rs'| > 0 && rs'[|rs'| - 1].End() == p.runs[nx].End()
  {
    var n := p.runs[nx].count;
    RecordAdds(rs, p.first, bid, n);
    forall h | Head(p, h) && p.sizes.Some?
      ensures !(bid <= h < bid + n)
      ensures h < bid + n ==> h + Step(p, h) <= bid + n
    {
      assert RunsAvoid(p.runs, p.current, h, h + p.sizes.value[h]);
    }
    RecordOk(p, rs, bid, n);
    forall b | bid <= b < bid + n ensures Free(p, b) {
      assert p.runs[nx].pos <= b < p.runs[nx].End();
    }
  }

  /** The cursor stands on an allocation or a lone block; all its blocks share its fate. */
  lemma ExtentAtCursor(p: PageState, bid: nat, b: nat)
    requires PageModel.Valid(p) && p.bmp.Some? && p.first <= bid < p.max
    requires AtBoundary(p, bid) && bid <= b < bid + Step(p, bid)
    ensures Kept(p, b) <==> p.bmp.value[bid]
  {
    if p.bmp.value[bid] {
      assert Marked(p, bid) && Covers(p, bid, b);
    }
    if Kept(p, b) {
      var h :| Marked(p, h) && Covers(p, h, b);
      assert h == bid;
    }
  }

  lemma MarkedExtentNotFree(p: PageState, nx: int, bid: nat, b: nat)
    requires PageModel.Valid(p) && p.bmp.Some? && p.first <= bid < p.max && p.bmp.value[bid]
    requires MetAtStart(p, nx, bid) && (nx < |p.runs| ==> p.runs[nx].pos != bid)
    requires bid <= b < bid + Step(p, bid)
    ensures !Free(p, b)
  {
    if p.sizes.Some? {
      assert Marked(p, bid);
      ExtentsNotFree(p, bid, b);
    }
  }

  lemma PastExtent(p: PageState, nx: int, bid: nat)
    requires PageModel.Valid(p) && p.first <= bid < p.max
    requires MetAtStart(p, nx, bid) && AtBoundary(p, bid)
    requires nx < |p.runs| ==> p.runs[nx].pos != bid
    ensures bid + Step(p, bid) <= p.max
    ensures MetAtStart(p, nx, bid + Step(p, bid)) && AtBoundary(p, bid + Step(p, bid))
  {
    if Head(p, bid) && p.sizes.Some? {
      assert RunsAvoid(p.runs, p.current, bid, bid + p.sizes.value[bid]);
    }
  }

  /** One step over an allocation or a lone block: recorded as free when it is not marked. */
  lemma SweepExtent(p: PageState, rs: seq<Run>, nx: int, bid: nat)
    requires PageModel.Valid(p) && p.bmp.Some? && SweepInv(p, rs, nx, bid) && bid < p.max
    requires nx < |p.runs| ==> p.runs[nx].pos != bid
    ensures var rs' := if p.bmp.value[bid] then rs else Record(rs, bid, Step(p, bid));
            SweepInv(p, rs', nx, bid + Step(p, bid))
  {
    PastExtent(p, nx, bid);
    if p.bmp.value[bid] {
      PassMarked(p, rs, nx, bid);
    } else {
      TakeDead(p, rs, bid);
    }
  }

  lemma PassMarked(p: PageState, rs: seq<Run>, nx: int, bid: nat)
    requires PageModel.Valid(p) && p.bmp.Some? && SweepInv(p, rs, nx, bid) && bid < p.max && p.bmp.value[bid]
    requires nx < |p.runs| ==> p.runs[nx].pos != bid
    ensures NewRunsOk(p, rs, bid + Step(p, bid)) && CoveredTo(p, rs, bid + Step(p, bid))
  {
    forall b | bid <= b < bid + Step(p, bid) ensures Kept(p, b) && !Free(p, b) {
      ExtentAtCursor(p, bid, b);
      MarkedExtentNotFree(p, nx, bid, b);
    }
  }

  lemma TakeDead(p: PageState, rs: seq<Run>, bid: nat)
    requires PageModel.Valid(p) && p.bmp.Some? && p.first <= bid < p.max && !p.bmp.value[bid]
    requires bid + Step(p, bid) <= p.max
    requires AtBoundary(p, bid) && NewRunsOk(p, rs, bid) && CoveredTo(p, rs, bid)
    ensures var rs' := Record(rs, bid, Step(p, bid));
            NewRunsOk(p, rs', bid + Step(p, bid)) && CoveredTo(p, rs', bid + Step(p, bid))
  {
    var n := Step(p, bid);
    RecordAdds(rs, p.first, bid, n);
    forall b | bid <= b < bid + n ensures !Kept(p, b) { ExtentAtCursor(p, bid, b); }
    RecordOk(p, rs, bid, n);
  }

  lemma RunBlockHasNoSize(p: PageState, i: nat, j: nat)
    requires PageModel.Valid(p) && p.sizes.Some?
    requires p.current <= i < |p.runs| && p.runs[i].pos <= j < p.runs[i].End()
    ensures p.sizes.value[j] == 0
  {
    if p.sizes.value[j] > 0 {
      ExtentsNotFree(p, j, j);
      assert false;
    }
  }

  lemma SizesAcrossRun(p: PageState, sz: seq<nat>, i: nat, bid: nat)
    requires PageModel.Valid(p) && p.bmp.Some? && p.sizes.Some? && SizesSweptTo(p, sz, bid)
    requires p.current <= i < |p.runs| && p.runs[i].pos == bid
    ensures SizesSweptTo(p, sz, p.runs[i].End())
  {
    forall j | bid <= j < p.runs[i].End() ensures p.sizes.value[j] == 0 { RunBlockHasNoSize(p, i, j); }
  }

  lemma SizesAcrossExtent(p: PageState, sz: seq<nat>, bid: nat)
    requires PageModel.Valid(p) && p.bmp.Some? && p.sizes.Some?
    requires p.first <= bid < p.max && SizesSweptTo(p, sz, bid)
    ensures Step(p, bid) == if sz[bid] > 0 then sz[bid] else 1
    ensures SizesSweptTo(p, if p.bmp.value[bid] then sz else sz[bid := 0], bid + Step(p, bid))
  {
  }

  lemma LastBlockOf(p: PageState, h: int)
    requires PageModel.Valid(p) && Head(p, h)
    ensures h + Step(p, h) <= p.max
  {
  }

  ghost predicate NoHeadBetween(p: PageState, bid: int, start: int) {
    forall h :: bid < h <= start ==> !Head(p, h)
  }

  /** When the closest head at or before a block does not reach it, no allocation holds the block. */
  lemma ClosestHeadMisses(p: PageState, bid: int, start: int, h: int)
    requires PageModel.Valid(p) && p.sizes.Some?
    requires Head(p, bid) && bid <= start && NoHeadBetween(p, bid, start)
    requires start - bid >= p.sizes.value[bid]
    ensures !Covers(p, h, start)
  {
  }

  lemma SizesUnswept(p: PageState)
    requires PageModel.Valid(p) && p.bmp.Some? && p.sizes.Some?
    ensures p.first <= p.max && SizesSweptTo(p, p.sizes.value, p.first)
  {
  }

  lemma SizesAllSwept(p: PageState, q: PageState)
    requires PageModel.Valid(p) && p.bmp.Some? && p.sizes.Some?
    requires q == p.(sizes := q.sizes) && q.sizes.Some? && SizesSweptTo(p, q.sizes.value, p.max)
    ensures DeadCleared(p, q)
  {
  }

  lemma SizesAcrossBlock(p: PageState, sz: seq<nat>, bid: nat)
    requires PageModel.Valid(p) && p.bmp.Some? && p.sizes.Some?
    requires p.first <= bid < p.max && SizesSweptTo(p, sz, bid)
    ensures bid < |sz| && sz[bid] == p.sizes.value[bid]
    ensures SizesSweptTo(p, if sz[bid] != 0 && !p.bmp.value[bid] then sz[bid := 0] else sz, bid + 1)
  {
  }

  lemma SweepResultValid(p: PageState, q: PageState)
    requires PageModel.Valid(p) && p.bmp.Some?
    requires q == PageState(p.first, p.max, q.sizes, p.bmp, false, q.runs, 0)
    requires q.sizes.Some? == p.sizes.Some?
    requires p.sizes.Some? ==> SizesSweptTo(p, q.sizes.value, p.max)
    requires NewRunsOk(p, q.runs, p.max)
    ensures PageModel.Valid(q)
  {
    if p.sizes.Some? {
      forall h | Marked(q, h) ensures Head(q, h) {
        assert Marked(p, h);
        assert Head(p, h);
      }
      forall h | Head(q, h) ensures RunsAvoid(q.runs, q.current, h, h + q.sizes.value[h]) {
        assert Head(p, h) && Marked(p, h);
      }
    }
  }
}
