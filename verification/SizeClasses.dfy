/** Size classes and page geometry: which allocator serves a request, how large a new page is,
    where its first block lies, and that the request always fits on it. */
module SizeClasses {
  import PageModel

  const GC_SIZES: seq<nat> := [8, 16, 24, 32, 40, 8, 64, 8192, 0]
  const GC_FIXED_PARTS := 5
  const GC_LARGE_BLOCK := 1048576
  const GC_PAGE_SIZE := 65536
  const SIZES_PADDING := 8

  datatype Class = Large(size: nat) | Fixed(part: nat, size: nat) | Var(part: nat, size: nat) | Refused

  function RoundUp(x: nat, unit: nat): (r: nat)
    requires unit > 0
    ensures x <= r < x + unit && r % unit == 0
  {
    var m := x % unit;
    RoundUpExact(x, unit);
    if m == 0 then x else x + (unit - m)
  }

  lemma RoundUpExact(x: nat, unit: nat)
    requires unit > 0
    ensures x % unit != 0 ==> (x + (unit - x % unit)) % unit == 0
  {
    var q, m := x / unit, x % unit;
    assert x == q * unit + m;
    if m != 0 {
      assert x + (unit - m) == (q + 1) * unit;
      MultipleMod(q + 1, unit);
    }
  }

  lemma MultipleMod(q: nat, unit: nat)
    requires unit > 0
    ensures (q * unit) % unit == 0 && (q * unit) / unit == q
  {
    var d, r := (q * unit) / unit, (q * unit) % unit;
    assert (q - d) * unit == r && (d - q) * unit == -r;
    if q - d > 0 { AtLeastOne(q - d, unit); assert false; }
    if d - q > 0 { AtLeastOne(d - q, unit); assert false; }
  }

  lemma AtLeastOne(k: nat, unit: nat)
    requires k > 0
    ensures k * unit >= unit
  {
  }

  /** `gc_allocator_alloc`: the class of a request of `size` bytes. */
  method Classify(size: nat, finalizer: bool) returns (c: Class)
    requires size > 0
    ensures c == ClassOf(size, finalizer)
  {
    var sz := RoundUp(size, 8);
    if sz >= GC_LARGE_BLOCK { return Large(RoundUp(sz, GC_PAGE_SIZE)); }
    if sz <= GC_SIZES[GC_FIXED_PARTS - 1] && !finalizer {
      var part := sz / 8 - 1;
      return Fixed(part, GC_SIZES[part]);
    }
    var p := GC_FIXED_PARTS;
    while p < |GC_SIZES| - 1
      invariant GC_FIXED_PARTS <= p <= |GC_SIZES| - 1
      invariant FirstVar(sz, GC_FIXED_PARTS) == FirstVar(sz, p)
    {
      var query := RoundUp(sz, GC_SIZES[p]);
      if query < GC_SIZES[p] * 255 { return Var(p, query); }
      p := p + 1;
    }
    return Refused;
  }

  /** First variable-size part from `from` on whose limit of 254 blocks admits sz bytes. */
  function FirstVar(sz: nat, from: nat): Class
    requires GC_FIXED_PARTS <= from < |GC_SIZES|
    decreases |GC_SIZES| - from
  {
    if from == |GC_SIZES| - 1 then Refused
    else if RoundUp(sz, GC_SIZES[from]) < GC_SIZES[from] * 255 then Var(from, RoundUp(sz, GC_SIZES[from]))
    else FirstVar(sz, from + 1)
  }

  function ClassOf(size: nat, finalizer: bool): Class
    requires size > 0
  {
    var sz := RoundUp(size, 8);
    if sz >= GC_LARGE_BLOCK then Large(RoundUp(sz, GC_PAGE_SIZE))
    else if sz <= 40 && !finalizer then Fixed(sz / 8 - 1, GC_SIZES[sz / 8 - 1])
    else FirstVar(sz, GC_FIXED_PARTS)
  }

  /** A request is never refused; what is handed out is at least what was asked for, wastes less than
      one block (one page for a large request), and an extent never exceeds 254 blocks, so that its
      length fits a byte of the size table. A request of a megabyte or more, once rounded, is large
      whatever its kind; below that a finalizer request is always served from a page with a table. */
  lemma RequestsAreServed(size: nat, finalizer: bool)
    requires size > 0
    ensures match ClassOf(size, finalizer)
            case Refused => false
            case Large(s) => size <= s < size + 8 + GC_PAGE_SIZE && s % GC_PAGE_SIZE == 0 && size > GC_LARGE_BLOCK - 8
            case Fixed(p, s) => !finalizer && p < GC_FIXED_PARTS && s == GC_SIZES[p] && size <= s < size + 8
            case Var(p, s) =>
              && GC_FIXED_PARTS <= p < |GC_SIZES| - 1 && size <= s < size + 8 + GC_SIZES[p]
              && s % GC_SIZES[p] == 0 && 1 <= s / GC_SIZES[p] <= 254
    ensures ClassOf(size, finalizer).Large? <==> RoundUp(size, 8) >= GC_LARGE_BLOCK
    ensures finalizer ==> (ClassOf(size, finalizer).Var? <==> RoundUp(size, 8) < GC_LARGE_BLOCK)
  {
    var sz := RoundUp(size, 8);
    if sz < GC_LARGE_BLOCK && (sz > 40 || finalizer) {
      assert RoundUp(sz, 8192) < 8192 * 255;
      assert FirstVar(sz, 7).Var?;
      assert FirstVar(sz, 6).Var?;
      assert FirstVar(sz, 5).Var?;
    }
  }

  /** Which class: small requests without a finalizer have blocks of their size, up to 40 bytes; from
      there on blocks of 8 bytes serve up to 2032, blocks of 64 up to 16256, blocks of 8192 everything
      below a megabyte. */
  lemma ClassIff(size: nat, finalizer: bool)
    requires size > 0
    ensures var c := ClassOf(size, finalizer);
            && (c.Fixed? <==> size <= 40 && !finalizer)
            && (c.Fixed? ==> c.part == (size - 1) / 8 && c.size == 8 * (c.part + 1))
            && (c.Var? && c.part == 5 <==> size <= 2032 && (size > 40 || finalizer))
            && (c.Var? && c.part == 6 <==> 2032 < size <= 16256)
            && (c.Var? && c.part == 7 <==> 16256 < size <= GC_LARGE_BLOCK - 8)
            && (c.Large? <==> size > GC_LARGE_BLOCK - 8)
            && (c.Large? ==> c.size == RoundUp(size, GC_PAGE_SIZE))
            && (c.Var? ==> c.size == RoundUp(size, GC_SIZES[c.part]))
  {
    var sz := RoundUp(size, 8);
    Words8(size);
    Rounding64(size);
    Rounding8K(size);
    Rounding64K(size);
    hide RoundUp;
    assert FirstVar(sz, 7) == if RoundUp(size, 8192) < 8192 * 255 then Var(7, RoundUp(size, 8192)) else Refused;
    assert FirstVar(sz, 6) == if RoundUp(size, 64) < 64 * 255 then Var(6, RoundUp(size, 64)) else FirstVar(sz, 7);
    assert FirstVar(sz, 5) == if sz < 8 * 255 then Var(5, sz) else FirstVar(sz, 6);
  }

  lemma Words8(size: nat)
    ensures var sz := RoundUp(size, 8);
            RoundUp(sz, 8) == sz && (sz <= 2032 <==> size <= 2032) && (sz < GC_LARGE_BLOCK <==> size <= GC_LARGE_BLOCK - 8)
            && (sz <= 40 <==> size <= 40) && (sz < 2040 <==> size <= 2032) && (size > 0 ==> sz == 8 * ((size - 1) / 8) + 8)
  {
  }

  lemma OneMultiple(a: nat, b: nat, unit: nat)
    requires unit > 0 && a % unit == 0 && b % unit == 0 && a < b + unit && b < a + unit
    ensures a == b
  {
    var i, j := a / unit, b / unit;
    assert a == i * unit && b == j * unit;
    if i < j { AtLeastOne(j - i, unit); }
    if j < i { AtLeastOne(i - j, unit); }
  }

  /** Rounding to words first makes no difference. */
  lemma RoundedTwice(size: nat, unit: nat)
    requires unit in {64, 8192, GC_PAGE_SIZE}
    ensures RoundUp(RoundUp(size, 8), unit) == RoundUp(size, unit)
  {
    hide RoundUp;
    var sz := RoundUp(size, 8);
    var r := RoundUp(sz, unit);
    Words(r, unit);
    WordsAdd(sz, unit);
    NextWord(r, sz + unit);
    OneMultiple(r, RoundUp(size, unit), unit);
  }

  lemma Words(r: nat, unit: nat)
    requires unit in {64, 8192, GC_PAGE_SIZE} && r % unit == 0
    ensures r % 8 == 0 && unit % 8 == 0
  {
    var q := r / unit;
    if unit == 64 { assert r == 8 * (8 * q); } else if unit == 8192 { assert r == 8 * (1024 * q); } else { assert r == 8 * (8192 * q); }
  }

  lemma WordsAdd(a: nat, b: nat)
    requires a % 8 == 0 && b % 8 == 0
    ensures (a + b) % 8 == 0
  {
  }

  lemma NextWord(a: nat, b: nat)
    requires a % 8 == 0 && b % 8 == 0 && a < b
    ensures a + 8 <= b
  {
  }

  lemma Rounding64(size: nat)
    ensures RoundUp(RoundUp(size, 8), 64) == RoundUp(size, 64) && (RoundUp(size, 64) < 64 * 255 <==> size <= 16256)
  {
    hide RoundUp;
    RoundedTwice(size, 64);
  }

  lemma Rounding8K(size: nat)
    ensures RoundUp(RoundUp(size, 8), 8192) == RoundUp(size, 8192)
    ensures size <= GC_LARGE_BLOCK ==> RoundUp(size, 8192) < 8192 * 255
  {
    hide RoundUp;
    RoundedTwice(size, 8192);
  }

  lemma Rounding64K(size: nat)
    ensures RoundUp(RoundUp(size, 8), GC_PAGE_SIZE) == RoundUp(size, GC_PAGE_SIZE)
  {
    RoundedTwice(size, GC_PAGE_SIZE);
  }

  /** Whether the page that serves a class has a size table: the `varsize` argument of its creation. */
  predicate HasTable(c: Class) { c.Var? }

  /** The finalizer scan reads the table of every page of finalizer kind. The page of a finalizer
      request has one exactly if the request stays below a megabyte when rounded to words. */
  lemma FinalizerTableIff(size: nat)
    requires size > 0
    ensures HasTable(ClassOf(size, true)) <==> size <= GC_LARGE_BLOCK - 8
  {
    RequestsAreServed(size, true);
  }

  /** A finalizer request of exactly a megabyte gets a page of its own, without a table. */
  lemma MegabyteFinalizer()
    ensures ClassOf(GC_LARGE_BLOCK, true) == Large(GC_LARGE_BLOCK) && !HasTable(ClassOf(GC_LARGE_BLOCK, true))
  {
  }

  /** The growth loop of `gc_allocator_new_page`: pages get larger with the number of pages there are. */
  method GrowPage(block: nat, size: nat, pages: nat) returns (grown: nat)
    requires 0 < block && size > 0
    ensures grown == Grown(block, size, pages)
  {
    grown := size;
    if block < 256 {
      var num := pages;
      while num > 8 && 2 * grown / block <= GC_PAGE_SIZE
        invariant grown > 0
        invariant Grown(block, grown, num) == Grown(block, size, pages)
        decreases num
      {
        grown := 2 * grown;
        num := num / 3;
      }
    }
  }

  function Grown(block: nat, size: nat, num: nat): (r: nat)
    requires 0 < block
    ensures r >= size
    decreases num
  {
    if block < 256 && num > 8 && 2 * size / block <= GC_PAGE_SIZE then Grown(block, 2 * size, num / 3) else size
  }

  /** A page that had at most 65536 blocks has at most 65536 when grown. */
  lemma {:induction false} GrownBlocks(block: nat, size: nat, num: nat)
    requires 0 < block && size / block <= GC_PAGE_SIZE
    ensures Grown(block, size, num) / block <= GC_PAGE_SIZE
    decreases num
  {
    if block < 256 && num > 8 && 2 * size / block <= GC_PAGE_SIZE { GrownBlocks(block, 2 * size, num / 3); }
  }

  /** The page count from which a new page of a part has exactly 65536 blocks: 81 pages of 8-byte
      blocks, 243 of 16, 729 of 32, 2187 of 64; never for blocks of 24 or 40 bytes. */
  lemma FullRangePage(block: nat, num: nat)
    requires block in [8, 16, 24, 32, 40, 64]
    ensures Grown(block, GC_PAGE_SIZE, num) / block == PageModel.CURSOR_RANGE <==>
            (block == 8 && num >= 81) || (block == 16 && num >= 243) || (block == 32 && num >= 729) || (block == 64 && num >= 2187)
  {
    Unfold(block, num);
  }

  lemma Unfold(block: nat, num: nat)
    requires block in [8, 16, 24, 32, 40, 64]
    ensures var g := Grown(block, GC_PAGE_SIZE, num);
            g == if num <= 8 then 65536 else if num <= 26 then 131072 else if num <= 80 then 262144
                 else if block == 8 || num <= 242 then 524288
                 else if block <= 24 || num <= 728 then 1048576
                 else if block <= 40 || num <= 2186 then 2097152
                 else 4194304
  {
    var g0 := Grown(block, 65536, num);
    var n1, n2, n3, n4, n5 := num / 3, num / 9, num / 27, num / 81, num / 243;
    assert num / 3 / 3 == n2 && n2 / 3 == n3 && n3 / 3 == n4 && n4 / 3 == n5;
    assert num > 8 ==> g0 == Grown(block, 131072, n1);
    assert n1 > 8 ==> Grown(block, 131072, n1) == Grown(block, 262144, n2);
    assert n2 > 8 ==> Grown(block, 262144, n2) == Grown(block, 524288, n3);
    assert n3 > 8 && block > 8 ==> Grown(block, 524288, n3) == Grown(block, 1048576, n4);
    assert n4 > 8 && block > 24 ==> Grown(block, 1048576, n4) == Grown(block, 2097152, n5);
    assert n5 > 8 && block > 40 ==> Grown(block, 2097152, n5) == Grown(block, 4194304, n5 / 3);
  }

  /** The doubling loop of `gc_alloc_var` that sizes a page for a request. */
  method PageSizeFor(size: nat) returns (psize: nat)
    ensures psize == Doubled(GC_PAGE_SIZE, size + 1024)
  {
    psize := GC_PAGE_SIZE;
    while psize < size + 1024
      invariant psize > 0 && Doubled(psize, size + 1024) == Doubled(GC_PAGE_SIZE, size + 1024)
      decreases size + 1024 - psize
    {
      psize := 2 * psize;
    }
  }

  function Doubled(psize: nat, wanted: nat): (r: nat)
    requires psize > 0
    ensures r >= wanted && r >= psize && (r == psize || r < 2 * wanted)
    ensures psize % GC_PAGE_SIZE == 0 ==> r % GC_PAGE_SIZE == 0
    decreases wanted - psize
  {
    if psize >= wanted then psize else
    TwiceWholePages(psize);
    Doubled(2 * psize, wanted)
  }

  /** psize doubled k times. */
  function Doubling(psize: nat, k: nat): nat
    decreases k
  {
    if k == 0 then psize else Doubling(2 * psize, k - 1)
  }

  /** The page size is the first of the doubled sizes that is large enough. */
  lemma {:induction false} DoubledIs(psize: nat, wanted: nat, k: nat)
    requires psize > 0
    ensures Doubled(psize, wanted) == Doubling(psize, k) <==> Doubling(psize, k) >= wanted && (k > 0 ==> Doubling(psize, k - 1) < wanted)
    decreases k
  {
    DoublingGrows(psize, k);
    if k > 0 {
      DoublingGrows(psize, k - 1);
      DoubledIs(2 * psize, wanted, k - 1);
    }
  }

  lemma {:induction false} DoublingGrows(psize: nat, k: nat)
    requires psize > 0
    ensures Doubling(psize, k) >= psize && (k > 0 ==> Doubling(psize, k) == 2 * Doubling(psize, k - 1))
    decreases k
  {
    if k > 0 { DoublingGrows(2 * psize, k - 1); }
  }

  lemma TwiceWholePages(psize: nat)
    ensures psize % 65536 == 0 ==> 2 * psize % 65536 == 0
  {
    if psize % 65536 == 0 { assert 2 * psize == 65536 * (2 * (psize / 65536)); }
  }

  /** The first block behind the size table: the table is one byte a block, rounded up to a cache
      line and then to a block; a table of at most eight bytes lives in the page header. */
  function FirstBlock(block: nat, max: nat, varsize: bool): (first: nat)
    requires block > 0
  {
    if varsize && max > SIZES_PADDING then RoundUp(RoundUp(max, 64), block) / block else 0
  }

  lemma TableNeedsNoPage(block: nat, max: nat, varsize: bool)
    requires block > 0 && !(varsize && max > SIZES_PADDING)
    ensures FirstBlock(block, max, varsize) == 0
  {
  }

  /** A table that lies on the page ends at some address, filled up to the end of a cache line, and the
      first block is the first that starts there or later: no block reaches into the table, and none
      is lost. */
  lemma FirstBlockIff(block: nat, max: nat) returns (end: nat)
    requires block > 0 && max > SIZES_PADDING
    ensures end % 64 == 0 && max <= end < max + 64
    ensures forall b: nat :: b * block >= end <==> b >= FirstBlock(block, max, true)
  {
    end := RoundUp(max, 64);
    hide RoundUp;
    var f := FirstBlock(block, max, true);
    Whole(RoundUp(end, block), block);
    forall b: nat ensures b * block >= end <==> b >= f {
      Grows(b, f, block);
    }
  }

  lemma Whole(x: nat, block: nat)
    requires block > 0 && x % block == 0
    ensures x / block * block == x
  {
  }

  /** Blocks from number f on start at f * block or later, those before it a block earlier. */
  lemma Grows(b: nat, f: nat, block: nat)
    requires block > 0
    ensures b >= f ==> b * block >= f * block
    ensures b < f ==> b * block <= f * block - block
  {
    if b >= f { Times(b - f, block); assert b * block == f * block + (b - f) * block; }
    else { Times(f - b - 1, block); assert f * block == b * block + block + (f - b - 1) * block; }
  }

  lemma Times(k: nat, block: nat)
    ensures k * block >= 0
  {
  }

  /** On every new page, whatever the request and the number of pages there are, the blocks handed out
      start at block 0 unless there is a table on the page, and then behind that table. */
  lemma BlocksAreBehindTable(size: nat, finalizer: bool, num: nat, b: nat)
    requires size > 0
    ensures var c := ClassOf(size, finalizer);
            !c.Refused? && var p := NewPage(c, num);
            && (p.varsize <==> c.Var?)
            && (!(p.varsize && p.max > SIZES_PADDING) ==> p.First() == 0)
            && (p.varsize && p.max > SIZES_PADDING && b >= p.First() ==> b * p.block >= p.max)
  {
    hide Grown, Doubled, FirstBlock, ClassOf, RoundUp;
    RequestsAreServed(size, finalizer);
    var p := NewPage(ClassOf(size, finalizer), num);
    if p.varsize && p.max > SIZES_PADDING {
      var _ := FirstBlockIff(p.block, p.max);
    } else {
      TableNeedsNoPage(p.block, p.max, p.varsize);
    }
  }

  // ---- the run of a new page, as 16 bits store it

  /** The page that is created for a request no existing page can take, given the number of pages of
      its kind: block size, number of blocks, and whether it has a size table. */
  datatype Geometry = Geometry(block: nat, max: nat, varsize: bool) {
    function First(): nat
      requires block > 0
    {
      FirstBlock(block, max, varsize)
    }
  }

  function NewPage(c: Class, num: nat): (p: Geometry)
    requires match c case Large(s) => s > 0 case Fixed(q, s) => q < GC_FIXED_PARTS && s == GC_SIZES[q]
                     case Var(q, _) => GC_FIXED_PARTS <= q < |GC_SIZES| - 1 case Refused => false
    ensures p.block > 0
  {
    match c
    case Large(s) => Geometry(s, Grown(s, s, num) / s, false)
    case Fixed(_, s) => Geometry(s, Grown(s, GC_PAGE_SIZE, num) / s, false)
    case Var(q, s) => Geometry(GC_SIZES[q], Grown(GC_SIZES[q], Doubled(GC_PAGE_SIZE, s + 1024), num) / GC_SIZES[q], true)
  }

  /** Number of blocks the allocation that creates a page takes from it. */
  function Taken(c: Class): (n: nat)
    requires c.Var? ==> c.part < |GC_SIZES| && GC_SIZES[c.part] > 0
  {
    match c case Large(_) => 0 case Var(q, s) => s / GC_SIZES[q] case _ => 1
  }

  /** A new page's run is stored with the wrong length (0) exactly when all 65536 of its blocks are in
      it: for fixed blocks of 8, 16 or 32 bytes, from 81, 243 or 729 pages on. Pages with a size table
      never are: their first block lies behind it. The allocation that creates the page then takes its
      blocks from that run in 16-bit arithmetic, which leaves position and length right in every case. */
  lemma NewPageRun(size: nat, finalizer: bool, num: nat)
    requires size > 0
    ensures var c := ClassOf(size, finalizer);
            !c.Refused? && var p := NewPage(c, num);
            && p.First() + Taken(c) <= p.max <= PageModel.CURSOR_RANGE
            && (PageModel.Cursor(p.max - p.First()) != p.max - p.First() <==> p.max == PageModel.CURSOR_RANGE && p.First() == 0)
            && (p.max == PageModel.CURSOR_RANGE && p.First() == 0 <==>
                  c.Fixed? && ((p.block == 8 && num >= 81) || (p.block == 16 && num >= 243) || (p.block == 32 && num >= 729)))
            && (p.First() + Taken(c)) % PageModel.CURSOR_RANGE == p.First() + Taken(c)
            && (PageModel.Cursor(p.max - p.First()) - Taken(c)) % PageModel.CURSOR_RANGE == p.max - p.First() - Taken(c)
  {
    hide Grown, Doubled, FirstBlock, ClassOf, RoundUp, PageModel.Cursor;
    RequestsAreServed(size, finalizer);
    var c := ClassOf(size, finalizer);
    var p := NewPage(c, num);
    match c {
      case Large(s) => LargePageBlocks(s, num);
      case Fixed(_, s) => FixedPageBlocks(s, num);
      case Var(_, _) =>
        FreshPageHasRoom(size, finalizer, num);
        TablePageBlocks(c, num);
    }
    StoredRun(p.First(), p.max, Taken(c));
  }

  /** A run stored in 16 bits, and after n blocks have been taken from its front. */
  lemma StoredRun(first: nat, max: nat, n: nat)
    requires first + n <= max <= PageModel.CURSOR_RANGE && first + n < PageModel.CURSOR_RANGE
    requires first == 0 && max == PageModel.CURSOR_RANGE ==> n > 0
    ensures PageModel.Cursor(max - first) != max - first <==> max == PageModel.CURSOR_RANGE && first == 0
    ensures (first + n) % PageModel.CURSOR_RANGE == first + n
    ensures (PageModel.Cursor(max - first) - n) % PageModel.CURSOR_RANGE == max - first - n
  {
  }

  lemma LargePageBlocks(size: nat, num: nat)
    requires size >= 256
    ensures Grown(size, size, num) / size == 1 && FirstBlock(size, 1, false) == 0
  {
    MultipleMod(1, size);
  }

  lemma FixedPageBlocks(block: nat, num: nat)
    requires block in [8, 16, 24, 32, 40]
    ensures 1638 <= Grown(block, GC_PAGE_SIZE, num) / block <= PageModel.CURSOR_RANGE
    ensures Grown(block, GC_PAGE_SIZE, num) / block == PageModel.CURSOR_RANGE <==>
            (block == 8 && num >= 81) || (block == 16 && num >= 243) || (block == 32 && num >= 729)
    ensures FirstBlock(block, Grown(block, GC_PAGE_SIZE, num) / block, false) == 0
  {
    Unfold(block, num);
  }

  lemma TablePageBlocks(c: Class, num: nat)
    requires c.Var? && GC_FIXED_PARTS <= c.part < |GC_SIZES| - 1 && 1 <= c.size / GC_SIZES[c.part] <= 254
    ensures NewPage(c, num).max <= PageModel.CURSOR_RANGE
    ensures NewPage(c, num).max == PageModel.CURSOR_RANGE ==> 0 < NewPage(c, num).First() <= 32768
    ensures c.size / GC_SIZES[c.part] <= 254
  {
    hide RoundUp, Doubled, Grown;
    var block := GC_SIZES[c.part];
    var size := Doubled(GC_PAGE_SIZE, c.size + 1024);
    assert size / block <= GC_PAGE_SIZE;
    GrownBlocks(block, size, num);
    var table := RoundUp(65536, 64);
    assert block == 8 || block == 64 || block == 8192;
    assert 65536 <= RoundUp(table, block) <= 65536 + 64 + 8192;
  }

  /** A request that no existing page can take fits on the page that is created for it, whatever the
      number of pages of its kind: behind the size table there is room for all its blocks. */
  lemma FreshPageHasRoom(size: nat, finalizer: bool, num: nat)
    requires size > 0 && ClassOf(size, finalizer).Var?
    ensures var c := ClassOf(size, finalizer);
            var block := GC_SIZES[c.part];
            block > 0 &&
            var max := Grown(block, Doubled(GC_PAGE_SIZE, c.size + 1024), num) / block;
            FirstBlock(block, max, true) + c.size / block <= max
  {
    RequestsAreServed(size, finalizer);
    var c := ClassOf(size, finalizer);
    var block := GC_SIZES[c.part];
    var grown := Grown(block, Doubled(GC_PAGE_SIZE, c.size + 1024), num);
    assert 65536 <= grown;
    match c.part {
      case 5 => RoomForEights(c.size, grown);
      case 6 => RoomForSixtyFours(c.size, grown);
      case 7 => RoomForEightKs(c.size, grown);
    }
  }

  lemma RoomForEights(size: nat, grown: nat)
    requires size / 8 <= 254 && 65536 <= grown
    ensures FirstBlock(8, grown / 8, true) + size / 8 <= grown / 8
  {
    var max := grown / 8;
    var start := RoundUp(RoundUp(max, 64), 8);
    assert start < max + 72;
  }

  lemma RoomForSixtyFours(size: nat, grown: nat)
    requires size / 64 <= 254 && 65536 <= grown
    ensures FirstBlock(64, grown / 64, true) + size / 64 <= grown / 64
  {
    var max := grown / 64;
    var start := RoundUp(RoundUp(max, 64), 64);
    assert start < max + 128;
  }

  lemma RoomForEightKs(size: nat, grown: nat)
    requires size % 8192 == 0 && size + 1024 <= grown < 4194304 && grown % 65536 == 0
    ensures FirstBlock(8192, grown / 8192, true) + size / 8192 <= grown / 8192
  {
    var max := grown / 8192;
    var table := RoundUp(max, 64);
    assert 0 < max ==> RoundUp(table, 8192) == 8192;
  }
}
