/**
  * The page allocator: a bitmap of one bit a page, set for used pages, that stands for a set of
  * free page numbers.
  */
module Pages {
  import opened Bytes

  const PAGE_SIZE := 4096
  const MAX_PAGES := 32768
  const BITMAP_SIZE := 4096
  const USABLE := 1
  const TWO44 := 0x1000_0000_0000
  const TWO64 := 0x1_0000_0000_0000_0000

  // ── bits ──

  /** The byte with bit `k` alone set. */
  function Mask(k: nat): (m: bv8)
    requires k < 8
  {
    if k == 0 then 1 else if k == 1 then 2 else if k == 2 then 4 else if k == 3 then 8
    else if k == 4 then 16 else if k == 5 then 32 else if k == 6 then 64 else 128
  }

  predicate Bit(b: bv8, k: nat)
    requires k < 8
  {
    b & Mask(k) != 0
  }

  lemma MaskShift(k: nat)
    requires k < 8
    ensures Mask(k) == (1 as bv8) << k
  {
  }

  lemma MaskSome(k: nat)
    requires k < 8
    ensures Mask(k) != 0
  {
  }

  lemma MaskBits(b: bv8, m: bv8, n: bv8)
    ensures m & n == 0 ==> (b | m) & n == b & n && (b & !m) & n == b & n
    ensures n != 0 ==> (b | n) & n != 0
    ensures (b & !n) & n == 0
  {
  }

  lemma MaskApart(j: nat, k: nat)
    requires j < 8 && k < 8 && j != k
    ensures Mask(k) & Mask(j) == 0
  {
  }

  /** Setting a bit sets that bit alone. */
  lemma BitSet(b: bv8, k: nat, j: nat)
    requires k < 8 && j < 8
    ensures Bit(b | Mask(k), j) <==> j == k || Bit(b, j)
  {
    hide Mask;
    MaskBits(b, Mask(k), Mask(j));
    MaskSome(j);
    if j != k {
      MaskApart(j, k);
    }
  }

  /** Clearing a bit clears that bit alone. */
  lemma BitCleared(b: bv8, k: nat, j: nat)
    requires k < 8 && j < 8
    ensures Bit(b & !Mask(k), j) <==> j != k && Bit(b, j)
  {
    hide Mask;
    MaskBits(b, Mask(k), Mask(j));
    if j != k {
      MaskApart(j, k);
    }
  }

  // ── the bitmap as a set ──

  predicate Marked(bitmap: seq<bv8>, page: nat)
    requires |bitmap| == BITMAP_SIZE && page < MAX_PAGES
  {
    Bit(bitmap[page / 8], page % 8)
  }

  ghost function FreeSet(bitmap: seq<bv8>): (f: set<nat>)
    requires |bitmap| == BITMAP_SIZE
  {
    set p: nat | p < MAX_PAGES && !Marked(bitmap, p)
  }

  predicate Within(lo: nat, hi: nat, p: nat) { lo <= p < hi }

  /** The pages from `lo` up to `hi`. */
  ghost function Between(lo: nat, hi: nat): (r: set<nat>)
    ensures forall p :: p in r <==> lo <= p < hi
  {
    set p: nat | p < hi && Within(lo, hi, p)
  }

  lemma BetweenNext(lo: nat, p: nat, s: set<nat>)
    requires lo <= p
    ensures Between(lo, lo) == {}
    ensures s + Between(lo, p) + {p} == s + Between(lo, p + 1)
    ensures s - Between(lo, p) - {p} == s - Between(lo, p + 1)
  {
  }

  lemma FreeMeans(bitmap: seq<bv8>, page: nat)
    requires |bitmap| == BITMAP_SIZE && page < MAX_PAGES
    ensures page in FreeSet(bitmap) <==> bitmap[page / 8] & Mask(page % 8) == 0
    ensures forall p :: p in FreeSet(bitmap) ==> p < MAX_PAGES
  {
  }

  lemma MarkedAt(bitmap: seq<bv8>, p: nat)
    requires |bitmap| == BITMAP_SIZE && p < MAX_PAGES
    ensures Marked(bitmap, p) <==> Bit(bitmap[p / 8], p % 8)
  {
  }

  lemma SamePlace(page: nat, p: nat)
    ensures p == page <==> p / 8 == page / 8 && p % 8 == page % 8
  {
  }

  lemma OneByte(bitmap: seq<bv8>, i: nat, x: bv8, p: nat)
    requires |bitmap| == BITMAP_SIZE && i < |bitmap| && p < MAX_PAGES
    ensures Marked(bitmap[i := x], p) <==> if p / 8 == i then Bit(x, p % 8) else Marked(bitmap, p)
  {
    hide Bit, Mask;
  }

  /** One byte of the bitmap with the bit of `page` set or cleared changes that page alone. */
  lemma OneSet(bitmap: seq<bv8>, page: nat, p: nat)
    requires |bitmap| == BITMAP_SIZE && page < MAX_PAGES && p < MAX_PAGES
    ensures Marked(bitmap[page / 8 := bitmap[page / 8] | Mask(page % 8)], p) <==> p == page || Marked(bitmap, p)
  {
    hide Bit, Mask, Marked;
    OneByte(bitmap, page / 8, bitmap[page / 8] | Mask(page % 8), p);
    MarkedAt(bitmap, p);
    BitSet(bitmap[page / 8], page % 8, p % 8);
    SamePlace(page, p);
  }

  lemma OneCleared(bitmap: seq<bv8>, page: nat, p: nat)
    requires |bitmap| == BITMAP_SIZE && page < MAX_PAGES && p < MAX_PAGES
    ensures Marked(bitmap[page / 8 := bitmap[page / 8] & !Mask(page % 8)], p) <==> p != page && Marked(bitmap, p)
  {
    hide Bit, Mask, Marked;
    OneByte(bitmap, page / 8, bitmap[page / 8] & !Mask(page % 8), p);
    MarkedAt(bitmap, p);
    BitCleared(bitmap[page / 8], page % 8, p % 8);
    SamePlace(page, p);
  }

  lemma FreeSetMarked(bitmap: seq<bv8>, page: nat)
    requires |bitmap| == BITMAP_SIZE && page < MAX_PAGES
    ensures FreeSet(bitmap[page / 8 := bitmap[page / 8] | Mask(page % 8)]) == FreeSet(bitmap) - {page}
    ensures FreeSet(bitmap[page / 8 := bitmap[page / 8] & !Mask(page % 8)]) == FreeSet(bitmap) + {page}
    ensures page in FreeSet(bitmap) <==> !Marked(bitmap, page)
  {
    forall p: nat | p < MAX_PAGES
      ensures Marked(bitmap[page / 8 := bitmap[page / 8] | Mask(page % 8)], p) <==> p == page || Marked(bitmap, p)
      ensures Marked(bitmap[page / 8 := bitmap[page / 8] & !Mask(page % 8)], p) <==> p != page && Marked(bitmap, p)
    {
      OneSet(bitmap, page, p);
      OneCleared(bitmap, page, p);
    }
  }

  // ── the memory map ──

  /** A region of the memory map that the firmware hands over. */
  datatype Region = Region(begin: nat, length: nat, kind: nat)

  /** Region numbers as the driver can work with them: it adds and divides in 64 bits and keeps page
    * numbers in 32. */
  predicate Addressable(r: Region) { r.begin + r.length < TWO44 && r.begin + PAGE_SIZE <= TWO44 }

  /** The region covers the whole of a page. */
  predicate Covers(r: Region, page: nat)
  {
    r.kind == USABLE && r.begin <= page * PAGE_SIZE && (page + 1) * PAGE_SIZE <= r.begin + r.length
  }

  ghost predicate CoveredBy(regions: seq<Region>, page: nat)
  {
    exists i :: 0 <= i < |regions| && Covers(regions[i], page)
  }

  ghost function CoveredPages(regions: seq<Region>): (c: set<nat>)
  {
    set p: nat | p < MAX_PAGES && CoveredBy(regions, p)
  }

  /** Some byte of the kernel lies in the page. */
  predicate KernelPage(start: nat, end: nat, page: nat)
  {
    start / PAGE_SIZE <= page < (end + PAGE_SIZE - 1) / PAGE_SIZE
  }

  /** The pages to hand out: those that some usable region covers, below the limit, without the
    * kernel's and page 0. */
  ghost function PoolOf(regions: seq<Region>, start: nat, end: nat): (f: set<nat>)
  {
    set p: nat | p < MAX_PAGES && CoveredBy(regions, p) && p != 0 && !KernelPage(start, end, p)
  }

  /** Address `a` lies in page `p`. */
  predicate OnPage(a: nat, p: nat) { 4096 * p <= a < 4096 * p + 4096 }

  /** Every address of the page lies in the region. */
  ghost predicate RegionHolds(r: Region, p: nat)
  {
    forall a: nat :: OnPage(a, p) ==> r.begin <= a < r.begin + r.length
  }

  lemma CoversAddresses(r: Region, p: nat)
    ensures Covers(r, p) <==> r.kind == 1 && RegionHolds(r, p)
  {
    assert OnPage(4096 * p, p) && OnPage(4096 * p + 4095, p);
  }

  lemma KernelAddresses(start: nat, end: nat, p: nat)
    requires start < end
    ensures KernelPage(start, end, p) <==> exists a: nat :: OnPage(a, p) && start <= a < end
  {
    if KernelPage(start, end, p) {
      var a := if start / 4096 == p then start else 4096 * p;
      assert OnPage(a, p) && start <= a < end;
    }
  }

  /** A page is handed out exactly when it is one of the first 128 MB, but not page 0, all its addresses lie
    * in one usable region, and none in the kernel. */
  lemma PoolAddresses(regions: seq<Region>, start: nat, end: nat, p: nat)
    requires start < end
    ensures p in PoolOf(regions, start, end) <==>
      && 0 < p < 32768
      && (exists i :: 0 <= i < |regions| && regions[i].kind == 1 && RegionHolds(regions[i], p))
      && !(exists a: nat :: OnPage(a, p) && start <= a < end)
  {
    hide RegionHolds, KernelPage, Covers;
    forall i | 0 <= i < |regions|
      ensures Covers(regions[i], p) <==> regions[i].kind == 1 && RegionHolds(regions[i], p)
    {
      CoversAddresses(regions[i], p);
    }
    KernelAddresses(start, end, p);
  }

  /** The first page of a region, aligned up, as 64-bit addresses and 32-bit page numbers give it. */
  function FirstPage(r: Region): (p: nat)
    ensures p < TWO32
  {
    (r.begin + PAGE_SIZE - 1) % TWO64 / PAGE_SIZE % TWO32
  }

  /** The page after the last of a region, aligned down. */
  function EndPage(r: Region): (p: nat)
    ensures p < TWO32
  {
    (r.begin + r.length) % TWO64 / PAGE_SIZE % TWO32
  }

  /** The page numbers a region gives are those of the pages it covers. */
  lemma CoversRange(r: Region, p: nat)
    requires Addressable(r) && r.kind == USABLE
    ensures FirstPage(r) <= p < EndPage(r) <==> Covers(r, p)
  {
    assert FirstPage(r) == (r.begin + PAGE_SIZE - 1) / PAGE_SIZE;
    assert EndPage(r) == (r.begin + r.length) / PAGE_SIZE;
  }

  // ── the allocator ──

  /** Cardinalities of a set with one element less or more. */
  lemma Moved(s: set<nat>, x: nat)
    ensures x in s ==> |s - {x}| == |s| - 1 && s + {x} == s
    ensures x !in s ==> |s + {x}| == |s| + 1 && s - {x} == s
  {
  }

  lemma AllMarked(bitmap: seq<bv8>)
    requires |bitmap| == BITMAP_SIZE && forall i :: 0 <= i < |bitmap| ==> bitmap[i] == 0xFF
    ensures FreeSet(bitmap) == {}
  {
    forall p: nat | p < MAX_PAGES
      ensures Marked(bitmap, p)
    {
      assert bitmap[p / 8] == 0xFF;
    }
  }

  lemma NoPages()
    ensures CoveredPages([]) == {}
  {
  }

  lemma OneMore(regions: seq<Region>, i: nat)
    requires i < |regions|
    ensures CoveredPages(regions[..i + 1]) == CoveredPages(regions[..i]) + CoveredPages([regions[i]])
  {
    forall p: nat
      ensures CoveredBy(regions[..i + 1], p) <==> CoveredBy(regions[..i], p) || CoveredBy([regions[i]], p)
    {
      assert regions[..i + 1][i] == regions[i] == [regions[i]][0];
      assert forall j :: 0 <= j < i ==> regions[..i + 1][j] == regions[..i][j];
    }
  }

  /** The pages of one region, as its two bounds give them. */
  lemma RegionPages(region: Region)
    requires Addressable(region)
    ensures var to := EndPage(region);
      CoveredPages([region]) ==
        if region.kind == USABLE then Between(FirstPage(region), if to > MAX_PAGES then MAX_PAGES else to) else {}
  {
    hide FirstPage, EndPage;
    forall p: nat
      ensures CoveredBy([region], p) <==> Covers(region, p)
    {
      assert [region][0] == region;
    }
    if region.kind == USABLE {
      forall p: nat
        ensures FirstPage(region) <= p < EndPage(region) <==> Covers(region, p)
      {
        CoversRange(region, p);
      }
    }
  }

  /** What is left of the covered pages without the kernel's and page 0. */
  lemma PoolPages(regions: seq<Region>, start: nat, end: nat)
    ensures var kernel := Between(start / PAGE_SIZE, (end + PAGE_SIZE - 1) / PAGE_SIZE);
      CoveredPages(regions) - kernel - {0} == PoolOf(regions, start, end)
  {
  }

  class Allocator {
    const bitmap: array<bv8>
    var totalPages: nat
    var freePages: nat
    ghost var pool: set<nat> // what initialization freed
    ghost var held: set<nat> // what clients hold

    ghost function Free(): set<nat>
      reads bitmap
      requires bitmap.Length == BITMAP_SIZE
    {
      FreeSet(bitmap[..])
    }

    ghost predicate Counted()
      reads this`freePages, bitmap
    {
      bitmap.Length == BITMAP_SIZE && freePages == |Free()|
    }

    /** Every page of the pool is either free or held by a client, and page 0 is neither. */
    ghost predicate Valid()
      reads this, bitmap
    {
      Counted() && Free() + held == pool && Free() !! held && 0 !in pool
    }

    lemma NothingCounted()
      requires bitmap.Length == BITMAP_SIZE && freePages == 0 && Free() == {}
      ensures Counted()
    {
    }

    lemma CountedLength()
      requires Counted()
      ensures bitmap.Length == BITMAP_SIZE
    {
    }

    constructor ()
      ensures bitmap.Length == BITMAP_SIZE && totalPages == 0 && freePages == 0
      ensures fresh(bitmap)
    {
      bitmap := new bv8[BITMAP_SIZE](i => 0);
      totalPages, freePages := 0, 0;
      pool, held := {}, {};
    }

    predicate Test(page: nat)
      requires bitmap.Length == BITMAP_SIZE && page < MAX_PAGES
      reads bitmap
    {
      bitmap[page / 8] & Mask(page % 8) != 0
    }

    lemma TestMeans(page: nat)
      requires bitmap.Length == BITMAP_SIZE && page < MAX_PAGES
      ensures Test(page) <==> page !in Free()
      ensures forall p :: p in Free() ==> p < MAX_PAGES
    {
      FreeMeans(bitmap[..], page);
    }

    method Set(page: nat)
      requires bitmap.Length == BITMAP_SIZE && page < MAX_PAGES
      modifies bitmap
      ensures Free() == old(Free()) - {page}
    {
      FreeSetMarked(bitmap[..], page);
      ghost var was := bitmap[..];
      bitmap[page / 8] := bitmap[page / 8] | Mask(page % 8);
      assert bitmap[..] == was[page / 8 := was[page / 8] | Mask(page % 8)];
    }

    method Clear(page: nat)
      requires bitmap.Length == BITMAP_SIZE && page < MAX_PAGES
      modifies bitmap
      ensures Free() == old(Free()) + {page}
    {
      FreeSetMarked(bitmap[..], page);
      ghost var was := bitmap[..];
      bitmap[page / 8] := bitmap[page / 8] & !Mask(page % 8);
      assert bitmap[..] == was[page / 8 := was[page / 8] & !Mask(page % 8)];
    }

    lemma AllInPool(regions: seq<Region>, start: nat, end: nat)
      requires Counted() && pool == Free() == PoolOf(regions, start, end) && held == {}
      ensures Valid()
    {
    }

    /** Frees a page of a region, unless an overlapping region has freed it already. */
    method Release(page: nat)
      requires Counted() && totalPages == freePages && page < MAX_PAGES
      modifies this`totalPages, this`freePages, bitmap
      ensures Counted() && totalPages == freePages && Free() == old(Free()) + {page}
    {
      hide Free, Test, FreeSet;
      TestMeans(page);
      Moved(Free(), page);
      if Test(page) {
        Clear(page);
        freePages := freePages + 1;
        totalPages := totalPages + 1;
      }
    }

    /** Frees the pages of one region that are not free yet. */
    method FreeRegion(region: Region)
      requires Counted() && totalPages == freePages && Addressable(region)
      modifies this`totalPages, this`freePages, bitmap
      ensures Counted() && totalPages == freePages
      ensures Free() == old(Free()) + CoveredPages([region])
    {
      hide Free, Test, FreeSet, CoveredPages, Covers, FirstPage, EndPage, Between, Within, Addressable, Counted;
      CountedLength();
      RegionPages(region);
      if region.kind != USABLE {
        return;
      }
      var pageStart := FirstPage(region);
      var pageEnd := EndPage(region);
      if pageEnd > MAX_PAGES {
        pageEnd := MAX_PAGES;
      }
      var p := pageStart;
      BetweenNext(pageStart, p, old(Free()));
      while p < pageEnd
        invariant pageStart <= p && (p <= pageEnd || p == pageStart)
        invariant bitmap.Length == BITMAP_SIZE && Counted() && totalPages == freePages
        invariant Free() == old(Free()) + Between(pageStart, p)
      {
        BetweenNext(pageStart, p, old(Free()));
        Release(p);
        p := p + 1;
      }
    }

    method FreeRegions(regions: seq<Region>)
      requires Counted() && totalPages == freePages && Free() == {}
      requires forall r :: r in regions ==> Addressable(r)
      modifies this`totalPages, this`freePages, bitmap
      ensures Counted() && totalPages == freePages && Free() == CoveredPages(regions)
      ensures totalPages == |CoveredPages(regions)|
    {
      hide Free, CoveredPages, FreeSet, Addressable;
      NoPages();
      assert regions[..0] == [] && regions[..|regions|] == regions;
      for i := 0 to |regions|
        invariant Counted() && totalPages == freePages && Free() == CoveredPages(regions[..i])
      {
        FreeRegion(regions[i]);
        OneMore(regions, i);
      }
    }

    method MarkAll()
      requires bitmap.Length == BITMAP_SIZE
      modifies bitmap
      ensures Free() == {}
    {
      forall i | 0 <= i < bitmap.Length {
        bitmap[i] := 0xFF;
      }
      AllMarked(bitmap[..]);
    }

    /** Takes a page if it is free. */
    method Occupy(page: nat)
      requires Counted() && page < MAX_PAGES
      modifies this`freePages, bitmap
      ensures Counted() && Free() == old(Free()) - {page}
    {
      hide Free, Test, FreeSet;
      TestMeans(page);
      Moved(Free(), page);
      if !Test(page) {
        Set(page);
        freePages := freePages - 1;
      }
    }

    method TakeKernel(kernelStart: nat, kernelEnd: nat)
      requires Counted() && kernelEnd <= MAX_PAGES * PAGE_SIZE
      modifies this`freePages, bitmap
      ensures Counted()
      ensures Free() == old(Free()) - Between(kernelStart / PAGE_SIZE, (kernelEnd + PAGE_SIZE - 1) / PAGE_SIZE)
    {
      hide Free, Test, FreeSet, Between, Counted;
      CountedLength();
      var from := kernelStart / PAGE_SIZE;
      var to := (kernelEnd + PAGE_SIZE - 1) / PAGE_SIZE;
      var p := from;
      BetweenNext(from, p, old(Free()));
      while p < to
        invariant from <= p && (p <= to || p == from)
        invariant bitmap.Length == BITMAP_SIZE && Counted()
        invariant Free() == old(Free()) - Between(from, p)
      {
        BetweenNext(from, p, old(Free()));
        Occupy(p);
        p := p + 1;
      }
    }

    /** Frees the pages that usable regions cover, then takes back the kernel's and page 0. */
    method Initialize(regions: seq<Region>, kernelStart: nat, kernelEnd: nat)
      requires bitmap.Length == BITMAP_SIZE && totalPages == 0 && freePages == 0
      requires forall r :: r in regions ==> Addressable(r)
      requires kernelEnd <= MAX_PAGES * PAGE_SIZE
      modifies this, bitmap
      ensures Valid() && held == {}
      ensures pool == PoolOf(regions, kernelStart, kernelEnd)
      ensures totalPages == |CoveredPages(regions)|
    {
      hide Free, CoveredPages, FreeSet, PoolOf, Between, Valid, Counted, Addressable;
      MarkAll();
      NothingCounted();
      FreeRegions(regions);
      CountedLength();
      TakeKernel(kernelStart, kernelEnd);
      CountedLength();
      Occupy(0);
      CountedLength();
      PoolPages(regions, kernelStart, kernelEnd);
      pool, held := Free(), {};
      AllInPool(regions, kernelStart, kernelEnd);
    }

    lemma EmptyPool()
      requires Valid()
      ensures 0 !in held
    {
    }

    lemma TakenValid(free: set<nat>, was: set<nat>, p: nat)
      requires Counted() && p in free && Free() == free - {p} && held == was + {p}
      requires free + was == pool && free !! was && 0 !in pool
      ensures Valid() && p != 0 && p !in was
    {
    }

    lemma ValidSets()
      requires Valid()
      ensures Counted() && Free() + held == pool && Free() !! held && 0 !in pool
    {
    }

    /** The scan for a free page. */
    method LowestFree() returns (i: nat)
      requires bitmap.Length == BITMAP_SIZE
      ensures i == MAX_PAGES <==> Free() == {}
      ensures i < MAX_PAGES ==> i in Free()
      ensures i <= MAX_PAGES && forall q :: q in Free() ==> i <= q
    {
      hide Free, Test, FreeSet;
      TestMeans(0);
      i := 0;
      while i < MAX_PAGES
        invariant i <= MAX_PAGES && forall q :: q in Free() ==> i <= q
      {
        TestMeans(i);
        if !Test(i) {
          return;
        }
        i := i + 1;
      }
    }

    /** Marks a free page as used and counts it off. */
    method Take(i: nat)
      requires Counted() && i in Free() && i < MAX_PAGES
      modifies this`freePages, this`held, bitmap
      ensures Counted() && Free() == old(Free()) - {i} && held == old(held) + {i}
      ensures old(Valid()) ==> Valid() && i != 0 && i !in old(held)
    {
      hide Free, FreeSet, Valid;
      ghost var free, was, valid := Free(), held, Valid();
      if valid {
        ValidSets();
      }
      Moved(free, i);
      Set(i);
      freePages := freePages - 1;
      held := held + {i};
      if valid {
        TakenValid(free, was, i);
      }
    }

    /** Takes the lowest free page and gives its address; 0 when no page is free. Were page 0 free,
      * it would be taken and reported as 0 as well. */
    method AllocPage() returns (address: nat)
      requires Counted()
      modifies this`freePages, this`held, bitmap
      ensures Counted()
      ensures address % PAGE_SIZE == 0 && address / PAGE_SIZE < MAX_PAGES
      ensures old(Free()) == {} ==> address == 0 && Free() == {} && held == old(held)
      ensures old(Free()) != {} ==> var p := address / PAGE_SIZE;
        && p in old(Free()) && (forall q :: q in old(Free()) ==> p <= q)
        && Free() == old(Free()) - {p} && held == old(held) + {p}
      ensures old(Valid()) ==> Valid() && (address == 0 <==> old(Free()) == {}) && address / PAGE_SIZE !in old(held)
    {
      hide Free, FreeSet, Valid;
      var i := LowestFree();
      if i == MAX_PAGES {
        if Valid() {
          EmptyPool();
        }
        return 0;
      }
      Take(i);
      address := i * PAGE_SIZE;
    }

    lemma FreedValid(free: set<nat>, was: set<nat>, p: nat)
      requires Counted() && p in pool && Free() == free + {p} && held == was - {p}
      requires free + was == pool && free !! was && 0 !in pool
      ensures Valid()
    {
    }

    /** Gives the page of an address back; nothing happens when it is free already. */
    method FreePage(address: nat)
      requires Counted() && address / PAGE_SIZE < MAX_PAGES
      modifies this`freePages, this`held, bitmap
      ensures Counted() && Free() == old(Free()) + {address / PAGE_SIZE} && held == old(held) - {address / PAGE_SIZE}
      ensures old(Valid()) && address / PAGE_SIZE in old(pool) ==> Valid()
    {
      hide Free, Test, FreeSet, Valid;
      ghost var free, was, valid := Free(), held, Valid();
      if valid {
        ValidSets();
      }
      var index := address / PAGE_SIZE;
      TestMeans(index);
      Moved(free, index);
      if Test(index) {
        Clear(index);
        freePages := freePages + 1;
      }
      held := held - {index};
      if valid && index in pool {
        FreedValid(free, was, index);
      }
    }

    /** Free and held pages together stay as many as initialization freed. */
    lemma PagesConserved()
      requires Valid()
      ensures freePages + |held| == |pool|
    {
      assert |Free() + held| == |Free()| + |held|;
    }
  }
}
