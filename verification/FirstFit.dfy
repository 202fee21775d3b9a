/** The first-fit allocator described by addresses and sizes alone: which place a request gets, and when it
    gets none. */
module FirstFit {
  import opened Arithmetic
  import opened Bytes
  import opened FreeRegions

  /** Two multiples of `align` that are less than `align` apart are the same. */
  lemma MultiplesApart(x: nat, y: nat, align: nat)
    requires align > 0 && x % align == 0 && y % align == 0 && x < y
    ensures x + align <= y
  {
    DivTimes(x, align);
    DivTimes(y, align);
    TimesIs(x / align, align);
    TimesIs(y / align, align);
    if x / align >= y / align {
      TimesAtMost(y / align, x / align, align);
    } else {
      TimesMonotone(x / align, y / align, align);
    }
  }

  /** The only multiple of `align` among the `align` addresses from `addr` on. */
  lemma AlignUpOnly(addr: nat, align: nat, x: nat)
    requires align > 0
    ensures x == AlignUp(addr, align) <==> x % align == 0 && addr <= x < addr + align
  {
    AlignUpIsMultiple(addr, align);
    if x % align == 0 && x < AlignUp(addr, align) {
      MultiplesApart(x, AlignUp(addr, align), align);
    } else if x % align == 0 && AlignUp(addr, align) < x {
      MultiplesApart(AlignUp(addr, align), x, align);
    }
  }

  // ----- one region -----

  /** A block of `size` bytes is put at `start`: the first aligned address of the region, with nothing or at
      least a list node of 16 bytes behind it. */
  predicate Place(r: Region, size: nat, align: nat, start: nat)
    requires align > 0
  {
    && start % align == 0 && r.start <= start < r.start + align
    && start + size < 0x1_0000_0000_0000_0000
    && (start + size == r.start + r.size || start + size + 16 <= r.start + r.size)
  }

  /** A region is accepted exactly if there is such a place, and the block goes there. */
  lemma PlaceIff(r: Region, size: nat, align: nat, start: nat)
    requires align > 0
    ensures AllocFromRegion(r, size, align) == Some(start) <==> Place(r, size, align, start)
  {
    AlignUpOnly(r.start, align, start);
  }

  predicate HasPlace(r: Region, size: nat, align: nat)
    requires align > 0
  {
    exists start :: r.start <= start < r.start + align && Place(r, size, align, start)
  }

  lemma FitsIff(r: Region, size: nat, align: nat)
    requires align > 0
    ensures Fits(r, size, align) <==> HasPlace(r, size, align)
  {
    if Fits(r, size, align) {
      PlaceIff(r, size, align, AllocFromRegion(r, size, align).value);
    }
    if HasPlace(r, size, align) {
      var start :| r.start <= start < r.start + align && Place(r, size, align, start);
      PlaceIff(r, size, align, start);
    }
  }

  // ----- the adjusted request -----

  /** The alignment asked for or 8, whichever is larger, and the least multiple of it that holds both the
      request and a list node of 16 bytes. */
  predicate Adjusted(l: Layout, size: nat, align: nat) {
    && align >= 8 && align >= l.align && (align == 8 || align == l.align)
    && size % align == 0 && size >= l.size && size >= 16 && (size < l.size + align || size < 16 + align)
  }

  /** A layout is adjusted to exactly that, unless it is too large for its alignment. */
  lemma AdjustedIff(l: Layout, size: nat, align: nat)
    requires ValidLayout(l)
    ensures SizeAlign(l) == Some(Layout(size, align))
       <==> Adjusted(l, size, align) && l.size + align <= 0x8000_0000_0000_0000
  {
    var e: nat :| l.align == Pow2(e);
    var m := Max(l.align, 8);
    Alignments(e, 0);
    if align == m {
      AlignUpOnly(l.size, m, AlignUp(l.size, m));
      LeastMultiple(l.size, m, size);
    }
  }

  /** The least multiple of `m` that is at least `n` and at least 16. */
  lemma LeastMultiple(n: nat, m: nat, size: nat)
    requires n > 0 && m >= 8 && m % 8 == 0
    ensures size == Max(AlignUp(n, m), 16)
       <==> size % m == 0 && size >= n && size >= 16 && (size < n + m || size < 16 + m)
  {
    var up := AlignUp(n, m);
    AlignUpIsMultiple(n, m);
    Sixteen(m, up);
    var best := Max(up, 16);
    if size % m == 0 && size >= n && size >= 16 {
      if size < best {
        MultiplesApart(size, best, m);
      } else if best < size {
        MultiplesApart(best, size, m);
      }
    }
  }

  /** Rounding a positive number up to a multiple of `m` gives at least 16, or `m` is 8 and it gives 8. */
  lemma Sixteen(m: nat, up: nat)
    requires m >= 8 && m % 8 == 0 && up > 0 && up % m == 0
    ensures up >= 16 || m == 8
    ensures Max(up, 16) % m == 0
  {
  }

  // ----- the whole list -----

  /** Region `i` is the first that has a place for the request. */
  predicate FirstPlace(regions: seq<Region>, size: nat, align: nat, i: nat)
    requires align > 0
  {
    && i < |regions| && HasPlace(regions[i], size, align)
    && forall j :: 0 <= j < i ==> !HasPlace(regions[j], size, align)
  }

  lemma NoPlaceIff(regions: seq<Region>, size: nat, align: nat)
    requires align > 0
    ensures FindFit(regions, size, align).None? <==>
              forall j :: 0 <= j < |regions| ==> !HasPlace(regions[j], size, align)
    ensures FindFit(regions, size, align).Some? ==>
              FirstPlace(regions, size, align, FindFit(regions, size, align).value)
  {
    forall j | 0 <= j < |regions|
      ensures Fits(regions[j], size, align) <==> HasPlace(regions[j], size, align)
    {
      FitsIff(regions[j], size, align);
    }
  }

  /** The free list after a block that ends at `end` was cut out of region `i`: the rest of the region, if any,
      comes first. */
  function AfterCut(regions: seq<Region>, i: nat, end: nat): seq<Region>
    requires i < |regions| && end <= regions[i].start + regions[i].size
  {
    var rest := regions[i].start + regions[i].size - end;
    (if rest == 0 then [] else [Region(end, rest)]) + (regions[..i] + regions[i + 1..])
  }

  /** `alloc` returns null, and changes nothing, exactly if no free region has a place for the adjusted request.
      Otherwise the block is at the place in the first region that has one, and is taken out of that region. */
  lemma AllocIff(h: Heap, l: Layout, size: nat, align: nat) returns (i: nat)
    requires Inv(h) && ValidLayout(l) && Adjusted(l, size, align) && l.size + align <= 0x8000_0000_0000_0000
    ensures SizeAlign(l).Some?
    ensures var (u, ptr) := Alloc(h, l);
            && (ptr == 0 <==> forall j :: 0 <= j < |h.regions| ==> !HasPlace(h.regions[j], size, align))
            && (ptr == 0 ==> u == h)
            && (ptr != 0 ==>
                  && FirstPlace(h.regions, size, align, i) && Place(h.regions[i], size, align, ptr)
                  && u.regions == AfterCut(h.regions, i, ptr + size)
                  && u.live == [Block(Region(ptr, size), l)] + h.live)
  {
    AdjustedIff(l, size, align);
    NoPlaceIff(h.regions, size, align);
    AllocCases(h, l, Layout(size, align));
    i := 0;
    if FindFit(h.regions, size, align).Some? {
      i := FindFit(h.regions, size, align).value;
      RegionInside(h, i);
      CutIs(h, l, size, align, i);
    }
  }

  lemma CutIs(h: Heap, l: Layout, size: nat, align: nat, i: nat)
    requires align > 0 && i < |h.regions| && Fits(h.regions[i], size, align)
    ensures var u, start := Cut(h, l, Layout(size, align), i), AllocFromRegion(h.regions[i], size, align).value;
            && Place(h.regions[i], size, align, start)
            && u.regions == AfterCut(h.regions, i, start + size)
            && u.live == [Block(Region(start, size), l)] + h.live
  {
    PlaceIff(h.regions[i], size, align, AllocFromRegion(h.regions[i], size, align).value);
  }

  /** On a fresh heap at least as large as the request and a list node, with an aligned start, the request gets
      the start of the heap. */
  lemma FreshAlloc(low: nat, heapSize: nat, l: Layout, size: nat, align: nat)
    requires IsHeap(low, heapSize) && ValidLayout(l) && Adjusted(l, size, align)
    requires l.size + align <= 0x8000_0000_0000_0000 && low % align == 0 && size + 16 <= heapSize
    ensures SizeAlign(l).Some? && Alloc(Fresh(low, heapSize), l).1 == low
  {
    FreshInv(low, heapSize);
    var h := Fresh(low, heapSize);
    var i := AllocIff(h, l, size, align);
    assert Place(h.regions[0], size, align, low);
    AlignUpOnly(low, align, low);
    AlignUpOnly(low, align, Alloc(h, l).1);
  }
}
