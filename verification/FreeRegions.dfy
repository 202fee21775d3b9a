/** The first-fit allocator as a state machine: free regions, blocks in use and padding that is given up. */
module FreeRegions {
  import opened Arithmetic
  import opened Bytes

  /** Addresses `start` up to `start + size`. */
  datatype Region = Region(start: nat, size: nat)

  /** What a caller asks for. */
  datatype Layout = Layout(size: nat, align: nat)

  /** A block in use: where it is and the layout it was asked for with. */
  datatype Block = Block(region: Region, layout: Layout)

  /** `lost` holds what was cut off in front of blocks to align them; no list remembers it. */
  datatype Heap = Heap(low: nat, high: nat, regions: seq<Region>, live: seq<Block>, lost: seq<Region>)

  /** Size and alignment of a list node. */
  const NODE_SIZE := 16
  const NODE_ALIGN := 8
  const USIZE := 0x1_0000_0000_0000_0000
  /** One more than the largest signed size, which bounds layouts and the heap. */
  const HALF := 0x8000_0000_0000_0000

  function End(r: Region): nat { r.start + r.size }

  // ----- the operations -----

  /** `align_up`. */
  function AlignUp(addr: nat, align: nat): nat
    requires align > 0
  {
    if addr % align == 0 then addr else addr - addr % align + align
  }

  /** A layout can only be made with a power of two, and a size that does not overflow when rounded up. */
  ghost predicate ValidLayout(l: Layout) {
    (exists e: nat :: l.align == Pow2(e)) && 0 < l.size && l.size + l.align <= HALF
  }

  /** `size_align`; `None` where the code stops because the larger alignment overflows. */
  function SizeAlign(l: Layout): Option<Layout>
    requires l.align > 0
  {
    var align := Max(l.align, NODE_ALIGN);
    if l.size + align > HALF then None
    else Some(Layout(Max(AlignUp(l.size, align), NODE_SIZE), align))
  }

  /** `alloc_from_region`: where the block would start. */
  function AllocFromRegion(r: Region, size: nat, align: nat): Option<nat>
    requires align > 0
  {
    var start := AlignUp(r.start, align);
    if start + size >= USIZE then None
    else if start + size > End(r) then None
    else
      var excess := End(r) - (start + size);
      if 0 < excess < NODE_SIZE then None else Some(start)
  }

  predicate Fits(r: Region, size: nat, align: nat)
    requires align > 0
  {
    AllocFromRegion(r, size, align).Some?
  }

  /** `i` is the first region that fits. */
  predicate FirstFit(regions: seq<Region>, size: nat, align: nat, i: nat)
    requires align > 0
  {
    && i < |regions| && Fits(regions[i], size, align)
    && forall j :: 0 <= j < i ==> !Fits(regions[j], size, align)
  }

  predicate NoFit(regions: seq<Region>, size: nat, align: nat)
    requires align > 0
  {
    forall j :: 0 <= j < |regions| ==> !Fits(regions[j], size, align)
  }

  function Without<T>(s: seq<T>, i: nat): seq<T>
    requires i < |s|
  {
    s[..i] + s[i + 1..]
  }

  /** A region, if it is not empty. */
  function Piece(start: nat, end: nat): seq<Region>
    requires start <= end
  {
    if start == end then [] else [Region(start, end - start)]
  }

  /** The first region that fits. */
  function FindFit(regions: seq<Region>, size: nat, align: nat): (r: Option<nat>)
    requires align > 0
    ensures r.None? <==> NoFit(regions, size, align)
    ensures r.Some? ==> FirstFit(regions, size, align, r.value)
  {
    if regions == [] then None
    else if Fits(regions[0], size, align) then Some(0)
    else match FindFit(regions[1..], size, align)
      case None => None
      case Some(i) => Some(i + 1)
  }

  /** The heap after region `i` was used for a block with layout `l`, adjusted to `a`: what is behind the
      block becomes the first free region, what is before it is lost. */
  function Cut(h: Heap, l: Layout, a: Layout, i: nat): Heap
    requires a.align > 0 && i < |h.regions| && Fits(h.regions[i], a.size, a.align)
  {
    var r := h.regions[i];
    var start := AllocFromRegion(r, a.size, a.align).value;
    h.(regions := Piece(start + a.size, End(r)) + Without(h.regions, i),
       live := [Block(Region(start, a.size), l)] + h.live,
       lost := Piece(r.start, start) + h.lost)
  }

  /** `alloc`: the heap after it and the pointer, 0 being null. */
  function Alloc(h: Heap, l: Layout): (Heap, nat)
    requires l.align > 0 && SizeAlign(l).Some?
  {
    var a := SizeAlign(l).value;
    match FindFit(h.regions, a.size, a.align)
    case None => (h, 0)
    case Some(i) => (Cut(h, l, a, i), AllocFromRegion(h.regions[i], a.size, a.align).value)
  }

  /** `dealloc`: the block, with its adjusted size computed again, becomes the first free region. */
  function Release(h: Heap, i: nat): Heap
    requires i < |h.live|
  {
    var b := h.live[i];
    if b.layout.align == 0 || SizeAlign(b.layout).None? then h
    else h.(regions := [Region(b.region.start, SizeAlign(b.layout).value.size)] + h.regions,
            live := Without(h.live, i))
  }

  /** What `alloc` gives when region `i` is the first that fits, and when none fits. */
  lemma AllocCases(h: Heap, l: Layout, a: Layout)
    requires l.align > 0 && SizeAlign(l) == Some(a) && a.align > 0
    ensures match FindFit(h.regions, a.size, a.align)
            case None => Alloc(h, l) == (h, 0)
            case Some(i) => Alloc(h, l) == (Cut(h, l, a, i), AllocFromRegion(h.regions[i], a.size, a.align).value)
  {
  }

  // ----- what is kept -----

  function Covers(r: Region, x: nat): nat { if r.start <= x < End(r) then 1 else 0 }

  /** How many of the regions contain the address. */
  function Cover(s: seq<Region>, x: nat): nat {
    if s == [] then 0 else Covers(s[0], x) + Cover(s[1..], x)
  }

  function Total(s: seq<Region>): nat {
    if s == [] then 0 else s[0].size + Total(s[1..])
  }

  function Areas(s: seq<Block>): (r: seq<Region>)
    ensures |r| == |s| && forall i :: 0 <= i < |s| ==> r[i] == s[i].region
  {
    seq(|s|, i requires 0 <= i < |s| => s[i].region)
  }

  function CoverAll(h: Heap, x: nat): nat {
    Cover(h.regions, x) + Cover(Areas(h.live), x) + Cover(h.lost, x)
  }

  predicate RegionOk(r: Region) { r.start % NODE_ALIGN == 0 && r.size >= NODE_SIZE }

  predicate AllOk(s: seq<Region>) {
    forall i :: 0 <= i < |s| ==> RegionOk(s[i])
  }

  /** A block is aligned and large enough for its layout. */
  ghost predicate BlockOk(b: Block) {
    && ValidLayout(b.layout) && SizeAlign(b.layout).Some? && b.region.size == SizeAlign(b.layout).value.size
    && RegionOk(b.region) && b.region.start % b.layout.align == 0 && b.region.size >= b.layout.size
  }

  /** Free regions, blocks and lost padding tile the heap: every address of it is in exactly one. */
  ghost predicate Tiled(h: Heap) {
    && (forall x: nat {:trigger CoverAll(h, x)} :: CoverAll(h, x) == if h.low <= x < h.high then 1 else 0)
    && Total(h.regions) + Total(Areas(h.live)) + Total(h.lost) == h.high - h.low
  }

  ghost predicate Inv(h: Heap) {
    && 0 < h.low <= h.high <= HALF && Tiled(h)
    && AllOk(h.regions)
    && (forall i :: 0 <= i < |h.live| ==> BlockOk(h.live[i]))
  }

  // ----- counting -----

  lemma {:induction false} CoverJoin(s: seq<Region>, t: seq<Region>, x: nat)
    ensures Cover(s + t, x) == Cover(s, x) + Cover(t, x) && Total(s + t) == Total(s) + Total(t)
  {
    if s == [] {
      assert s + t == t;
    } else {
      assert (s + t)[0] == s[0] && (s + t)[1..] == s[1..] + t;
      CoverJoin(s[1..], t, x);
    }
  }

  lemma CoverWithout(s: seq<Region>, i: nat, x: nat)
    requires i < |s|
    ensures Cover(s, x) == Cover(Without(s, i), x) + Covers(s[i], x) && Total(s) == Total(Without(s, i)) + s[i].size
  {
    assert s == s[..i] + ([s[i]] + s[i + 1..]);
    CoverJoin(s[..i], [s[i]] + s[i + 1..], x);
    assert ([s[i]] + s[i + 1..])[1..] == s[i + 1..];
    CoverJoin(s[..i], s[i + 1..], x);
  }

  lemma CoverPiece(start: nat, end: nat, x: nat)
    requires start <= end
    ensures Cover(Piece(start, end), x) == (if start <= x < end then 1 else 0)
    ensures Total(Piece(start, end)) == end - start
  {
  }

  lemma CoverOne(r: Region, x: nat)
    ensures Cover([r], x) == Covers(r, x) && Total([r]) == r.size
  {
  }

  lemma CoverMember(s: seq<Region>, i: nat, x: nat)
    requires i < |s|
    ensures Cover(s, x) >= Covers(s[i], x)
  {
    CoverWithout(s, i, x);
  }

  lemma CoverTwo(s: seq<Region>, i: nat, j: nat, x: nat)
    requires i < j < |s|
    ensures Cover(s, x) >= Covers(s[i], x) + Covers(s[j], x)
  {
    CoverWithout(s, j, x);
    CoverMember(Without(s, j), i, x);
  }

  // ----- arithmetic -----

  lemma AlignUpIsMultiple(addr: nat, align: nat)
    requires align > 0
    ensures AlignUp(addr, align) % align == 0 && addr <= AlignUp(addr, align) < addr + align
  {
    var q := addr / align;
    DivTimes(addr, align);
    TimesDiv(q, align);
    TimesDiv(q + 1, align);
  }

  /** The larger of a power of two and 8 is a multiple of both. */
  lemma Alignments(e: nat, start: nat)
    ensures var m := Max(Pow2(e), NODE_ALIGN);
            && m % NODE_ALIGN == 0
            && (start % m == 0 ==> start % Pow2(e) == 0 && start % NODE_ALIGN == 0)
  {
    Pow2Multiple(e);
    var m := Max(Pow2(e), NODE_ALIGN);
    if start % m == 0 {
      MultipleOfEight(start, m);
      EvenMore(start);
    }
  }

  lemma EvenMore(start: nat)
    requires start % 8 == 0
    ensures start % 1 == 0 && start % 2 == 0 && start % 4 == 0
  {
    var q := start / 8;
    assert start == 8 * q && start == 2 * (4 * q) && start == 4 * (2 * q);
  }

  /** The adjusted layout: a multiple of 8 with room for a node, large enough, and at least as aligned. */
  lemma SizeAlignOk(l: Layout, start: nat)
    requires ValidLayout(l) && SizeAlign(l).Some?
    ensures var a := SizeAlign(l).value;
            && a.align >= NODE_ALIGN && a.align <= HALF
            && a.size >= NODE_SIZE && a.size % NODE_ALIGN == 0 && a.size >= l.size
            && (a.size == NODE_SIZE || a.size < l.size + a.align)
            && (start % a.align == 0 ==> start % l.align == 0 && start % NODE_ALIGN == 0)
  {
    var e: nat :| l.align == Pow2(e);
    Alignments(e, start);
    var align := SizeAlign(l).value.align;
    RoundedSize(l.size, align);
  }

  lemma RoundedSize(size: nat, align: nat)
    requires align > 0 && align % NODE_ALIGN == 0
    ensures AlignUp(size, align) % NODE_ALIGN == 0 && size <= AlignUp(size, align) < size + align
  {
    AlignUpIsMultiple(size, align);
    MultipleOfEight(AlignUp(size, align), align);
  }

  /** Where the block is put in a region that fits. */
  lemma FitsOk(r: Region, size: nat, align: nat)
    requires align > 0 && Fits(r, size, align)
    ensures var start := AllocFromRegion(r, size, align).value;
            && start % align == 0 && r.start <= start && start + size <= End(r)
            && (start + size == End(r) || start + size + NODE_SIZE <= End(r))
            && (r.start % align == 0 ==> start == r.start)
  {
    AlignUpIsMultiple(r.start, align);
  }

  // ----- every step keeps the invariant -----

  lemma AreasFirst(b: Block, s: seq<Block>)
    ensures Areas([b] + s) == [b.region] + Areas(s)
  {
  }

  lemma AreasWithout(s: seq<Block>, i: nat)
    requires i < |s|
    ensures Areas(Without(s, i)) == Without(Areas(s), i)
  {
  }

  lemma CutCover(h: Heap, l: Layout, a: Layout, i: nat, x: nat)
    requires a.align > 0 && i < |h.regions| && Fits(h.regions[i], a.size, a.align)
    ensures var u := Cut(h, l, a, i);
            && CoverAll(u, x) == CoverAll(h, x)
            && Total(u.regions) + Total(Areas(u.live)) + Total(u.lost)
                 == Total(h.regions) + Total(Areas(h.live)) + Total(h.lost)
  {
    var r := h.regions[i];
    var start := AllocFromRegion(r, a.size, a.align).value;
    FitsOk(r, a.size, a.align);
    var b := Block(Region(start, a.size), l);
    CoverWithout(h.regions, i, x);
    CoverJoin(Piece(start + a.size, End(r)), Without(h.regions, i), x);
    CoverPiece(start + a.size, End(r), x);
    AreasFirst(b, h.live);
    CoverJoin([b.region], Areas(h.live), x);
    CoverOne(b.region, x);
    CoverJoin(Piece(r.start, start), h.lost, x);
    CoverPiece(r.start, start, x);
  }

  lemma CutTiled(h: Heap, l: Layout, a: Layout, i: nat)
    requires Tiled(h) && a.align > 0 && i < |h.regions| && Fits(h.regions[i], a.size, a.align)
    ensures Tiled(Cut(h, l, a, i))
  {
    var u := Cut(h, l, a, i);
    CutCover(h, l, a, i, 0);
    forall x: nat
      ensures CoverAll(u, x) == if u.low <= x < u.high then 1 else 0
    {
      CutCover(h, l, a, i, x);
    }
  }

  /** A block at an aligned place meets its layout, and ends at a multiple of 8. */
  lemma BlockMade(l: Layout, start: nat)
    requires ValidLayout(l) && SizeAlign(l).Some? && start % SizeAlign(l).value.align == 0
    ensures BlockOk(Block(Region(start, SizeAlign(l).value.size), l))
    ensures (start + SizeAlign(l).value.size) % NODE_ALIGN == 0
  {
    SizeAlignOk(l, start);
    EightSum(start, SizeAlign(l).value.size);
  }

  lemma RestMade(start: nat, end: nat)
    requires start % NODE_ALIGN == 0 && (start == end || start + NODE_SIZE <= end)
    ensures AllOk(Piece(start, end))
  {
  }

  lemma CutKeeps(h: Heap, l: Layout, i: nat)
    requires Inv(h) && ValidLayout(l) && SizeAlign(l).Some? && i < |h.regions|
    requires Fits(h.regions[i], SizeAlign(l).value.size, SizeAlign(l).value.align)
    ensures Inv(Cut(h, l, SizeAlign(l).value, i))
  {
    var a, r := SizeAlign(l).value, h.regions[i];
    var start := AllocFromRegion(r, a.size, a.align).value;
    CutTiled(h, l, a, i);
    FitsOk(r, a.size, a.align);
    BlockMade(l, start);
    RestMade(start + a.size, End(r));
  }

  lemma ReleaseCover(h: Heap, i: nat, x: nat)
    requires i < |h.live| && BlockOk(h.live[i])
    ensures var u := Release(h, i);
            && CoverAll(u, x) == CoverAll(h, x)
            && Total(u.regions) + Total(Areas(u.live)) + Total(u.lost)
                 == Total(h.regions) + Total(Areas(h.live)) + Total(h.lost)
  {
    var r := h.live[i].region;
    CoverJoin([r], h.regions, x);
    CoverOne(r, x);
    AreasWithout(h.live, i);
    CoverWithout(Areas(h.live), i, x);
  }

  lemma ReleaseKeeps(h: Heap, i: nat)
    requires Inv(h) && i < |h.live|
    ensures BlockOk(h.live[i]) && Inv(Release(h, i))
  {
    var u := Release(h, i);
    assert Tiled(u) by {
      ReleaseCover(h, i, 0);
      forall x: nat
        ensures CoverAll(u, x) == if u.low <= x < u.high then 1 else 0
      {
        ReleaseCover(h, i, x);
      }
    }
  }

  /** `init`: the whole heap is one free region. */
  function Fresh(low: nat, size: nat): Heap { Heap(low, low + size, [Region(low, size)], [], []) }

  /** The heap the allocator is given: aligned, with room for a node, in the lower half of the addresses. */
  predicate IsHeap(low: nat, size: nat) { 0 < low && low + size <= HALF && RegionOk(Region(low, size)) }

  lemma FreshInv(low: nat, size: nat)
    requires IsHeap(low, size)
    ensures Inv(Fresh(low, size))
  {
    forall x: nat
      ensures CoverAll(Fresh(low, size), x) == if low <= x < low + size then 1 else 0
    {
      CoverOne(Region(low, size), x);
    }
    CoverOne(Region(low, size), 0);
  }

  // ----- what the invariant means -----

  /** All pieces of the heap. */
  function Pieces(h: Heap): seq<Region> { h.regions + (Areas(h.live) + h.lost) }

  lemma PiecesCover(h: Heap, x: nat)
    ensures Cover(Pieces(h), x) == CoverAll(h, x)
    ensures Total(Pieces(h)) == Total(h.regions) + Total(Areas(h.live)) + Total(h.lost)
  {
    CoverJoin(Areas(h.live), h.lost, x);
    CoverJoin(h.regions, Areas(h.live) + h.lost, x);
  }

  /** No two pieces share an address. */
  lemma PiecesDisjoint(h: Heap, i: nat, j: nat)
    requires Inv(h) && i < j < |Pieces(h)|
    ensures End(Pieces(h)[i]) <= Pieces(h)[j].start || End(Pieces(h)[j]) <= Pieces(h)[i].start
              || Pieces(h)[i].size == 0 || Pieces(h)[j].size == 0
  {
    var a, b := Pieces(h)[i], Pieces(h)[j];
    var x := Max(a.start, b.start);
    PiecesCover(h, x);
    CoverTwo(Pieces(h), i, j, x);
    assert CoverAll(h, x) <= 1;
  }

  lemma AddressInside(h: Heap, i: nat, x: nat)
    requires Inv(h) && i < |Pieces(h)| && Covers(Pieces(h)[i], x) == 1
    ensures h.low <= x < h.high
  {
    PiecesCover(h, x);
    CoverMember(Pieces(h), i, x);
    assert CoverAll(h, x) >= 1;
  }

  /** Every piece lies in the heap. */
  lemma PieceInside(h: Heap, i: nat)
    requires Inv(h) && i < |Pieces(h)| && Pieces(h)[i].size > 0
    ensures h.low <= Pieces(h)[i].start && End(Pieces(h)[i]) <= h.high
  {
    AddressInside(h, i, Pieces(h)[i].start);
    AddressInside(h, i, End(Pieces(h)[i]) - 1);
  }

  lemma BlockInside(h: Heap, i: nat)
    requires Inv(h) && i < |h.live|
    ensures h.low <= h.live[i].region.start && End(h.live[i].region) <= h.high
  {
    assert Pieces(h)[|h.regions| + i] == h.live[i].region;
    PieceInside(h, |h.regions| + i);
  }

  lemma RegionInside(h: Heap, i: nat)
    requires Inv(h) && i < |h.regions|
    ensures h.low <= h.regions[i].start && End(h.regions[i]) <= h.high
  {
    assert Pieces(h)[i] == h.regions[i];
    PieceInside(h, i);
  }

  /** Rounding up the start of a region does not overflow. */
  lemma NoOverflow(h: Heap, i: nat, l: Layout)
    requires Inv(h) && i < |h.regions| && ValidLayout(l) && SizeAlign(l).Some?
    ensures AlignUp(h.regions[i].start, SizeAlign(l).value.align) < USIZE
  {
    RegionInside(h, i);
    SizeAlignOk(l, 0);
    AlignUpIsMultiple(h.regions[i].start, SizeAlign(l).value.align);
  }

  // ----- runs -----

  datatype Op = Allocate(layout: Layout) | Free(i: nat)

  /** The call is allowed: a layout the adjustment does not overflow, a block in use. */
  ghost predicate Allowed(h: Heap, op: Op) {
    match op
    case Allocate(l) => ValidLayout(l) && SizeAlign(l).Some?
    case Free(i) => i < |h.live|
  }

  ghost function Apply(h: Heap, op: Op): Heap
    requires Allowed(h, op)
  {
    match op
    case Allocate(l) => Alloc(h, l).0
    case Free(i) => Release(h, i)
  }

  ghost predicate StepAt(run: seq<Heap>, ops: seq<Op>, n: nat)
    requires n < |ops| && |run| == |ops| + 1
  {
    Allowed(run[n], ops[n]) && run[n + 1] == Apply(run[n], ops[n])
  }

  ghost predicate IsRun(run: seq<Heap>, ops: seq<Op>) {
    && |run| == |ops| + 1
    && forall n {:trigger StepAt(run, ops, n)} :: 0 <= n < |ops| ==> StepAt(run, ops, n)
  }

  lemma ApplyKeeps(h: Heap, op: Op)
    requires Inv(h) && Allowed(h, op)
    ensures Inv(Apply(h, op)) && Apply(h, op).low == h.low && Apply(h, op).high == h.high
  {
    match op
    case Allocate(l) =>
      var a := SizeAlign(l).value;
      match FindFit(h.regions, a.size, a.align) {
        case None =>
        case Some(i) => CutKeeps(h, l, i);
      }
    case Free(i) => ReleaseKeeps(h, i);
  }

  /** In every run on a fresh heap the pieces tile the heap, and regions and blocks are as they should be. */
  lemma {:induction false} RunKeeps(run: seq<Heap>, ops: seq<Op>, low: nat, size: nat, n: nat)
    requires IsRun(run, ops) && run[0] == Fresh(low, size) && n <= |ops|
    requires IsHeap(low, size)
    ensures Inv(run[n]) && run[n].low == low && run[n].high == low + size
  {
    if n == 0 {
      FreshInv(low, size);
    } else {
      RunKeeps(run, ops, low, size, n - 1);
      assert StepAt(run, ops, n - 1);
      ApplyKeeps(run[n - 1], ops[n - 1]);
    }
  }

  /** In every run, no two free regions or blocks in use overlap, and all lie in the heap. */
  lemma RunDisjoint(run: seq<Heap>, ops: seq<Op>, low: nat, size: nat, n: nat, i: nat, j: nat)
    requires IsRun(run, ops) && run[0] == Fresh(low, size) && n <= |ops|
    requires IsHeap(low, size)
    requires i < j < |run[n].regions| + |run[n].live|
    ensures var a, b := Pieces(run[n])[i], Pieces(run[n])[j];
            && low <= a.start && End(a) <= low + size && low <= b.start && End(b) <= low + size
            && (End(a) <= b.start || End(b) <= a.start)
  {
    RunKeeps(run, ops, low, size, n);
    var h := run[n];
    forall k | k == i || k == j
      ensures Pieces(h)[k].size >= NODE_SIZE
    {
      assert Pieces(h)[k] == if k < |h.regions| then h.regions[k] else h.live[k - |h.regions|].region;
    }
    PieceInside(h, i);
    PieceInside(h, j);
    PiecesDisjoint(h, i, j);
  }

  /** All blocks asked for so far had an alignment of at most 8. */
  ghost predicate SmallAligned(ops: seq<Op>, n: nat)
    requires n <= |ops|
  {
    forall i :: 0 <= i < n && ops[i].Allocate? ==> ops[i].layout.align <= NODE_ALIGN
  }

  lemma RunStepLoses(run: seq<Heap>, ops: seq<Op>, low: nat, size: nat, n: nat)
    requires IsRun(run, ops) && run[0] == Fresh(low, size) && IsHeap(low, size) && n < |ops|
    requires run[n].lost == [] && (ops[n].Allocate? ==> ops[n].layout.align <= NODE_ALIGN)
    ensures run[n + 1].lost == []
  {
    RunKeeps(run, ops, low, size, n);
    assert StepAt(run, ops, n);
    StepLosesNothing(run[n], ops[n]);
  }

  lemma {:induction false} RunLost(run: seq<Heap>, ops: seq<Op>, low: nat, size: nat, n: nat)
    requires IsRun(run, ops) && run[0] == Fresh(low, size) && IsHeap(low, size) && n <= |ops| && SmallAligned(ops, n)
    ensures run[n].lost == []
  {
    if n > 0 {
      RunLost(run, ops, low, size, n - 1);
      RunStepLoses(run, ops, low, size, n - 1);
    }
  }

  lemma TotalsAdd(h: Heap)
    requires Inv(h) && h.lost == []
    ensures Total(h.regions) + Total(Areas(h.live)) == h.high - h.low
  {
  }

  /** Nothing is lost for small alignments, and then free and used bytes add up to the heap. */
  lemma RunLosesNothing(run: seq<Heap>, ops: seq<Op>, low: nat, size: nat, n: nat)
    requires IsRun(run, ops) && run[0] == Fresh(low, size) && IsHeap(low, size) && n <= |ops| && SmallAligned(ops, n)
    ensures run[n].lost == [] && Total(run[n].regions) + Total(Areas(run[n].live)) == size
  {
    RunKeeps(run, ops, low, size, n);
    RunLost(run, ops, low, size, n);
    TotalsAdd(run[n]);
  }

  lemma StepLosesNothing(h: Heap, op: Op)
    requires Inv(h) && Allowed(h, op) && h.lost == [] && (op.Allocate? ==> op.layout.align <= NODE_ALIGN)
    ensures Apply(h, op).lost == []
  {
    if op.Allocate? {
      var a := SizeAlign(op.layout).value;
      match FindFit(h.regions, a.size, a.align) {
        case None =>
        case Some(i) =>
          assert RegionOk(h.regions[i]);
          FitsOk(h.regions[i], a.size, a.align);
      }
    }
  }

  /** A region that is exactly right is used whole. */
  lemma ExactFit(r: Region, size: nat, align: nat)
    requires align > 0 && r.start % align == 0 && r.size == size && End(r) < USIZE
    ensures AllocFromRegion(r, size, align) == Some(r.start)
  {
  }

  lemma ExactCut(h: Heap, l: Layout, a: Layout)
    requires a.align > 0 && h.regions != [] && h.regions[0].size == a.size
    requires AllocFromRegion(h.regions[0], a.size, a.align) == Some(h.regions[0].start)
    ensures Cut(h, l, a, 0) == h.(regions := h.regions[1..], live := [Block(h.regions[0], l)] + h.live)
  {
    assert Without(h.regions, 0) == h.regions[1..];
  }

  /** Asking again with the layout of the block just freed gives that block back and undoes the freeing. */
  lemma FreeThenAlloc(h: Heap, i: nat)
    requires Inv(h) && i < |h.live|
    ensures BlockOk(h.live[i])
    ensures Alloc(Release(h, i), h.live[i].layout)
              == (h.(live := [h.live[i]] + Without(h.live, i)), h.live[i].region.start)
  {
    var b, u := h.live[i], Release(h, i);
    assert BlockOk(b);
    var a := SizeAlign(b.layout).value;
    BlockInside(h, i);
    assert u.regions[0] == b.region && u.regions[1..] == h.regions;
    ExactFit(b.region, a.size, a.align);
    ExactCut(u, b.layout, a);
  }

  // ----- pieces are never joined -----

  /** The region is part of a free region or of a block in use. */
  ghost predicate PartOf(r: Region, h: Heap) {
    || (exists i :: 0 <= i < |h.regions| && h.regions[i].start <= r.start && End(r) <= End(h.regions[i]))
    || (exists i :: 0 <= i < |h.live| && h.live[i].region.start <= r.start && End(r) <= End(h.live[i].region))
  }

  /** All free regions and blocks of `u` are parts of free regions and blocks of `h`. */
  ghost predicate Finer(u: Heap, h: Heap) {
    && (forall i :: 0 <= i < |u.regions| ==> PartOf(u.regions[i], h))
    && (forall i :: 0 <= i < |u.live| ==> PartOf(u.live[i].region, h))
  }

  lemma CutFiner(h: Heap, l: Layout, a: Layout, i: nat)
    requires a.align > 0 && i < |h.regions| && Fits(h.regions[i], a.size, a.align)
    ensures Finer(Cut(h, l, a, i), h)
  {
    FitsOk(h.regions[i], a.size, a.align);
    var u := Cut(h, l, a, i);
    forall j | 0 <= j < |u.regions|
      ensures PartOf(u.regions[j], h)
    {
      assert PartOf(h.regions[i], h);
      assert u.regions[j] in Piece(AllocFromRegion(h.regions[i], a.size, a.align).value + a.size, End(h.regions[i]))
        || u.regions[j] in h.regions;
    }
    forall j | 0 <= j < |u.live|
      ensures PartOf(u.live[j].region, h)
    {
      assert j > 0 ==> u.live[j] == h.live[j - 1];
    }
  }

  lemma ReleaseFiner(h: Heap, i: nat)
    requires i < |h.live| && BlockOk(h.live[i])
    ensures Finer(Release(h, i), h)
  {
    var u := Release(h, i);
    forall j | 0 <= j < |u.regions|
      ensures PartOf(u.regions[j], h)
    {
      assert if j == 0 then u.regions[j] == h.live[i].region else u.regions[j] == h.regions[j - 1];
    }
    forall j | 0 <= j < |u.live|
      ensures PartOf(u.live[j].region, h)
    {
      assert u.live[j] == h.live[if j < i then j else j + 1];
    }
  }

  lemma ApplyFiner(h: Heap, op: Op)
    requires Inv(h) && Allowed(h, op)
    ensures Finer(Apply(h, op), h)
  {
    match op
    case Allocate(l) =>
      var a := SizeAlign(l).value;
      match FindFit(h.regions, a.size, a.align) {
        case None =>
        case Some(i) => CutFiner(h, l, a, i);
      }
    case Free(i) => ReleaseFiner(h, i);
  }

  lemma PartTrans(r: Region, u: Heap, h: Heap)
    requires PartOf(r, u) && Finer(u, h)
    ensures PartOf(r, h)
  {
    if i :| 0 <= i < |u.regions| && u.regions[i].start <= r.start && End(r) <= End(u.regions[i]) {
      assert PartOf(u.regions[i], h);
    } else {
      var i :| 0 <= i < |u.live| && u.live[i].region.start <= r.start && End(r) <= End(u.live[i].region);
      assert PartOf(u.live[i].region, h);
    }
  }

  lemma FinerSelf(h: Heap)
    ensures Finer(h, h)
  {
  }

  lemma FinerTrans(u: Heap, v: Heap, h: Heap)
    requires Finer(u, v) && Finer(v, h)
    ensures Finer(u, h)
  {
    forall i | 0 <= i < |u.regions|
      ensures PartOf(u.regions[i], h)
    {
      PartTrans(u.regions[i], v, h);
    }
    forall i | 0 <= i < |u.live|
      ensures PartOf(u.live[i].region, h)
    {
      PartTrans(u.live[i].region, v, h);
    }
  }

  /** Later pieces are parts of earlier ones: nothing is ever joined again. */
  lemma {:induction false} RunFiner(run: seq<Heap>, ops: seq<Op>, low: nat, size: nat, n: nat, m: nat)
    requires IsRun(run, ops) && run[0] == Fresh(low, size) && IsHeap(low, size) && n <= m <= |ops|
    ensures Finer(run[m], run[n])
    decreases m - n
  {
    if n == m {
      FinerSelf(run[n]);
    } else {
      RunFiner(run, ops, low, size, n, m - 1);
      RunKeeps(run, ops, low, size, m - 1);
      assert StepAt(run, ops, m - 1);
      ApplyFiner(run[m - 1], ops[m - 1]);
      FinerTrans(run[m], run[m - 1], run[n]);
    }
  }

  /** Once all pieces are too small for a request, it fails ever after, whatever is freed. */
  lemma TooSmallForever(run: seq<Heap>, ops: seq<Op>, low: nat, size: nat, n: nat, m: nat, l: Layout)
    requires IsRun(run, ops) && run[0] == Fresh(low, size) && IsHeap(low, size) && n <= m <= |ops|
    requires l.align > 0 && SizeAlign(l).Some?
    requires forall r :: r in run[n].regions ==> r.size < SizeAlign(l).value.size
    requires forall b :: b in run[n].live ==> b.region.size < SizeAlign(l).value.size
    ensures Alloc(run[m], l) == (run[m], 0)
  {
    var a := SizeAlign(l).value;
    RunFiner(run, ops, low, size, n, m);
    forall i | 0 <= i < |run[m].regions|
      ensures !Fits(run[m].regions[i], a.size, a.align)
    {
      assert PartOf(run[m].regions[i], run[n]);
      AlignUpIsMultiple(run[m].regions[i].start, a.align);
    }
  }
}
