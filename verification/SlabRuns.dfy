/** Allocation and deallocation over whole runs: disjoint memory, recovered pointers, bounded growth. */
module SlabRuns {
  import opened Arithmetic
  import opened Bytes
  import opened SlabLayout
  import opened SlabModel

  // ----- the two operations -----

  /** An allocation either stops the code, for want of a page, or returns a pointer, 0 being null. */
  datatype Allocation = Stopped | Done(after: State, ptr: nat)

  lemma ReadyKeeps(st: State, k: nat)
    requires Inv(st) && k in st.caches && Ready(st, k).Some?
    ensures Inv(Ready(st, k).value) && k in Ready(st, k).value.caches && Ready(st, k).value.caches[k].partial != []
    ensures SameShape(Ready(st, k).value.caches[k], st.caches[k])
  {
    if st.caches[k].partial == [] {
      if st.caches[k].empty != [] {
        PromoteKeeps(st, k);
      } else {
        GrowKeeps(st, k);
        PromoteKeeps(Grow(st, k).value, k);
      }
    }
  }

  /** There is an object to take. The invariant implies it whenever the code gets there. */
  predicate CanTake(st: State, k: nat) {
    && k in st.caches && st.caches[k].partial != [] && st.caches[k].partial[0] in st.slabs
    && st.slabs[st.caches[k].partial[0]].free != []
  }

  /** `alloc` for a class whose cache exists. */
  function AllocIn(st: State, k: nat): Allocation
    requires k in st.caches
  {
    if Ready(st, k).None? || !CanTake(Ready(st, k).value, k) then Stopped
    else
      var u := Ready(st, k).value;
      var c := u.caches[k];
      Done(Take(u, k), ObjectAddress(c.partial[0], c.objSize, c.num, u.slabs[c.partial[0]].free[0]))
  }

  /** `alloc`. */
  function Alloc(st: State, size: nat): Allocation
    requires size > 0
  {
    if size > MAX_SLAB_SIZE then
      if PagesAt(st, PagesFor(size)).None? then Done(st, 0) else Done(TakeLarge(st, PagesFor(size)), st.next)
    else if OpenCache(st, size).None? then Stopped
    else AllocIn(OpenCache(st, size).value, ClassOf(size))
  }

  /** With the invariant, `alloc` stops only for want of a page. */
  lemma StopsWithoutPage(st: State, size: nat)
    requires Inv(st) && 0 < size <= MAX_SLAB_SIZE
    ensures Alloc(st, size).Stopped? <==>
              OpenCache(st, size).None? || Ready(OpenCache(st, size).value, ClassOf(size)).None?
  {
    if OpenCache(st, size).Some? {
      OpenCacheKeeps(st, size);
      var u, k := OpenCache(st, size).value, ClassOf(size);
      if Ready(u, k).Some? {
        ReadyKeeps(u, k);
        TakeKeeps(Ready(u, k).value, k);
      }
    }
  }

  /** Object `i` of the slab at `p` is in use. */
  predicate InUse(st: State, p: nat, i: nat) {
    p in st.slabs && i in st.slabs[p].live && st.slabs[p].kind in st.caches
  }

  /** The address of object `i` of the slab at `p`. */
  function AddressOf(st: State, p: nat, i: nat): nat
    requires p in st.slabs && st.slabs[p].kind in st.caches
  {
    var c := st.caches[st.slabs[p].kind];
    ObjectAddress(p, c.objSize, c.num, i)
  }

  /** `ptr` is what an allocation of that size returned and was not given back since: object `i` of the
      slab at `p`. */
  predicate IsLive(st: State, ptr: nat, size: nat, p: nat, i: nat) {
    InUse(st, p, i) && 0 < size <= MAX_SLAB_SIZE && st.slabs[p].kind == ClassOf(size) && ptr == AddressOf(st, p, i)
  }

  /** What `dealloc` reads is there. The invariant implies it for live pointers. */
  predicate CanGive(st: State, page: nat, ptr: nat, k: nat) {
    && k in st.caches && st.caches[k].objSize > 0 && FirstObject(page, st.caches[k].num) <= ptr
    && page in st.slabs && st.slabs[page].kind in st.caches
  }

  /** `dealloc` computes the slab by masking and the index by dividing. */
  function Dealloc(st: State, ptr: nat, size: nat): State
    requires size > 0
  {
    var page := ptr - ptr % PAGE_SIZE;
    if size > MAX_SLAB_SIZE || ptr == 0 || !CanGive(st, page, ptr, ClassOf(size)) then st
    else
      var c := st.caches[ClassOf(size)];
      Give(st, page, (ptr - FirstObject(page, c.num)) / c.objSize)
  }

  /** Masking and dividing recover the object a live pointer came from. */
  lemma PointerRecovered(st: State, ptr: nat, size: nat, p: nat, i: nat)
    requires Inv(st) && IsLive(st, ptr, size, p, i)
    ensures ClassOf(size) in st.caches
    ensures var c := st.caches[ClassOf(size)];
            && c.objSize > 0 && ptr - ptr % PAGE_SIZE == p
            && FirstObject(p, c.num) <= ptr && (ptr - FirstObject(p, c.num)) / c.objSize == i
            && ptr % 8 == 0 && ptr != 0
  {
    assert SlabOk(st, p) && PageOk(st, p);
    var k := ClassOf(size);
    assert CacheOk(st, k);
    Recover(p, st.caches[k].objSize, i);
    ObjectInPage(p, st.caches[k].objSize, i);
  }

  lemma LivePointer(st: State, ptr: nat, size: nat)
    requires Inv(st) && exists p, i :: IsLive(st, ptr, size, p, i)
    ensures ClassOf(size) in st.caches
    ensures var c := st.caches[ClassOf(size)]; var page := ptr - ptr % PAGE_SIZE;
            && c.objSize > 0 && FirstObject(page, c.num) <= ptr
            && IsLive(st, ptr, size, page, (ptr - FirstObject(page, c.num)) / c.objSize)
  {
    var p, i :| IsLive(st, ptr, size, p, i);
    PointerRecovered(st, ptr, size, p, i);
  }

  /** `dealloc` of a live pointer gives back its object. */
  lemma DeallocIsGive(st: State, ptr: nat, size: nat, p: nat, i: nat)
    requires Inv(st) && IsLive(st, ptr, size, p, i)
    ensures Dealloc(st, ptr, size) == Give(st, p, i)
  {
    PointerRecovered(st, ptr, size, p, i);
    assert SlabOk(st, p);
  }

  lemma AllocKeeps(st: State, size: nat)
    requires Inv(st) && size > 0 && Alloc(st, size).Done?
    ensures Inv(Alloc(st, size).after)
  {
    if size > MAX_SLAB_SIZE {
      if PagesAt(st, PagesFor(size)).Some? {
        LargeKeeps(st, PagesFor(size));
      }
    } else {
      OpenCacheKeeps(st, size);
      var u := OpenCache(st, size).value;
      ReadyKeeps(u, ClassOf(size));
      TakeKeeps(Ready(u, ClassOf(size)).value, ClassOf(size));
    }
  }

  lemma DeallocKeeps(st: State, ptr: nat, size: nat)
    requires size > 0
    requires size > MAX_SLAB_SIZE || ptr == 0 || exists p, i :: IsLive(st, ptr, size, p, i)
    requires Inv(st)
    ensures Inv(Dealloc(st, ptr, size))
  {
    if size <= MAX_SLAB_SIZE && ptr != 0 {
      LivePointer(st, ptr, size);
      var c, page := st.caches[ClassOf(size)], ptr - ptr % PAGE_SIZE;
      GiveKeeps(st, page, (ptr - FirstObject(page, c.num)) / c.objSize);
    }
  }

  // ----- disjoint memory -----

  /** The areas of the heap that are in use. */
  datatype Area = Object(p: nat, i: nat) | Large(b: nat) | Header(p: nat) | RecordOf(k: nat)

  predicate Present(st: State, a: Area) {
    match a
    case Object(p, i) => InUse(st, p, i)
    case Large(b) => b in st.large
    case Header(p) => p in st.slabs && st.slabs[p].kind in st.caches
    case RecordOf(k) => k in st.caches
  }

  /** First address of an area. */
  function Low(st: State, a: Area): nat
    requires Present(st, a)
  {
    match a
    case Object(p, i) => AddressOf(st, p, i)
    case Large(b) => b
    case Header(p) => p
    case RecordOf(k) => st.caches[k].addr
  }

  /** First address behind an area: objects have the size of their class, headers include their table. */
  function High(st: State, a: Area): nat
    requires Present(st, a)
  {
    match a
    case Object(p, i) => AddressOf(st, p, i) + st.caches[st.slabs[p].kind].objSize
    case Large(b) => b + st.large[b] * PAGE_SIZE
    case Header(p) => p + SLAB_SIZE + st.caches[st.slabs[p].kind].num * BUFCTL_SIZE
    case RecordOf(k) => st.caches[k].addr + CACHE_SIZE
  }

  /** The page an area starts in. */
  function PageOf(st: State, a: Area): nat
    requires Present(st, a)
  {
    match a
    case Object(p, i) => p
    case Large(b) => b
    case Header(p) => p
    case RecordOf(k) => st.caches[k].addr
  }

  /** What that page is used for. */
  function OwnerOf(st: State, a: Area): Owner
    requires Present(st, a)
  {
    match a
    case Object(p, i) => SlabPage(st.slabs[p].kind)
    case Large(b) => LargePage(b)
    case Header(p) => SlabPage(st.slabs[p].kind)
    case RecordOf(k) => Record(k)
  }

  /** Small areas lie in one page. */
  lemma AreaInPage(st: State, a: Area)
    requires Inv(st) && Present(st, a)
    ensures PageOf(st, a) in st.owner && PageOk(st, PageOf(st, a))
    ensures PageOf(st, a) <= Low(st, a) < High(st, a)
    ensures !a.Large? ==> High(st, a) <= PageOf(st, a) + PAGE_SIZE
    ensures a.Large? ==> High(st, a) <= st.next
    ensures st.owner[PageOf(st, a)] == OwnerOf(st, a)
  {
    match a
    case Object(p, i) =>
      assert SlabOk(st, p);
      assert CacheOk(st, st.slabs[p].kind);
      assert PageOk(st, p);
      ObjectInPage(p, st.caches[st.slabs[p].kind].objSize, i);
    case Large(b) => LargeInHeap(st, b);
    case Header(p) =>
      assert SlabOk(st, p);
      assert CacheOk(st, st.slabs[p].kind);
      assert PageOk(st, p);
      PageFits(p, st.caches[st.slabs[p].kind].objSize);
    case RecordOf(k) =>
      assert CacheOk(st, k);
      assert PageOk(st, st.caches[k].addr);
  }

  lemma LargeInHeap(st: State, b: nat)
    requires Inv(st) && b in st.large
    ensures b in st.owner && st.owner[b] == LargePage(b) && PageOk(st, b) && st.large[b] > 0
    ensures b + st.large[b] * PAGE_SIZE <= st.next
  {
    assert LargeOk(st, b);
    var last := b + (st.large[b] - 1) * PAGE_SIZE;
    assert b == b + 0 * PAGE_SIZE;
    assert b in LargePages(b, st.large[b]) && last in LargePages(b, st.large[b]);
    assert PageOk(st, b) && PageOk(st, last);
  }

  /** A page that starts inside a large block belongs to it. */
  lemma InsideLarge(st: State, b: nat, q: nat)
    requires Inv(st) && b in st.large && q in st.owner && b <= q < b + st.large[b] * PAGE_SIZE
    ensures st.owner[q] == LargePage(b)
  {
    LargeInHeap(st, b);
    assert PageOk(st, q) && LargeOk(st, b);
    var j := PagesBetween(b, q);
    assert q in LargePages(b, st.large[b]);
  }

  /** An area that starts in an earlier page ends before one that starts in a later page. */
  lemma AreasOrdered(st: State, a: Area, e: Area)
    requires Inv(st) && Present(st, a) && Present(st, e) && PageOf(st, a) < PageOf(st, e)
    ensures High(st, a) <= Low(st, e)
  {
    AreaInPage(st, a);
    AreaInPage(st, e);
    NextPage(PageOf(st, a), PageOf(st, e));
    if a.Large? && PageOf(st, e) < High(st, a) {
      InsideLarge(st, a.b, PageOf(st, e));
    }
  }

  lemma NextPage(p: nat, q: nat)
    requires p % PAGE_SIZE == 0 && q % PAGE_SIZE == 0 && p < q
    ensures p + PAGE_SIZE <= q
  {
  }

  /** Areas of one page: objects of a slab, and its header. */
  lemma AreasOfPage(st: State, a: Area, e: Area)
    requires Inv(st) && Present(st, a) && Present(st, e) && a != e && PageOf(st, a) == PageOf(st, e)
    ensures High(st, a) <= Low(st, e) || High(st, e) <= Low(st, a)
  {
    AreaInPage(st, a);
    AreaInPage(st, e);
    if a.Object? {
      ObjectFirst(st, a, e);
    } else if e.Object? {
      ObjectFirst(st, e, a);
    }
  }

  lemma ObjectFirst(st: State, a: Area, e: Area)
    requires Inv(st) && Present(st, a) && Present(st, e) && a != e && PageOf(st, a) == PageOf(st, e)
    requires a.Object? && (e.Object? || e.Header?)
    ensures High(st, a) <= Low(st, e) || High(st, e) <= Low(st, a)
  {
    var p := a.p;
    assert SlabOk(st, p) && PageOk(st, p);
    var c := st.caches[st.slabs[p].kind];
    assert CacheOk(st, st.slabs[p].kind);
    if e.Header? {
      ObjectInPage(p, c.objSize, a.i);
    } else if a.i < e.i {
      ObjectsApart(p, c.objSize, c.num, a.i, e.i);
    } else {
      ObjectsApart(p, c.objSize, c.num, e.i, a.i);
    }
  }

  /** Every live block, slab header with its table, and cache record lies inside the used part of the
      heap, and no two of them overlap. */
  lemma AreasDisjoint(st: State, a: Area, e: Area)
    requires Inv(st) && Present(st, a) && Present(st, e) && a != e
    ensures st.start <= Low(st, a) && High(st, a) <= st.next <= st.end
    ensures High(st, a) <= Low(st, e) || High(st, e) <= Low(st, a)
  {
    AreaInPage(st, a);
    if PageOf(st, a) < PageOf(st, e) {
      AreasOrdered(st, a, e);
    } else if PageOf(st, e) < PageOf(st, a) {
      AreasOrdered(st, e, a);
    } else {
      AreasOfPage(st, a, e);
    }
  }

  // ----- what one call does -----

  /** `u` is `st` with object `i` of the slab at `p` taken: no other object starts or stops being in use,
      and cache records, sizes and large blocks stay. */
  ghost predicate OneTaken(st: State, u: State, p: nat, i: nat) {
    && InUse(u, p, i) && !InUse(st, p, i)
    && (forall q, j :: InUse(u, q, j) <==> InUse(st, q, j) || (q == p && j == i))
    && u.large == st.large && ShapesKept(st, u)
  }

  ghost predicate ShapesKept(st: State, u: State) {
    forall k :: k in st.caches ==> k in u.caches && SameShape(u.caches[k], st.caches[k])
  }

  /** The objects in use, up to slabs that are added empty. */
  ghost predicate SameUse(st: State, u: State) {
    && (forall q, j :: InUse(u, q, j) <==> InUse(st, q, j))
    && u.large == st.large && ShapesKept(st, u)
  }

  lemma OpenCacheUse(st: State, size: nat)
    requires Inv(st) && size > 0 && OpenCache(st, size).Some?
    ensures SameUse(st, OpenCache(st, size).value)
    ensures var k := ClassOf(size);
            k !in st.caches ==> OpenCache(st, size).value.caches[k].objSize == ObjectSize(size)
  {
    forall p | p in st.slabs
      ensures st.slabs[p].kind in st.caches
    {
      assert SlabOk(st, p);
    }
  }

  lemma ReadyUse(st: State, k: nat)
    requires Inv(st) && k in st.caches && Ready(st, k).Some?
    ensures SameUse(st, Ready(st, k).value)
  {
    NextIsFree(st);
  }

  lemma TakeUse(st: State, k: nat)
    requires Inv(st) && k in st.caches && st.caches[k].partial != []
    ensures st.caches[k].partial[0] in st.slabs && st.slabs[st.caches[k].partial[0]].free != []
    ensures var p := st.caches[k].partial[0]; var i := st.slabs[p].free[0];
            st.slabs[p].kind == k && OneTaken(st, Take(st, k), p, i)
  {
    TakeKeeps(st, k);
    var p := st.caches[k].partial[0];
    assert CacheOk(st, k);
    assert p in All(st.caches[k]);
    assert SlabOk(st, p);
    FreeAfterTake(st.slabs[p], st.caches[k].num);
  }

  /** A small allocation takes exactly one object that was free, of the request's class, and returns its
      address. */
  lemma AllocTakesOne(st: State, size: nat) returns (p: nat, i: nat)
    requires Inv(st) && 0 < size <= MAX_SLAB_SIZE && Alloc(st, size).Done?
    ensures var u := Alloc(st, size).after;
            OneTaken(st, u, p, i) && IsLive(u, Alloc(st, size).ptr, size, p, i)
  {
    var k := ClassOf(size);
    OpenCacheKeeps(st, size);
    OpenCacheUse(st, size);
    var s1 := OpenCache(st, size).value;
    ReadyKeeps(s1, k);
    ReadyUse(s1, k);
    var s2 := Ready(s1, k).value;
    TakeUse(s2, k);
    p := s2.caches[k].partial[0];
    i := s2.slabs[p].free[0];
  }

  /** A large allocation returns as few whole pages as cover the request, or null; objects stay as they are. */
  lemma AllocTakesPages(st: State, size: nat)
    requires Inv(st) && size > MAX_SLAB_SIZE
    ensures Alloc(st, size).Done?
    ensures var u, ptr := Alloc(st, size).after, Alloc(st, size).ptr;
            && (forall q, j :: InUse(u, q, j) <==> InUse(st, q, j)) && ShapesKept(st, u)
            && (ptr == 0 ==> u == st)
            && (ptr != 0 ==>
                  && ptr !in st.large && u.large == st.large[ptr := PagesFor(size)]
                  && (PagesFor(size) - 1) * PAGE_SIZE < size <= PagesFor(size) * PAGE_SIZE)
  {
    NextIsFree(st);
  }

  /** Giving a live pointer back frees exactly its object. */
  lemma DeallocGivesOne(st: State, ptr: nat, size: nat, p: nat, i: nat)
    requires Inv(st) && IsLive(st, ptr, size, p, i)
    ensures var u := Dealloc(st, ptr, size);
            && !InUse(u, p, i) && (forall q, j :: InUse(u, q, j) <==> InUse(st, q, j) && !(q == p && j == i))
            && u.large == st.large && ShapesKept(st, u)
  {
    DeallocIsGive(st, ptr, size, p, i);
  }

  // ----- runs -----

  datatype Op = AllocOp(size: nat) | FreeOp(ptr: nat, size: nat)

  /** One call that does not stop the code. Only live pointers, large blocks and null are given back. */
  ghost predicate Step(st: State, op: Op, u: State) {
    && op.size > 0
    && match op
       case AllocOp(size) => Alloc(st, size).Done? && u == Alloc(st, size).after
       case FreeOp(ptr, size) =>
         && (size > MAX_SLAB_SIZE || ptr == 0 || exists p, i :: IsLive(st, ptr, size, p, i))
         && u == Dealloc(st, ptr, size)
  }

  /** The heap the allocator is given. */
  predicate IsHeap(start: nat, end: nat) { start % PAGE_SIZE == 0 && 0 < start <= end }

  ghost predicate StepAt(sts: seq<State>, ops: seq<Op>, i: nat)
    requires |sts| == |ops| + 1 && i < |ops|
  {
    Step(sts[i], ops[i], sts[i + 1])
  }

  ghost predicate IsRun(sts: seq<State>, ops: seq<Op>) {
    |sts| == |ops| + 1 && forall i {:trigger StepAt(sts, ops, i)} :: 0 <= i < |ops| ==> StepAt(sts, ops, i)
  }

  lemma StepKeeps(st: State, op: Op, u: State)
    requires Inv(st) && Step(st, op, u)
    ensures Inv(u) && ShapesKept(st, u)
  {
    match op
    case AllocOp(size) =>
      AllocKeeps(st, size);
      if size > MAX_SLAB_SIZE {
        AllocTakesPages(st, size);
      } else {
        var p, i := AllocTakesOne(st, size);
      }
    case FreeOp(ptr, size) =>
      DeallocKeeps(st, ptr, size);
      if size <= MAX_SLAB_SIZE && ptr != 0 {
        var p, i :| IsLive(st, ptr, size, p, i);
        DeallocGivesOne(st, ptr, size, p, i);
      }
  }

  /** In every state of a run that starts with a page-aligned heap, free lists, slab lists and page use
      are consistent. */
  lemma {:induction false} RunInv(sts: seq<State>, ops: seq<Op>, start: nat, end: nat, n: nat)
    requires IsRun(sts, ops) && n <= |ops|
    requires IsHeap(start, end) && sts[0] == Fresh(start, end)
    ensures Inv(sts[n])
  {
    if n == 0 {
      FreshInv(start, end);
    } else {
      RunInv(sts, ops, start, end, n - 1);
      assert StepAt(sts, ops, n - 1);
      StepKeeps(sts[n - 1], ops[n - 1], sts[n]);
    }
  }

  /** Over every run, live blocks and the allocator's own records never overlap. */
  lemma RunDisjoint(sts: seq<State>, ops: seq<Op>, start: nat, end: nat, n: nat, a: Area, e: Area)
    requires IsRun(sts, ops) && n <= |ops|
    requires IsHeap(start, end) && sts[0] == Fresh(start, end)
    requires Present(sts[n], a) && Present(sts[n], e) && a != e
    ensures sts[n].start <= Low(sts[n], a) && High(sts[n], a) <= sts[n].end
    ensures High(sts[n], a) <= Low(sts[n], e) || High(sts[n], e) <= Low(sts[n], a)
  {
    RunInv(sts, ops, start, end, n);
    AreasDisjoint(sts[n], a, e);
  }

  // ----- which requests a block covers -----

  /** All classes have the object size of their power of two. */
  ghost predicate Uniform(st: State) {
    forall k {:trigger k in st.caches} :: k in st.caches ==> st.caches[k].objSize == Pow2(k + 3)
  }

  /** All small requests are powers of two. */
  predicate PowersOnly(ops: seq<Op>) {
    forall i :: 0 <= i < |ops| && ops[i].size <= MAX_SLAB_SIZE ==> IsPowerOfTwo(ops[i].size)
  }

  lemma CachesAfterAlloc(st: State, size: nat)
    requires Inv(st) && 0 < size <= MAX_SLAB_SIZE && Alloc(st, size).Done?
    ensures var u, k := Alloc(st, size).after, ClassOf(size);
            && (forall j :: j in u.caches ==> j in st.caches || j == k)
            && k in u.caches && (k !in st.caches ==> u.caches[k].objSize == ObjectSize(size))
  {
    OpenCacheKeeps(st, size);
    OpenCacheUse(st, size);
    ReadyKeeps(OpenCache(st, size).value, ClassOf(size));
  }

  lemma CachesAfterFree(st: State, ptr: nat, size: nat)
    requires size > 0
    requires size > MAX_SLAB_SIZE || ptr == 0 || exists p, i :: IsLive(st, ptr, size, p, i)
    requires Inv(st)
    ensures forall j :: j in Dealloc(st, ptr, size).caches ==> j in st.caches
  {
    if size <= MAX_SLAB_SIZE && ptr != 0 {
      LivePointer(st, ptr, size);
    }
  }

  /** Old classes keep their sizes; a class that is new gets the size of the request. */
  ghost predicate ClassesEvolve(st: State, size: nat, u: State) {
    forall k {:trigger k in u.caches} :: k in u.caches ==>
      if k in st.caches then SameShape(u.caches[k], st.caches[k])
      else 0 < size <= MAX_SLAB_SIZE && k == ClassOf(size) && u.caches[k].objSize == ObjectSize(size)
  }

  lemma StepEvolves(st: State, op: Op, u: State)
    requires Inv(st) && Step(st, op, u)
    ensures ClassesEvolve(st, op.size, u)
  {
    StepKeeps(st, op, u);
    if op.FreeOp? {
      CachesAfterFree(st, op.ptr, op.size);
    } else if op.size <= MAX_SLAB_SIZE {
      CachesAfterAlloc(st, op.size);
    }
  }

  lemma EvolvesUniform(st: State, size: nat, u: State)
    requires ClassesEvolve(st, size, u) && Uniform(st) && (size <= MAX_SLAB_SIZE ==> IsPowerOfTwo(size))
    ensures Uniform(u)
  {
    forall k | k in u.caches
      ensures u.caches[k].objSize == Pow2(k + 3)
    {
      if k !in st.caches {
        PowerOfTwoClass(size);
      }
    }
  }

  lemma {:induction false} RunUniform(sts: seq<State>, ops: seq<Op>, start: nat, end: nat, n: nat)
    requires IsRun(sts, ops) && n <= |ops| && PowersOnly(ops) && IsHeap(start, end) && sts[0] == Fresh(start, end)
    ensures Uniform(sts[n])
  {
    if n > 0 {
      RunInv(sts, ops, start, end, n - 1);
      assert StepAt(sts, ops, n - 1);
      RunUniform(sts, ops, start, end, n - 1);
      StepEvolves(sts[n - 1], ops[n - 1], sts[n]);
      EvolvesUniform(sts[n - 1], ops[n - 1].size, sts[n]);
    }
  }

  /** The first small request for class `k`, after one more call. */
  function FirstAfter(first: Option<nat>, op: Op, k: nat): Option<nat> {
    if first.None? && op.AllocOp? && 0 < op.size <= MAX_SLAB_SIZE && ClassOf(op.size) == k then Some(op.size) else first
  }

  /** The first small request for class `k` among the first `n` calls. */
  function FirstSize(ops: seq<Op>, n: nat, k: nat): Option<nat>
    requires n <= |ops|
  {
    if n == 0 then None else FirstAfter(FirstSize(ops, n - 1, k), ops[n - 1], k)
  }

  /** A class has a cache once it was asked for, and its objects have the size of that first request. */
  predicate FixedBy(st: State, k: nat, first: Option<nat>) {
    && (k in st.caches <==> first.Some?)
    && (k in st.caches ==> st.caches[k].objSize == ObjectSize(first.value))
  }

  lemma {:induction false} RunFixed(sts: seq<State>, ops: seq<Op>, start: nat, end: nat, n: nat, k: nat)
    requires IsRun(sts, ops) && n <= |ops| && IsHeap(start, end) && sts[0] == Fresh(start, end)
    ensures FixedBy(sts[n], k, FirstSize(ops, n, k))
  {
    if n > 0 {
      RunInv(sts, ops, start, end, n - 1);
      assert StepAt(sts, ops, n - 1);
      RunFixed(sts, ops, start, end, n - 1, k);
      StepFixed(sts[n - 1], ops[n - 1], sts[n], k, FirstSize(ops, n - 1, k));
    }
  }

  lemma StepFixed(st: State, op: Op, u: State, k: nat, first: Option<nat>)
    requires Inv(st) && Step(st, op, u) && FixedBy(st, k, first)
    ensures FixedBy(u, k, FirstAfter(first, op, k))
  {
    StepKeeps(st, op, u);
    if op.FreeOp? {
      CachesAfterFree(st, op.ptr, op.size);
    } else if op.size <= MAX_SLAB_SIZE {
      CachesAfterAlloc(st, op.size);
    }
  }

  /** In every run, a small allocation returns a block that covers the request exactly when the request is
      not larger than the object size the first request for its class fixed. */
  lemma RunCoversIff(sts: seq<State>, ops: seq<Op>, start: nat, end: nat, n: nat) returns (p: nat, i: nat)
    requires IsRun(sts, ops) && n < |ops| && IsHeap(start, end) && sts[0] == Fresh(start, end)
    requires ops[n].AllocOp? && 0 < ops[n].size <= MAX_SLAB_SIZE
    ensures Alloc(sts[n], ops[n].size).Done?
    ensures var u, ptr := sts[n + 1], Alloc(sts[n], ops[n].size).ptr;
            var first := FirstSize(ops, n + 1, ClassOf(ops[n].size));
            && first.Some? && InUse(u, p, i) && Low(u, Object(p, i)) == ptr
            && (ptr + ops[n].size <= High(u, Object(p, i)) <==> ops[n].size <= ObjectSize(first.value))
  {
    assert StepAt(sts, ops, n);
    RunInv(sts, ops, start, end, n);
    p, i := AllocTakesOne(sts[n], ops[n].size);
    RunFixed(sts, ops, start, end, n + 1, ClassOf(ops[n].size));
  }

  /** In runs whose small requests are powers of two, every allocation returns a block that covers it. */
  lemma RunCovers(sts: seq<State>, ops: seq<Op>, start: nat, end: nat, n: nat) returns (p: nat, i: nat)
    requires IsRun(sts, ops) && n < |ops| && PowersOnly(ops) && IsHeap(start, end) && sts[0] == Fresh(start, end)
    requires ops[n].AllocOp? && 0 < ops[n].size <= MAX_SLAB_SIZE
    ensures Alloc(sts[n], ops[n].size).Done?
    ensures var u, ptr := sts[n + 1], Alloc(sts[n], ops[n].size).ptr;
            InUse(u, p, i) && Low(u, Object(p, i)) == ptr && ptr + ops[n].size <= High(u, Object(p, i))
  {
    var size := ops[n].size;
    assert StepAt(sts, ops, n);
    RunInv(sts, ops, start, end, n);
    p, i := AllocTakesOne(sts[n], size);
    RunUniform(sts, ops, start, end, n + 1);
    PowerOfTwoClass(size);
    ObjectSizeFits(size);
  }

  /** 8 and 24 have the same class, because they have the same number of trailing zeros. */
  lemma MixedClass()
    ensures ClassOf(8) == 0 && ClassOf(24) == 0 && ObjectSize(8) == 8
  {
    assert TrailingZeros(1) == 0 && TrailingZeros(2) == 1 && TrailingZeros(4) == 2 && TrailingZeros(8) == 3;
    assert TrailingZeros(3) == 0 && TrailingZeros(6) == 1 && TrailingZeros(12) == 2 && TrailingZeros(24) == 3;
  }

  /** For other sizes the first request of a class fixes its object size: after a request of 8 bytes, one
      of 24 bytes is answered with an 8-byte object. */
  lemma MixedSizesUncovered(start: nat, end: nat) returns (st: State, u: State, p: nat, i: nat)
    requires start % PAGE_SIZE == 0 && 0 < start && start + 3 * PAGE_SIZE <= end
    ensures Inv(Fresh(start, end)) && Alloc(Fresh(start, end), 8).Done? && st == Alloc(Fresh(start, end), 8).after
    ensures Inv(st) && Alloc(st, 24).Done? && u == Alloc(st, 24).after
    ensures IsLive(u, Alloc(st, 24).ptr, 24, p, i) && High(u, Object(p, i)) < Alloc(st, 24).ptr + 24
  {
    var st0 := Fresh(start, end);
    FreshInv(start, end);
    MixedClass();
    OpenCacheKeeps(st0, 8);
    st := Alloc(st0, 8).after;
    AllocKeeps(st0, 8);
    CachesAfterAlloc(st0, 8);
    var _, _ := AllocTakesOne(st0, 8);
    var s1 := OpenCache(st, 24).value;
    assert Ready(s1, 0).Some?;
    u := Alloc(st, 24).after;
    p, i := AllocTakesOne(st, 24);
  }
}
