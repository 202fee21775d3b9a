/** Which page and which object a request gets, on the state alone, and when it gets none. */
module SlabPlaces {
  import opened Arithmetic
  import opened SlabLayout
  import opened SlabModel
  import opened SlabRuns

  // ----- classes -----

  /** `size` is an odd number times two to the power `z`. */
  predicate OddTimes(size: nat, z: nat) {
    exists q: nat :: q <= size && q % 2 == 1 && size == Times(q, Pow2(z))
  }

  lemma {:induction false} TrailingIff(size: nat, z: nat)
    requires size > 0
    ensures TrailingZeros(size) == z <==> OddTimes(size, z)
    decreases size
  {
    if size % 2 == 1 {
      OddSize(size, z);
    } else {
      if z > 0 {
        TrailingIff(size / 2, z - 1);
        HalfOdd(size, z);
      } else {
        EvenSize(size);
      }
    }
  }

  lemma OddSize(size: nat, z: nat)
    requires size % 2 == 1
    ensures OddTimes(size, z) <==> z == 0
  {
    if z == 0 {
      TimesOne(size);
      assert size % 2 == 1 && size == Times(size, Pow2(0));
    } else if OddTimes(size, z) {
      var q: nat :| q <= size && q % 2 == 1 && size == Times(q, Pow2(z));
      TimesTwice(q, Pow2(z - 1));
    }
  }

  lemma EvenSize(size: nat)
    requires size > 0 && size % 2 == 0
    ensures !OddTimes(size, 0)
  {
    if OddTimes(size, 0) {
      var q: nat :| q <= size && q % 2 == 1 && size == Times(q, Pow2(0));
      TimesOne(q);
    }
  }

  lemma {:induction false} TimesTwice(q: nat, m: nat)
    ensures Times(q, 2 * m) == 2 * Times(q, m)
  {
    if q > 0 {
      TimesTwice(q - 1, m);
    }
  }

  lemma HalfOdd(size: nat, z: nat)
    requires size > 0 && size % 2 == 0 && z > 0
    ensures OddTimes(size, z) <==> OddTimes(size / 2, z - 1)
  {
    if OddTimes(size, z) {
      var q: nat :| q <= size && q % 2 == 1 && size == Times(q, Pow2(z));
      TimesTwice(q, Pow2(z - 1));
      HalfAtLeast(q, Pow2(z - 1));
    }
    if OddTimes(size / 2, z - 1) {
      var q: nat :| q <= size / 2 && q % 2 == 1 && size / 2 == Times(q, Pow2(z - 1));
      TimesTwice(q, Pow2(z - 1));
      assert q <= size && size == Times(q, Pow2(z));
    }
  }

  lemma HalfAtLeast(q: nat, m: nat)
    requires m > 0
    ensures q <= Times(q, m)
  {
    TimesAtLeast(q, m, 1);
    TimesOne(q);
  }

  /** The class of a request: how often two divides it beyond eight, and none for what sixteen does not divide. */
  lemma ClassIff(size: nat, k: nat)
    requires size > 0
    ensures k > 0 ==> (ClassOf(size) == k <==> OddTimes(size, k + 3))
    ensures ClassOf(size) == 0 <==> size % 16 != 0
  {
    TrailingIff(size, k + 3);
    assert TrailingZeros(size) == if size % 2 == 1 then 0 else 1 + TrailingZeros(size / 2);
    if size % 2 == 0 && size / 2 % 2 == 0 && size / 4 % 2 == 0 {
      assert TrailingZeros(size / 2) == 1 + TrailingZeros(size / 4);
      assert TrailingZeros(size / 4) == 1 + TrailingZeros(size / 8);
    }
  }

  // ----- large requests -----

  /** `m` pages hold the request. */
  predicate Enough(m: nat, size: nat) { size <= m * 4096 }

  /** A large request is answered with null exactly if no number of pages that holds it is left. Otherwise it
      gets the next page and as few more as hold it. */
  lemma LargeAllocIff(st: State, size: nat)
    requires Inv(st) && size > 2048
    ensures Alloc(st, size).Done?
    ensures var u, ptr := Alloc(st, size).after, Alloc(st, size).ptr;
            && (ptr == 0 <==>
                  forall m: nat {:trigger Enough(m, size)} :: Enough(m, size) ==> st.end < st.next + m * 4096)
            && (ptr == 0 ==> u == st)
            && (ptr != 0 ==>
                  && ptr == st.next && u.next <= st.end && ptr in u.large
                  && u.next == ptr + u.large[ptr] * 4096 && Enough(u.large[ptr], size)
                  && forall m: nat {:trigger Enough(m, size)} :: Enough(m, size) ==> u.large[ptr] <= m)
  {
    assert Enough(PagesFor(size), size);
    assert forall m: nat {:trigger Enough(m, size)} :: Enough(m, size) ==> PagesFor(size) <= m;
  }

  // ----- small requests -----

  /** A small request stops the code exactly if its class has no slab with room and too few pages are left: one
      for a slab, and one more for the record of a class that is not in use yet. */
  lemma StopsForPages(st: State, size: nat)
    requires Inv(st) && 0 < size <= 2048
    ensures var k := ClassOf(size);
            Alloc(st, size).Stopped? <==>
              || (k !in st.caches && st.end < st.next + 2 * 4096)
              || (k in st.caches && st.caches[k].partial == [] && st.caches[k].empty == [] && st.end < st.next + 4096)
  {
    StopsWithoutPage(st, size);
    if OpenCache(st, size).Some? {
      ReadyOrFull(OpenCache(st, size).value, ClassOf(size));
    }
  }

  lemma ReadyOrFull(st: State, k: nat)
    requires k in st.caches
    ensures Ready(st, k).None? <==>
              st.caches[k].partial == [] && st.caches[k].empty == [] && st.end < st.next + 4096
  {
  }

  /** The slab a small request is served from: the first partial one, else the first empty one, else a new page. */
  function ServingSlab(st: State, k: nat): nat {
    if k !in st.caches then st.next + 4096
    else if st.caches[k].partial != [] then st.caches[k].partial[0]
    else if st.caches[k].empty != [] then st.caches[k].empty[0]
    else st.next
  }

  /** The first of its free objects, 0 on a new page. */
  function ServingObject(st: State, p: nat): nat {
    if p in st.slabs && st.slabs[p].free != [] then st.slabs[p].free[0] else 0
  }

  /** How many pages a small request takes. */
  function PagesTaken(st: State, k: nat): nat {
    if k !in st.caches then 2
    else if st.caches[k].partial == [] && st.caches[k].empty == [] then 1
    else 0
  }

  /** A small request that does not stop gets that object of that slab; the address is behind the 40 bytes of the
      slab's header and 4 bytes for each object, rounded up to 8. */
  lemma SmallAllocIs(st: State, size: nat)
    requires Inv(st) && 0 < size <= 2048 && Alloc(st, size).Done?
    ensures var u, ptr, k := Alloc(st, size).after, Alloc(st, size).ptr, ClassOf(size);
            var p := ServingSlab(st, k);
            && k in u.caches && u.next == st.next + PagesTaken(st, k) * 4096 && u.start == st.start && u.end == st.end
            && ptr == p + (40 + 4 * u.caches[k].num + 7) / 8 * 8 + ServingObject(st, p) * u.caches[k].objSize
            && (k !in st.caches ==> u.caches[k].addr == st.next)
  {
    var k := ClassOf(size);
    ServedFrom(st, size);
    OpenCacheKeeps(st, size);
    ReadyKeeps(OpenCache(st, size).value, k);
    TakeAddress(Ready(OpenCache(st, size).value, k).value, k);
  }

  lemma TakeAddress(st: State, k: nat)
    requires Inv(st) && CanTake(st, k)
    ensures var c := st.caches[k]; var p := c.partial[0];
            && ObjectAddress(p, c.objSize, c.num, st.slabs[p].free[0])
                 == p + (40 + 4 * c.num + 7) / 8 * 8 + st.slabs[p].free[0] * c.objSize
            && k in Take(st, k).caches && SameShape(Take(st, k).caches[k], c) && Take(st, k).next == st.next
  {
    var p := st.caches[k].partial[0];
    assert CacheOk(st, k) && p in All(st.caches[k]);
    assert SlabOk(st, p);
    assert PageOk(st, p);
    FirstObjectOffset(p / 4096, st.caches[k].num);
  }

  lemma ServedFrom(st: State, size: nat)
    requires Inv(st) && 0 < size <= 2048 && Alloc(st, size).Done?
    ensures OpenCache(st, size).Some? && ClassOf(size) in OpenCache(st, size).value.caches
    ensures Ready(OpenCache(st, size).value, ClassOf(size)).Some?
    ensures var k := ClassOf(size); var s2 := Ready(OpenCache(st, size).value, k).value;
            var p := ServingSlab(st, k);
            && CanTake(s2, k) && s2.caches[k].partial[0] == p && s2.slabs[p].free[0] == ServingObject(st, p)
            && s2.next == st.next + PagesTaken(st, k) * 4096 && s2.start == st.start && s2.end == st.end
            && (k !in st.caches ==> s2.caches[k].addr == st.next)
  {
    var k := ClassOf(size);
    if k in st.caches {
      ReadyServes(st, k);
    } else {
      OpenCacheKeeps(st, size);
      ReadyServes(OpenCache(st, size).value, k);
    }
  }

  lemma ReadyServes(st: State, k: nat)
    requires Inv(st) && k in st.caches && Ready(st, k).Some?
    ensures var u, p := Ready(st, k).value, ServingSlab(st, k);
            && CanTake(u, k) && u.caches[k].partial[0] == p && u.slabs[p].free[0] == ServingObject(st, p)
            && u.next == st.next + PagesTaken(st, k) * 4096 && u.start == st.start && u.end == st.end
            && u.caches[k].addr == st.caches[k].addr
  {
    NextIsFree(st);
    ReadyKeeps(st, k);
    TakeUse(Ready(st, k).value, k);
    assert CacheOk(st, k);
  }

  // ----- giving back and asking again -----

  /** The slab is, or becomes by giving an object back, the one the next request of its class is served from. */
  predicate NextServed(c: Cache, s: Slab, p: nat) {
    || |s.live| == c.num
    || c.partial == [p]
    || (c.partial != [] && c.partial[0] == p && |s.live| > 1)
  }

  lemma GiveServes(st: State, p: nat, i: nat)
    requires Inv(st) && InUse(st, p, i)
    ensures var u, k := Give(st, p, i), st.slabs[p].kind;
            && k in u.caches && ServingObject(u, p) == i
            && (ServingSlab(u, k) == p <==> NextServed(st.caches[k], st.slabs[p], p))
  {
    assert SlabOk(st, p);
    var k, s := st.slabs[p].kind, st.slabs[p];
    var c := st.caches[k];
    assert CacheOk(st, k);
    FreeAfterGive(s, c.num, i);
    NextIsFree(st);
    OneList(c, p);
    GiveKeeps(st, p, i);
    if |s.live| != c.num {
      LastOne(s, i);
      RemoveFirst(c.partial, p);
    }
  }

  lemma LastOne(s: Slab, i: nat)
    requires i in s.live
    ensures s.live - {i} == {} <==> |s.live| == 1
  {
    assert |s.live - {i}| == |s.live| - 1;
  }

  lemma RemoveFirst(pages: seq<nat>, p: nat)
    requires Distinct(pages) && p in pages
    ensures Remove(pages, p) == [] <==> pages == [p]
    ensures Remove(pages, p) != [] ==> Remove(pages, p)[0] != p
  {
  }

  /** After a pointer was given back, the next request of its class gets it exactly if its slab was full, or is the
      only partial one, or is the first partial one and stays in use. */
  lemma FreedReusedIff(st: State, ptr: nat, size: nat, again: nat, p: nat, i: nat)
    requires Inv(st) && IsLive(st, ptr, size, p, i) && 0 < again <= 2048 && ClassOf(again) == ClassOf(size)
    ensures var a := Alloc(Dealloc(st, ptr, size), again);
            a.Done? && a.ptr == ptr <==> NextServed(st.caches[ClassOf(size)], st.slabs[p], p)
  {
    var u, k := Dealloc(st, ptr, size), ClassOf(size);
    DeallocIsGive(st, ptr, size, p, i);
    GiveKeeps(st, p, i);
    GiveServes(st, p, i);
    StopsForPages(u, again);
    PointerRecovered(st, ptr, size, p, i);
    if Alloc(u, again).Done? {
      var q := ServingSlab(u, k);
      ServedIsLive(u, again);
      AllocKeeps(u, again);
      PointerRecovered(Alloc(u, again).after, Alloc(u, again).ptr, again, q, ServingObject(u, q));
      if q == p {
        SameAddress(st, u, again, p, i);
      }
    }
  }

  /** The object a small request is served with is in use afterwards, at the address returned. */
  lemma ServedIsLive(st: State, size: nat)
    requires Inv(st) && 0 < size <= 2048 && Alloc(st, size).Done?
    ensures var p := ServingSlab(st, ClassOf(size));
            IsLive(Alloc(st, size).after, Alloc(st, size).ptr, size, p, ServingObject(st, p))
  {
    ServedFrom(st, size);
    var k := ClassOf(size);
    OpenCacheKeeps(st, size);
    ReadyKeeps(OpenCache(st, size).value, k);
    TakeUse(Ready(OpenCache(st, size).value, k).value, k);
  }

  /** Served with the object that was just given back, a request gets its address. */
  lemma SameAddress(st: State, u: State, size: nat, p: nat, i: nat)
    requires Inv(st) && Inv(u) && InUse(st, p, i) && 0 < size <= 2048 && Alloc(u, size).Done?
    requires var k := ClassOf(size);
             && st.slabs[p].kind == k && k in u.caches && SameShape(u.caches[k], st.caches[k])
             && ServingSlab(u, k) == p && ServingObject(u, p) == i
    ensures Alloc(u, size).ptr == AddressOf(st, p, i)
  {
    ServedIsLive(u, size);
    var w := Alloc(u, size).after;
    AllocKeeps(u, size);
    CachesAfterAlloc(u, size);
    var q, j := AllocTakesOne(u, size);
  }
}
