/** Sizes, classes and the layout of a slab page. */
module SlabLayout {
  import opened Arithmetic


  const PAGE_SIZE := 4096
  const MAX_SLAB_SIZE := 2048
  const MAX_CLASSES := 9
  /** `size_of::<Slab>()`: two list links, the object pointer, the free index padded to 8, the counter. */
  const SLAB_SIZE := 40
  /** `size_of::<Cache>()`: three list heads, two sizes and a string slice. */
  const CACHE_SIZE := 80
  const BUFCTL_SIZE := 4

  /** `trailing_zeros` of a positive number. */
  function TrailingZeros(size: nat): nat
    requires size > 0
  {
    if size % 2 == 1 then 0 else 1 + TrailingZeros(size / 2)
  }

  /** The class index of a request. */
  function ClassOf(size: nat): nat
    requires size > 0
  {
    if TrailingZeros(size) < 3 then 0 else TrailingZeros(size) - 3
  }

  /** The least power of two that is at least `size`, starting from the power `p`. */
  function RoundUpFrom(size: nat, p: nat): nat
    requires p > 0
    decreases size - p
  {
    if size <= p then p else RoundUpFrom(size, 2 * p)
  }

  /** `size.max(8).next_power_of_two()`. */
  function ObjectSize(size: nat): nat { RoundUpFrom(size, 8) }

  /** Objects per slab: what is left of a page after the header, in objects with their table entry. */
  function ObjectsPerSlab(objSize: nat): nat {
    (PAGE_SIZE - SLAB_SIZE) / (objSize + BUFCTL_SIZE)
  }

  /** Where the objects of the slab at `page` start: behind header and table, rounded up to 8. */
  function FirstObject(page: nat, num: nat): nat {
    (page + SLAB_SIZE + num * BUFCTL_SIZE + 7) / 8 * 8
  }

  function ObjectAddress(page: nat, objSize: nat, num: nat, i: nat): nat {
    FirstObject(page, num) + i * objSize
  }

  /** The object sizes that can occur. */
  predicate IsObjectSize(o: nat) {
    o in {8, 16, 32, 64, 128, 256, 512, 1024, 2048}
  }

  // ----- classes -----

  lemma {:induction false} TrailingZerosPower(size: nat)
    requires size > 0
    ensures Pow2(TrailingZeros(size)) <= size
  {
    if size % 2 == 0 {
      TrailingZerosPower(size / 2);
    }
  }

  lemma {:induction false} Pow2Increasing(a: nat, b: nat)
    requires a <= b
    ensures Pow2(a) <= Pow2(b)
  {
    if a < b {
      Pow2Increasing(a, b - 1);
    }
  }

  /** Every small request has one of the nine classes. */
  lemma ClassInRange(size: nat)
    requires 0 < size <= MAX_SLAB_SIZE
    ensures ClassOf(size) < MAX_CLASSES
  {
    TrailingZerosPower(size);
    if TrailingZeros(size) >= 12 {
      Pow2Increasing(12, TrailingZeros(size));
      Pow2Small();
    }
  }

  lemma Pow2Small()
    ensures Pow2(3) == 8 && Pow2(4) == 16 && Pow2(5) == 32 && Pow2(6) == 64 && Pow2(7) == 128 && Pow2(8) == 256
    ensures Pow2(9) == 512 && Pow2(10) == 1024 && Pow2(11) == 2048 && Pow2(12) == 4096
  {
    assert Pow2(3) == 8 && Pow2(6) == 8 * Pow2(3) && Pow2(9) == 8 * Pow2(6) && Pow2(12) == 8 * Pow2(9);
  }

  /** A small request gets one of the nine object sizes, the least that covers it. */
  lemma ObjectSizeFits(size: nat)
    requires size <= MAX_SLAB_SIZE
    ensures IsObjectSize(ObjectSize(size)) && size <= ObjectSize(size)
    ensures forall o :: IsObjectSize(o) && size <= o ==> ObjectSize(size) <= o
  {
    assert ObjectSize(size) == if size <= 8 then 8 else RoundUpFrom(size, 16);
    assert RoundUpFrom(size, 16) == if size <= 16 then 16 else RoundUpFrom(size, 32);
    assert RoundUpFrom(size, 32) == if size <= 32 then 32 else RoundUpFrom(size, 64);
    assert RoundUpFrom(size, 64) == if size <= 64 then 64 else RoundUpFrom(size, 128);
    assert RoundUpFrom(size, 128) == if size <= 128 then 128 else RoundUpFrom(size, 256);
    assert RoundUpFrom(size, 256) == if size <= 256 then 256 else RoundUpFrom(size, 512);
    assert RoundUpFrom(size, 512) == if size <= 512 then 512 else RoundUpFrom(size, 1024);
    assert RoundUpFrom(size, 1024) == if size <= 1024 then 1024 else RoundUpFrom(size, 2048);
  }

  predicate IsPowerOfTwo(size: nat) {
    size > 0 && Pow2(TrailingZeros(size)) == size
  }

  /** For powers of two the class determines the object size. */
  lemma PowerOfTwoClass(size: nat)
    requires IsPowerOfTwo(size) && size <= MAX_SLAB_SIZE
    ensures ObjectSize(size) == Pow2(ClassOf(size) + 3)
  {
    var z := TrailingZeros(size);
    Pow2Small();
    ObjectSizeFits(size);
    if z >= 12 {
      Pow2Increasing(12, z);
    } else if z < 3 {
      Pow2Increasing(z, 3);
    } else {
      PowerIsObjectSize(z);
      assert ObjectSize(size) <= size;
    }
  }

  lemma PowerIsObjectSize(z: nat)
    requires 3 <= z <= 11
    ensures IsObjectSize(Pow2(z))
  {
    Pow2Small();
  }

  // ----- the page -----

  /** Header, table, padding and all objects fit in one page; the objects start on a multiple of 8,
      behind the table, and there is at least one. */
  lemma PageFits(page: nat, o: nat)
    requires IsObjectSize(o) && page % PAGE_SIZE == 0
    ensures var num := ObjectsPerSlab(o);
            && num >= 1
            && page + SLAB_SIZE + num * BUFCTL_SIZE <= FirstObject(page, num)
            && FirstObject(page, num) + num * o <= page + PAGE_SIZE
            && FirstObject(page, num) % 8 == 0
            && SLAB_SIZE + (num + 1) * (o + BUFCTL_SIZE) > PAGE_SIZE
  {
    var num := ObjectsPerSlab(o);
    var q := page / PAGE_SIZE;
    assert page == 4096 * q;
    NumValues(o);
    FirstObjectOffset(q, num);
  }

  lemma FirstObjectOffset(q: nat, num: nat)
    ensures FirstObject(4096 * q, num) == 4096 * q + (SLAB_SIZE + 4 * num + 7) / 8 * 8
  {
    assert (4096 * q + SLAB_SIZE + num * BUFCTL_SIZE + 7) / 8 == 512 * q + (SLAB_SIZE + 4 * num + 7) / 8;
  }

  /** Number of objects per slab for each object size. */
  lemma NumValues(o: nat)
    requires IsObjectSize(o)
    ensures ObjectsPerSlab(o) == (
              if o == 8 then 338 else if o == 16 then 202 else if o == 32 then 112
              else if o == 64 then 59 else if o == 128 then 30 else if o == 256 then 15
              else if o == 512 then 7 else if o == 1024 then 3 else 1)
  {
  }

  /** Every object lies inside its page, behind the table. */
  lemma ObjectInPage(page: nat, o: nat, i: nat)
    requires IsObjectSize(o) && page % PAGE_SIZE == 0 && i < ObjectsPerSlab(o)
    ensures var num := ObjectsPerSlab(o); var a := ObjectAddress(page, o, num, i);
            && page + SLAB_SIZE + num * BUFCTL_SIZE <= FirstObject(page, num) <= a && a + o <= page + PAGE_SIZE
  {
    PageFits(page, o);
    MulMonotone(i, ObjectsPerSlab(o), o);
  }

  /** Objects of one slab do not overlap. */
  lemma ObjectsApart(page: nat, o: nat, num: nat, i: nat, j: nat)
    requires i < j
    ensures ObjectAddress(page, o, num, i) + o <= ObjectAddress(page, o, num, j)
  {
    MulMonotone(i, j, o);
  }

  /** Masking a returned pointer and dividing its offset recovers the slab and the index; the pointer is
      a multiple of 8. */
  lemma Recover(page: nat, o: nat, i: nat)
    requires IsObjectSize(o) && page % PAGE_SIZE == 0 && i < ObjectsPerSlab(o)
    ensures var num := ObjectsPerSlab(o); var a := ObjectAddress(page, o, num, i);
            && a - a % PAGE_SIZE == page
            && (a - FirstObject(page, num)) / o == i
            && a % 8 == 0
  {
    ObjectInPage(page, o, i);
    PageFits(page, o);
    MultipleOf8(i, o);
    RecoverFrom(page, FirstObject(page, ObjectsPerSlab(o)), i * o);
    DivideBack(i, o);
  }

  lemma RecoverFrom(page: nat, first: nat, x: nat)
    requires page % PAGE_SIZE == 0 && page <= first && first % 8 == 0 && first + x < page + PAGE_SIZE && x % 8 == 0
    ensures (first + x) - (first + x) % PAGE_SIZE == page && (first + x) % 8 == 0
  {
    PageRest(page, first + x);
    EightSum(first, x);
  }

  lemma MultipleOf8(i: nat, o: nat)
    requires IsObjectSize(o)
    ensures (i * o) % 8 == 0
  {
    assert o % 8 == 0;
    TimesIs(i, o);
    TimesMod8(i, o);
  }
}
