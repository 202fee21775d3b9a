/** The slab allocator as its callers see it: what they asked for and did not give back never overlaps. */
module SlabCallers {
  import opened Bytes
  import opened SlabLayout
  import opened SlabModel
  import opened SlabRuns

  /** An area that belongs to a caller. */
  predicate IsBlock(a: Area) { a.Object? || a.Large? }

  /** From `st` to `u` the area is still there, in the same place. */
  predicate Stays(st: State, u: State, a: Area) {
    Present(st, a) && Present(u, a) && Low(u, a) == Low(st, a) && High(u, a) == High(st, a)
  }

  lemma TakenStays(st: State, u: State, p: nat, i: nat, a: Area)
    requires Inv(st) && OneTaken(st, u, p, i) && Present(st, a) && IsBlock(a) && KindsKept(st, u)
    ensures Stays(st, u, a)
  {
  }

  /** Slabs keep their classes. */
  ghost predicate KindsKept(st: State, u: State) {
    forall p {:trigger p in u.slabs} :: p in st.slabs ==> p in u.slabs && u.slabs[p].kind == st.slabs[p].kind
  }

  lemma ReadyKinds(st: State, k: nat)
    requires Inv(st) && k in st.caches && Ready(st, k).Some?
    ensures KindsKept(st, Ready(st, k).value)
  {
    NextIsFree(st);
  }

  lemma AllocKinds(st: State, size: nat)
    requires Inv(st) && 0 < size <= MAX_SLAB_SIZE && Alloc(st, size).Done?
    ensures KindsKept(st, Alloc(st, size).after)
  {
    OpenCacheKeeps(st, size);
    ReadyKinds(OpenCache(st, size).value, ClassOf(size));
  }

  lemma AllocStays(st: State, size: nat, a: Area)
    requires Inv(st) && size > 0 && Alloc(st, size).Done? && Present(st, a) && IsBlock(a)
    ensures Stays(st, Alloc(st, size).after, a)
  {
    if size > MAX_SLAB_SIZE {
      AllocTakesPages(st, size);
    } else {
      AllocKinds(st, size);
      var p, i := AllocTakesOne(st, size);
      TakenStays(st, Alloc(st, size).after, p, i, a);
    }
  }

  lemma GiveStays(st: State, p: nat, i: nat, a: Area)
    requires Inv(st) && InUse(st, p, i) && Present(st, a) && IsBlock(a) && a != Object(p, i)
    ensures Stays(st, Give(st, p, i), a)
  {
    assert SlabOk(st, p);
  }

  /** A call leaves a block where it is, unless it gives that block back. */
  lemma StepStays(st: State, op: Op, u: State, a: Area)
    requires Inv(st) && Step(st, op, u) && Present(st, a) && IsBlock(a)
    requires op.FreeOp? ==> op.ptr != Low(st, a)
    ensures Stays(st, u, a)
  {
    match op
    case AllocOp(size) => AllocStays(st, size, a);
    case FreeOp(ptr, size) =>
      if size <= MAX_SLAB_SIZE && ptr != 0 {
        var p, i :| IsLive(st, ptr, size, p, i);
        DeallocIsGive(st, ptr, size, p, i);
        GiveStays(st, p, i, a);
      }
  }

  /** Call `m` of a run, an allocation, returned `ptrs[m]`. */
  predicate ReturnedAt(sts: seq<State>, ops: seq<Op>, ptrs: seq<nat>, m: nat)
    requires |sts| == |ops| + 1 && |ptrs| == |ops| && m < |ops|
  {
    ops[m].size > 0 && Alloc(sts[m], ops[m].size) == Done(sts[m + 1], ptrs[m])
  }

  /** A run from a fresh heap, with the pointers that its allocations returned. */
  ghost predicate IsCalled(sts: seq<State>, ops: seq<Op>, ptrs: seq<nat>, start: nat, end: nat) {
    && IsRun(sts, ops) && IsHeap(start, end) && sts[0] == Fresh(start, end) && |ptrs| == |ops|
    && forall m {:trigger ReturnedAt(sts, ops, ptrs, m)} :: 0 <= m < |ops| && ops[m].AllocOp? ==>
         ReturnedAt(sts, ops, ptrs, m)
  }

  /** Call `m` got a block, and no call before call `n` gave it back. */
  predicate Outstanding(ops: seq<Op>, ptrs: seq<nat>, m: nat, n: nat) {
    && m < n <= |ops| == |ptrs| && ops[m].AllocOp? && ops[m].size > 0 && ptrs[m] != 0
    && forall j :: m < j < n ==> !(ops[j].FreeOp? && ops[j].ptr == ptrs[m])
  }

  /** The object size of the class is at least what call `m` asked for. */
  predicate Sufficient(ops: seq<Op>, m: nat)
    requires m < |ops| && ops[m].size > 0
  {
    var first := FirstSize(ops, m + 1, ClassOf(ops[m].size));
    ops[m].size > MAX_SLAB_SIZE || (first.Some? && ops[m].size <= ObjectSize(first.value))
  }

  /** The area starts at `p` and has room for `n` bytes. */
  predicate HoldsAt(st: State, a: Area, p: nat, n: nat) {
    Present(st, a) && Low(st, a) == p && p + n <= High(st, a)
  }

  /** A successful allocation returns a block that was not there before, and that covers a sufficient request. */
  lemma NewBlock(sts: seq<State>, ops: seq<Op>, ptrs: seq<nat>, start: nat, end: nat, m: nat) returns (a: Area)
    requires IsCalled(sts, ops, ptrs, start, end) && m < |ops| && ops[m].AllocOp? && ops[m].size > 0 && ptrs[m] != 0
    ensures IsBlock(a) && !Present(sts[m], a) && HoldsAt(sts[m + 1], a, ptrs[m], 0)
    ensures Sufficient(ops, m) ==> HoldsAt(sts[m + 1], a, ptrs[m], ops[m].size)
  {
    RunInv(sts, ops, start, end, m);
    assert ReturnedAt(sts, ops, ptrs, m);
    var size := ops[m].size;
    if size > MAX_SLAB_SIZE {
      AllocTakesPages(sts[m], size);
      a := Large(ptrs[m]);
    } else {
      var p, i := AllocTakesOne(sts[m], size);
      RunFixed(sts, ops, start, end, m + 1, ClassOf(size));
      a := Object(p, i);
    }
  }

  lemma StepHolds(st: State, op: Op, u: State, a: Area, p: nat, size: nat)
    requires Inv(st) && Step(st, op, u) && IsBlock(a) && HoldsAt(st, a, p, size) && !(op.FreeOp? && op.ptr == p)
    ensures HoldsAt(u, a, p, size)
  {
    StepStays(st, op, u, a);
  }

  lemma RunStepHolds(sts: seq<State>, ops: seq<Op>, start: nat, end: nat, n: nat, a: Area, p: nat, size: nat)
    requires IsRun(sts, ops) && IsHeap(start, end) && sts[0] == Fresh(start, end) && n < |ops|
    requires IsBlock(a) && HoldsAt(sts[n], a, p, size) && !(ops[n].FreeOp? && ops[n].ptr == p)
    ensures HoldsAt(sts[n + 1], a, p, size)
  {
    RunInv(sts, ops, start, end, n);
    assert StepAt(sts, ops, n);
    StepHolds(sts[n], ops[n], sts[n + 1], a, p, size);
  }

  /** A block that was not given back is still there. */
  lemma {:induction false} BlockStays(sts: seq<State>, ops: seq<Op>, ptrs: seq<nat>, start: nat, end: nat, m: nat,
      n: nat, a: Area, size: nat)
    requires IsCalled(sts, ops, ptrs, start, end) && Outstanding(ops, ptrs, m, n)
    requires IsBlock(a) && HoldsAt(sts[m + 1], a, ptrs[m], size)
    ensures HoldsAt(sts[n], a, ptrs[m], size)
  {
    if m + 1 < n {
      BlockStays(sts, ops, ptrs, start, end, m, n - 1, a, size);
      RunStepHolds(sts, ops, start, end, n - 1, a, ptrs[m], size);
    }
  }

  lemma BlocksApart(st: State, a: Area, p: nat, m: nat, b: Area, q: nat, n: nat)
    requires Inv(st) && a != b && HoldsAt(st, a, p, m) && HoldsAt(st, b, q, n)
    ensures p + m <= q || q + n <= p
    ensures st.start <= p && p + m <= st.end && st.start <= q && q + n <= st.end
  {
    AreasDisjoint(st, a, b);
    AreasDisjoint(st, b, a);
  }

  /** In every run, an allocation never returns bytes of an earlier one that was not given back, whenever
      the object sizes of their classes are sufficient; and both lie in the heap. */
  lemma OutstandingApart(sts: seq<State>, ops: seq<Op>, ptrs: seq<nat>, start: nat, end: nat, m: nat, k: nat)
    requires IsCalled(sts, ops, ptrs, start, end) && Outstanding(ops, ptrs, m, k) && k < |ops|
    requires Outstanding(ops, ptrs, k, k + 1)
    requires Sufficient(ops, m) && Sufficient(ops, k)
    ensures ptrs[m] + ops[m].size <= ptrs[k] || ptrs[k] + ops[k].size <= ptrs[m]
    ensures start <= ptrs[m] && ptrs[m] + ops[m].size <= end && start <= ptrs[k] && ptrs[k] + ops[k].size <= end
  {
    var a := NewBlock(sts, ops, ptrs, start, end, m);
    var b := NewBlock(sts, ops, ptrs, start, end, k);
    BlockStays(sts, ops, ptrs, start, end, m, k, a, ops[m].size);
    RunStepHolds(sts, ops, start, end, k, a, ptrs[m], ops[m].size);
    RunInv(sts, ops, start, end, k + 1);
    BlocksApart(sts[k + 1], a, ptrs[m], ops[m].size, b, ptrs[k], ops[k].size);
    RunEnds(sts, ops, start, end, k + 1);
  }

  lemma StepEnds(st: State, op: Op, u: State)
    requires Inv(st) && Step(st, op, u)
    ensures u.start == st.start && u.end == st.end
  {
    match op
    case AllocOp(size) =>
    case FreeOp(ptr, size) =>
  }

  lemma {:induction false} RunEnds(sts: seq<State>, ops: seq<Op>, start: nat, end: nat, n: nat)
    requires IsRun(sts, ops) && IsHeap(start, end) && sts[0] == Fresh(start, end) && n <= |ops|
    ensures sts[n].start == start && sts[n].end == end
  {
    if n > 0 {
      RunEnds(sts, ops, start, end, n - 1);
      RunInv(sts, ops, start, end, n - 1);
      assert StepAt(sts, ops, n - 1);
      StepEnds(sts[n - 1], ops[n - 1], sts[n]);
    }
  }

  // ----- large blocks are never given back -----

  lemma StepKeepsLarge(st: State, op: Op, u: State, b: nat)
    requires Inv(st) && Step(st, op, u) && b in st.large
    ensures b in u.large && u.large[b] == st.large[b]
  {
    match op
    case AllocOp(size) =>
      if size > MAX_SLAB_SIZE {
        AllocTakesPages(st, size);
      } else {
        var p, i := AllocTakesOne(st, size);
      }
    case FreeOp(ptr, size) =>
      if size <= MAX_SLAB_SIZE && ptr != 0 {
        var p, i :| IsLive(st, ptr, size, p, i);
        DeallocGivesOne(st, ptr, size, p, i);
      }
  }

  /** In every run, a large block keeps its pages for ever, also when its pointer is given back. */
  lemma {:induction false} LargeForever(sts: seq<State>, ops: seq<Op>, start: nat, end: nat, m: nat, n: nat, b: nat)
    requires IsRun(sts, ops) && IsHeap(start, end) && sts[0] == Fresh(start, end) && m <= n <= |ops|
    requires b in sts[m].large
    ensures b in sts[n].large && sts[n].large[b] == sts[m].large[b]
    decreases n
  {
    if m < n {
      LargeForever(sts, ops, start, end, m, n - 1, b);
      RunInv(sts, ops, start, end, n - 1);
      assert StepAt(sts, ops, n - 1);
      StepKeepsLarge(sts[n - 1], ops[n - 1], sts[n], b);
    }
  }

  // ----- requests that are not sufficient -----

  /** Class 0 has 8-byte objects and one slab, at `p`, whose first `j` objects were taken in order. */
  predicate FirstTaken(st: State, p: nat, j: nat) {
    && 0 in st.caches && st.caches[0].objSize == 8 && st.caches[0].num == ObjectsPerSlab(8)
    && st.caches[0].partial == [p] && p in st.slabs
    && |st.slabs[p].live| <= j <= ObjectsPerSlab(8) && st.slabs[p].free == Count(ObjectsPerSlab(8))[j..]
  }

  lemma TakeNext(st: State, p: nat, j: nat, size: nat)
    requires FirstTaken(st, p, j) && j + 1 < ObjectsPerSlab(8) && 0 < size <= MAX_SLAB_SIZE && ClassOf(size) == 0
    ensures Alloc(st, size).Done? && Alloc(st, size).ptr == ObjectAddress(p, 8, ObjectsPerSlab(8), j)
    ensures FirstTaken(Alloc(st, size).after, p, j + 1)
  {
    assert OpenCache(st, size) == Some(st);
    assert Count(ObjectsPerSlab(8))[j..][1..] == Count(ObjectsPerSlab(8))[j + 1..];
  }

  lemma TakeFirst(start: nat, end: nat)
    requires IsHeap(start, end) && start + 3 * PAGE_SIZE <= end && ClassOf(8) == 0
    ensures var a := Alloc(Fresh(start, end), 8);
            a.Done? && a.ptr != 0 && FirstTaken(a.after, start + PAGE_SIZE, 1)
  {
    NumValues(8);
    var n := ObjectsPerSlab(8);
    assert Count(n)[1..] == Count(n)[0..][1..];
  }

  lemma ThreeAllocations(start: nat, end: nat) returns (a: Allocation, b: Allocation, c: Allocation)
    requires IsHeap(start, end) && start + 3 * PAGE_SIZE <= end
    ensures a == Alloc(Fresh(start, end), 8) && a.Done? && b == Alloc(a.after, 24) && b.Done?
    ensures c == Alloc(b.after, 8) && c.Done? && b.ptr != 0 && b.ptr < c.ptr < b.ptr + 24
  {
    MixedClass();
    NumValues(8);
    TakeFirst(start, end);
    a := Alloc(Fresh(start, end), 8);
    TakeNext(a.after, start + PAGE_SIZE, 1, 24);
    b := Alloc(a.after, 24);
    TakeNext(b.after, start + PAGE_SIZE, 2, 8);
    c := Alloc(b.after, 8);
  }

  /** A run goes on with one more allocation. */
  lemma CalledMore(sts: seq<State>, ops: seq<Op>, ptrs: seq<nat>, start: nat, end: nat, size: nat, a: Allocation)
    requires IsCalled(sts, ops, ptrs, start, end) && size > 0 && a == Alloc(sts[|ops|], size) && a.Done?
    ensures IsCalled(sts + [a.after], ops + [AllocOp(size)], ptrs + [a.ptr], start, end)
  {
    var sts', ops', ptrs' := sts + [a.after], ops + [AllocOp(size)], ptrs + [a.ptr];
    forall i | 0 <= i < |ops'|
      ensures StepAt(sts', ops', i)
    {
      assert i < |ops| ==> StepAt(sts, ops, i);
    }
    forall m | 0 <= m < |ops'| && ops'[m].AllocOp?
      ensures ReturnedAt(sts', ops', ptrs', m)
    {
      assert m < |ops| ==> ReturnedAt(sts, ops, ptrs, m);
    }
  }

  /** Requests of 8, 24 and 8 bytes on a fresh heap are all answered, and the last two ranges overlap. */
  lemma MixedSizesOverlap(start: nat, end: nat) returns (sts: seq<State>, ops: seq<Op>, ptrs: seq<nat>)
    requires IsHeap(start, end) && start + 3 * PAGE_SIZE <= end
    ensures ops == [AllocOp(8), AllocOp(24), AllocOp(8)] && IsCalled(sts, ops, ptrs, start, end)
    ensures Outstanding(ops, ptrs, 1, 3) && Outstanding(ops, ptrs, 2, 3) && ptrs[1] < ptrs[2] < ptrs[1] + ops[1].size
  {
    var a, b, c := ThreeAllocations(start, end);
    sts, ops, ptrs := ThreeCalled(start, end, 8, 24, 8, a, b, c);
  }

  lemma ThreeCalled(start: nat, end: nat, x: nat, y: nat, z: nat, a: Allocation, b: Allocation, c: Allocation)
    returns (sts: seq<State>, ops: seq<Op>, ptrs: seq<nat>)
    requires IsHeap(start, end) && x > 0 && y > 0 && z > 0
    requires a == Alloc(Fresh(start, end), x) && a.Done? && b == Alloc(a.after, y) && b.Done?
    requires c == Alloc(b.after, z) && c.Done?
    ensures IsCalled(sts, ops, ptrs, start, end)
    ensures ops == [AllocOp(x), AllocOp(y), AllocOp(z)] && ptrs == [a.ptr, b.ptr, c.ptr]
  {
    CalledMore([Fresh(start, end)], [], [], start, end, x, a);
    sts, ops, ptrs := [Fresh(start, end)] + [a.after], [] + [AllocOp(x)], [] + [a.ptr];
    CalledMore(sts, ops, ptrs, start, end, y, b);
    sts, ops, ptrs := sts + [b.after], ops + [AllocOp(y)], ptrs + [b.ptr];
    CalledMore(sts, ops, ptrs, start, end, z, c);
    sts, ops, ptrs := sts + [c.after], ops + [AllocOp(z)], ptrs + [c.ptr];
  }

  /** If all small requests are powers of two, every request is sufficient. */
  lemma PowersSufficient(ops: seq<Op>, m: nat)
    requires PowersOnly(ops) && m < |ops| && ops[m].AllocOp? && ops[m].size > 0
    ensures Sufficient(ops, m)
  {
    var size := ops[m].size;
    if size <= MAX_SLAB_SIZE {
      FirstHasClass(ops, m + 1, ClassOf(size));
      var first := FirstSize(ops, m + 1, ClassOf(size)).value;
      PowerOfTwoClass(size);
      PowerOfTwoClass(first);
      ObjectSizeFits(size);
    }
  }

  lemma {:induction false} FirstHasClass(ops: seq<Op>, n: nat, k: nat)
    requires n <= |ops| && PowersOnly(ops)
    ensures var first := FirstSize(ops, n, k);
            first.Some? ==> 0 < first.value <= MAX_SLAB_SIZE && ClassOf(first.value) == k && IsPowerOfTwo(first.value)
  {
    if n > 0 {
      FirstHasClass(ops, n - 1, k);
    }
  }

  /** In every state of a run whose small requests are powers of two, the ranges that callers asked for and
      did not give back are pairwise apart, and all lie in the heap. */
  lemma PowersApart(sts: seq<State>, ops: seq<Op>, ptrs: seq<nat>, start: nat, end: nat, n: nat, m: nat, k: nat)
    requires IsCalled(sts, ops, ptrs, start, end) && PowersOnly(ops)
    requires Outstanding(ops, ptrs, m, n) && Outstanding(ops, ptrs, k, n) && m < k
    ensures ptrs[m] + ops[m].size <= ptrs[k] || ptrs[k] + ops[k].size <= ptrs[m]
    ensures start <= ptrs[m] && ptrs[m] + ops[m].size <= end && start <= ptrs[k] && ptrs[k] + ops[k].size <= end
  {
    PowersSufficient(ops, m);
    PowersSufficient(ops, k);
    OutstandingApart(sts, ops, ptrs, start, end, m, k);
  }
}
