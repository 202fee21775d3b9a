/** The number of slabs a class ever takes is the peak number of its live objects divided by the objects
    per slab, rounded up. */
module SlabGrowth {
  import opened Arithmetic
  import opened SlabLayout
  import opened SlabModel
  import opened SlabRuns

  /** Objects in use in the slabs at the given pages. */
  function Used(slabs: map<nat, Slab>, pages: seq<nat>): nat {
    if pages == [] then 0 else (if pages[0] in slabs then |slabs[pages[0]].live| else 0) + Used(slabs, pages[1..])
  }

  function LiveCount(st: State, k: nat): nat {
    if k in st.caches then Used(st.slabs, All(st.caches[k])) else 0
  }

  function SlabCount(st: State, k: nat): nat {
    if k in st.caches then |All(st.caches[k])| else 0
  }

  lemma {:induction false} UsedJoin(slabs: map<nat, Slab>, a: seq<nat>, b: seq<nat>)
    ensures Used(slabs, a + b) == Used(slabs, a) + Used(slabs, b)
  {
    if a == [] {
      assert a + b == b;
    } else {
      assert (a + b)[1..] == a[1..] + b;
      UsedJoin(slabs, a[1..], b);
    }
  }

  lemma {:induction false} UsedFrame(slabs: map<nat, Slab>, slabs': map<nat, Slab>, pages: seq<nat>)
    requires forall p :: p in pages ==> p in slabs && p in slabs' && slabs'[p].live == slabs[p].live
    ensures Used(slabs', pages) == Used(slabs, pages)
  {
    if pages != [] {
      UsedFrame(slabs, slabs', pages[1..]);
    }
  }

  lemma {:induction false} UsedRemove(slabs: map<nat, Slab>, pages: seq<nat>, p: nat)
    requires p in pages && p in slabs
    ensures Used(slabs, pages) == Used(slabs, Remove(pages, p)) + |slabs[p].live|
  {
    if pages[0] != p {
      UsedRemove(slabs, pages[1..], p);
      assert ([pages[0]] + Remove(pages[1..], p))[1..] == Remove(pages[1..], p);
    }
  }

  lemma UsedLists(slabs: map<nat, Slab>, c: Cache)
    ensures Used(slabs, All(c)) == Used(slabs, c.full) + Used(slabs, c.partial) + Used(slabs, c.empty)
  {
    UsedJoin(slabs, c.full, c.partial);
    UsedJoin(slabs, c.full + c.partial, c.empty);
  }

  lemma UsedCons(slabs: map<nat, Slab>, p: nat, pages: seq<nat>)
    requires p in slabs
    ensures Used(slabs, [p] + pages) == |slabs[p].live| + Used(slabs, pages)
  {
    assert ([p] + pages)[1..] == pages;
  }

  lemma {:induction false} UsedBound(slabs: map<nat, Slab>, pages: seq<nat>, num: nat)
    requires forall p :: p in pages ==> p in slabs && |slabs[p].live| <= num
    ensures Used(slabs, pages) <= |pages| * num
    ensures (forall p :: p in pages ==> |slabs[p].live| == num) ==> Used(slabs, pages) == |pages| * num
  {
    if pages != [] {
      UsedBound(slabs, pages[1..], num);
      assert |pages| * num == |pages[1..]| * num + num;
      assert pages[0] in pages;
    }
  }

  /** A class never has more live objects than its slabs have room for. */
  lemma CountBound(st: State, k: nat)
    requires Inv(st) && k in st.caches
    ensures LiveCount(st, k) <= SlabCount(st, k) * st.caches[k].num
    ensures st.caches[k].partial == [] && st.caches[k].empty == [] ==>
              LiveCount(st, k) == SlabCount(st, k) * st.caches[k].num
  {
    var c := st.caches[k];
    assert CacheOk(st, k);
    forall p | p in All(c)
      ensures p in st.slabs && |st.slabs[p].live| <= c.num && (p in c.full ==> |st.slabs[p].live| == c.num)
    {
      assert SlabOk(st, p);
    }
    UsedBound(st.slabs, All(c), c.num);
  }

  // ----- what the steps do to the counts -----

  /** Classes other than `k` keep their lists and slabs. */
  ghost predicate OthersSame(st: State, u: State, k: nat) {
    && (forall j :: j != k ==> (j in u.caches <==> j in st.caches))
    && (forall j :: j != k && j in st.caches ==> u.caches[j] == st.caches[j])
    && (forall p :: p in st.slabs && st.slabs[p].kind != k ==> p in u.slabs && u.slabs[p] == st.slabs[p])
  }

  lemma OtherCounts(st: State, u: State, k: nat, j: nat)
    requires Inv(st) && OthersSame(st, u, k) && j != k
    ensures LiveCount(u, j) == LiveCount(st, j) && SlabCount(u, j) == SlabCount(st, j)
  {
    if j in st.caches {
      assert CacheOk(st, j);
      UsedFrame(st.slabs, u.slabs, All(st.caches[j]));
    }
  }

  lemma GrowCounts(st: State, k: nat)
    requires Inv(st) && k in st.caches && Grow(st, k).Some?
    ensures LiveCount(Grow(st, k).value, k) == LiveCount(st, k)
    ensures SlabCount(Grow(st, k).value, k) == SlabCount(st, k) + 1
    ensures OthersSame(st, Grow(st, k).value, k)
  {
    NextIsFree(st);
    assert CacheOk(st, k);
    var u, c := Grow(st, k).value, st.caches[k];
    UsedLists(st.slabs, c);
    UsedLists(u.slabs, u.caches[k]);
    UsedCons(u.slabs, st.next, c.empty);
    ListsFrame(st, k, u.slabs);
  }

  /** The counts of a cache's lists do not change with slabs that are not on them. */
  lemma ListsFrame(st: State, k: nat, slabs': map<nat, Slab>)
    requires Inv(st) && k in st.caches
    requires forall p :: p in st.slabs ==> p in slabs' && slabs'[p].live == st.slabs[p].live
    ensures var c := st.caches[k];
            && Used(slabs', c.full) == Used(st.slabs, c.full)
            && Used(slabs', c.partial) == Used(st.slabs, c.partial)
            && Used(slabs', c.empty) == Used(st.slabs, c.empty)
  {
    var c := st.caches[k];
    assert CacheOk(st, k);
    assert forall p :: p in c.full || p in c.partial || p in c.empty ==> p in All(c);
    UsedFrame(st.slabs, slabs', c.full);
    UsedFrame(st.slabs, slabs', c.partial);
    UsedFrame(st.slabs, slabs', c.empty);
  }

  lemma {:induction false} UsedRearranged(slabs: map<nat, Slab>, a: seq<nat>, b: seq<nat>)
    requires multiset(a) == multiset(b) && forall p :: p in a ==> p in slabs
    ensures Used(slabs, a) == Used(slabs, b) && |a| == |b|
  {
    assert |multiset(a)| == |a| && |multiset(b)| == |b|;
    if a != [] {
      var p := a[0];
      assert a == [p] + a[1..];
      assert p in multiset(b);
      RemoveOne(b, p);
      UsedRemove(slabs, b, p);
      assert multiset(a[1..]) == multiset(a) - multiset{p};
      assert multiset(Remove(b, p)) == multiset(b) - multiset{p};
      UsedRearranged(slabs, a[1..], Remove(b, p));
    }
  }

  lemma {:induction false} UsedUpdate(slabs: map<nat, Slab>, pages: seq<nat>, p: nat, s: Slab)
    requires Distinct(pages) && (forall q :: q in pages ==> q in slabs)
    ensures p in pages ==> Used(slabs[p := s], pages) + |slabs[p].live| == Used(slabs, pages) + |s.live|
    ensures p !in pages ==> Used(slabs[p := s], pages) == Used(slabs, pages)
  {
    if pages != [] {
      assert pages == [pages[0]] + pages[1..];
      UsedUpdate(slabs, pages[1..], p, s);
    }
  }

  /** Moving a page between lists and changing its slab changes the count by the change of that slab. */
  lemma MoveCounts(st: State, k: nat, c': Cache, p: nat, s': Slab)
    requires Inv(st) && k in st.caches && p in st.slabs && st.slabs[p].kind == k == s'.kind
    requires multiset(All(c')) == multiset(All(st.caches[k]))
    ensures var u := SetCache(st, k, c').(slabs := st.slabs[p := s']);
            && LiveCount(u, k) + |st.slabs[p].live| == LiveCount(st, k) + |s'.live|
            && SlabCount(u, k) == SlabCount(st, k) && OthersSame(st, u, k)
  {
    var c := st.caches[k];
    assert CacheOk(st, k);
    assert SlabOk(st, p);
    UsedUpdate(st.slabs, All(c), p, s');
    UsedRearranged(st.slabs[p := s'], All(c), All(c'));
  }

  lemma PromoteCounts(st: State, k: nat)
    requires Inv(st) && k in st.caches && st.caches[k].empty != []
    ensures LiveCount(Promote(st, k), k) == LiveCount(st, k) && SlabCount(Promote(st, k), k) == SlabCount(st, k)
    ensures OthersSame(st, Promote(st, k), k)
  {
    var c := st.caches[k];
    var p := c.empty[0];
    assert CacheOk(st, k);
    assert p in All(c);
    assert c.empty == [p] + c.empty[1..];
    assert st.slabs[p := st.slabs[p]] == st.slabs;
    MoveCounts(st, k, c.(empty := c.empty[1..], partial := [p] + c.partial), p, st.slabs[p]);
  }

  lemma ReadyCounts(st: State, k: nat)
    requires Inv(st) && k in st.caches && Ready(st, k).Some?
    ensures var u := Ready(st, k).value;
            && LiveCount(u, k) == LiveCount(st, k) && OthersSame(st, u, k)
            && (SlabCount(u, k) == SlabCount(st, k)
                || (SlabCount(u, k) == SlabCount(st, k) + 1 && LiveCount(st, k) == SlabCount(st, k) * st.caches[k].num))
  {
    var c := st.caches[k];
    if c.partial == [] {
      if c.empty != [] {
        PromoteCounts(st, k);
      } else {
        CountBound(st, k);
        GrowCounts(st, k);
        GrowKeeps(st, k);
        PromoteCounts(Grow(st, k).value, k);
      }
    }
  }

  lemma TakeCounts(st: State, k: nat)
    requires Inv(st) && k in st.caches && st.caches[k].partial != []
    ensures st.caches[k].partial[0] in st.slabs && st.slabs[st.caches[k].partial[0]].free != []
    ensures var u := Take(st, k);
            LiveCount(u, k) == LiveCount(st, k) + 1 && SlabCount(u, k) == SlabCount(st, k) && OthersSame(st, u, k)
  {
    TakeKeeps(st, k);
    var c := st.caches[k];
    var p := c.partial[0];
    assert CacheOk(st, k);
    assert p in All(c);
    assert SlabOk(st, p);
    var s := st.slabs[p];
    FreeAfterTake(s, c.num);
    var s' := s.(free := s.free[1..], live := s.live + {s.free[0]});
    assert c.partial == [p] + c.partial[1..];
    if |s'.live| == c.num {
      MoveCounts(st, k, c.(partial := c.partial[1..], full := [p] + c.full), p, s');
    } else {
      MoveCounts(st, k, c, p, s');
    }
  }

  lemma GiveCounts(st: State, p: nat, i: nat)
    requires Inv(st) && p in st.slabs && i in st.slabs[p].live
    ensures st.slabs[p].kind in st.caches
    ensures var u, k := Give(st, p, i), st.slabs[p].kind;
            LiveCount(u, k) + 1 == LiveCount(st, k) && SlabCount(u, k) == SlabCount(st, k) && OthersSame(st, u, k)
  {
    assert SlabOk(st, p);
    var s, k := st.slabs[p], st.slabs[p].kind;
    var c := st.caches[k];
    assert CacheOk(st, k);
    FreeAfterGive(s, c.num, i);
    var s' := s.(free := [i] + s.free, live := s.live - {i});
    if |s'.live| + 1 == c.num {
      FullToPartial(c, p);
      MoveCounts(st, k, c.(full := Remove(c.full, p), partial := [p] + c.partial), p, s');
    } else if s'.live == {} {
      PartialToEmpty(c, p);
      MoveCounts(st, k, c.(partial := Remove(c.partial, p), empty := [p] + c.empty), p, s');
    } else {
      MoveCounts(st, k, c, p, s');
    }
  }

  lemma OpenCacheCounts(st: State, size: nat, j: nat)
    requires Inv(st) && size > 0 && OpenCache(st, size).Some?
    ensures var u := OpenCache(st, size).value;
            LiveCount(u, j) == LiveCount(st, j) && SlabCount(u, j) == SlabCount(st, j)
  {
  }

  /** How one call changes the counts of a class: the number of slabs stays, or it grows by one while the
      last free object of the class is taken. */
  ghost predicate CountsStep(st: State, u: State, k: nat) {
    || SlabCount(u, k) == SlabCount(st, k)
    || (&& SlabCount(u, k) == SlabCount(st, k) + 1
        && k in u.caches
        && LiveCount(st, k) == SlabCount(st, k) * u.caches[k].num
        && LiveCount(u, k) == LiveCount(st, k) + 1)
  }

  lemma AllocCounts(st: State, size: nat, j: nat)
    requires Inv(st) && 0 < size <= MAX_SLAB_SIZE && Alloc(st, size).Done?
    ensures CountsStep(st, Alloc(st, size).after, j)
  {
    var k := ClassOf(size);
    OpenCacheKeeps(st, size);
    OpenCacheCounts(st, size, j);
    var s1 := OpenCache(st, size).value;
    ReadyKeeps(s1, k);
    ReadyCounts(s1, k);
    var s2 := Ready(s1, k).value;
    TakeCounts(s2, k);
    if j != k {
      OtherCounts(s1, s2, k, j);
      OtherCounts(s2, Take(s2, k), k, j);
    }
  }

  lemma DeallocCounts(st: State, ptr: nat, size: nat, p: nat, i: nat, j: nat)
    requires Inv(st) && IsLive(st, ptr, size, p, i)
    ensures SlabCount(Dealloc(st, ptr, size), j) == SlabCount(st, j)
  {
    DeallocIsGive(st, ptr, size, p, i);
    GiveCounts(st, p, i);
    if j != st.slabs[p].kind {
      OtherCounts(st, Give(st, p, i), st.slabs[p].kind, j);
    }
  }

  lemma StepCounts(st: State, op: Op, u: State, k: nat)
    requires Inv(st) && Step(st, op, u)
    ensures CountsStep(st, u, k)
  {
    match op
    case AllocOp(size) =>
      if size <= MAX_SLAB_SIZE {
        AllocCounts(st, size, k);
      }
    case FreeOp(ptr, size) =>
      if size <= MAX_SLAB_SIZE && ptr != 0 {
        var p, i :| IsLive(st, ptr, size, p, i);
        DeallocCounts(st, ptr, size, p, i, k);
      }
  }

  // ----- the bound -----

  /** The most objects of class `k` that were live at once in the first `n` states after the start. */
  function Peak(sts: seq<State>, n: nat, k: nat): nat
    requires n < |sts|
  {
    if n == 0 then LiveCount(sts[0], k) else Max(Peak(sts, n - 1, k), LiveCount(sts[n], k))
  }

  function CeilDiv(a: nat, b: nat): nat
    requires b > 0
  {
    (a + b - 1) / b
  }

  lemma CeilDivIs(a: nat, b: nat, q: nat)
    requires b > 0 && q * b < a + b <= (q + 1) * b
    ensures CeilDiv(a, b) == q
  {
    var x := a + b - 1;
    var d := x / b;
    assert x == d * b + x % b;
    assert (q + 1) * b == q * b + b;
    if d < q {
      MulMonotone(d, q, b);
    } else if d > q {
      MulMonotone(q, d, b);
    }
  }

  /** The number of slabs, objects per slab and peak of a class fit together. */
  predicate Bounded(slabs: nat, num: nat, peak: nat) {
    peak <= slabs * num && (slabs > 0 ==> (slabs - 1) * num < peak)
  }

  lemma BoundedStep(slabs: nat, num: nat, peak: nat, live: nat, slabs': nat, live': nat)
    requires num > 0 && Bounded(slabs, num, peak) && live <= peak && live' <= slabs' * num
    requires slabs' == slabs || (slabs' == slabs + 1 && live == slabs * num && live' == live + 1)
    ensures Bounded(slabs', num, Max(peak, live'))
  {
    assert (slabs + 1) * num == slabs * num + num;
  }

  lemma BoundedCeil(slabs: nat, num: nat, peak: nat)
    requires num > 0 && Bounded(slabs, num, peak)
    ensures CeilDiv(peak, num) == slabs
  {
    assert (slabs + 1) * num == slabs * num + num;
    if slabs > 0 {
      assert slabs * num == (slabs - 1) * num + num;
    }
    CeilDivIs(peak, num, slabs);
  }

  /** Objects per slab of a class, once it exists. */
  function NumOf(st: State, k: nat): nat {
    if k in st.caches then st.caches[k].num else 1
  }

  lemma StateBound(st: State, k: nat)
    requires Inv(st)
    ensures NumOf(st, k) > 0 && LiveCount(st, k) <= SlabCount(st, k) * NumOf(st, k)
  {
    if k in st.caches {
      assert CacheOk(st, k);
      PageFits(0, st.caches[k].objSize);
      CountBound(st, k);
    }
  }

  /** The slabs of a class are as many as a peak of that height needs. */
  ghost predicate PeakOk(st: State, k: nat, peak: nat) {
    Bounded(SlabCount(st, k), NumOf(st, k), peak) && LiveCount(st, k) <= peak
  }

  lemma StepBounded(st: State, u: State, k: nat, peak: nat)
    requires PeakOk(st, k, peak) && CountsStep(st, u, k) && (k in st.caches ==> NumOf(u, k) == NumOf(st, k))
    requires NumOf(u, k) > 0 && LiveCount(u, k) <= SlabCount(u, k) * NumOf(u, k)
    ensures PeakOk(u, k, Max(peak, LiveCount(u, k)))
  {
    BoundedStep(SlabCount(st, k), NumOf(u, k), peak, LiveCount(st, k), SlabCount(u, k), LiveCount(u, k));
  }

  lemma RunStepCounts(sts: seq<State>, ops: seq<Op>, start: nat, end: nat, n: nat, k: nat)
    requires IsRun(sts, ops) && n < |ops| && IsHeap(start, end) && sts[0] == Fresh(start, end)
    ensures CountsStep(sts[n], sts[n + 1], k) && (k in sts[n].caches ==> NumOf(sts[n + 1], k) == NumOf(sts[n], k))
  {
    RunInv(sts, ops, start, end, n);
    assert StepAt(sts, ops, n);
    StepKeeps(sts[n], ops[n], sts[n + 1]);
    StepCounts(sts[n], ops[n], sts[n + 1], k);
  }

  lemma {:induction false} RunBounded(sts: seq<State>, ops: seq<Op>, start: nat, end: nat, n: nat, k: nat)
    requires IsRun(sts, ops) && n <= |ops| && IsHeap(start, end) && sts[0] == Fresh(start, end)
    ensures PeakOk(sts[n], k, Peak(sts, n, k))
  {
    if n > 0 {
      RunBounded(sts, ops, start, end, n - 1, k);
      RunStepCounts(sts, ops, start, end, n - 1, k);
      RunInv(sts, ops, start, end, n);
      StateBound(sts[n], k);
      StepBounded(sts[n - 1], sts[n], k, Peak(sts, n - 1, k));
    }
  }

  /** In every run, the number of slabs a class has grown is the ceiling of its peak number of live
      objects over the objects per slab. */
  lemma SlabsEqualPeak(sts: seq<State>, ops: seq<Op>, start: nat, end: nat, n: nat, k: nat)
    requires IsRun(sts, ops) && n <= |ops|
    requires IsHeap(start, end) && sts[0] == Fresh(start, end)
    ensures NumOf(sts[n], k) > 0 && SlabCount(sts[n], k) == CeilDiv(Peak(sts, n, k), NumOf(sts[n], k))
  {
    RunInv(sts, ops, start, end, n);
    StateBound(sts[n], k);
    RunBounded(sts, ops, start, end, n, k);
    BoundedCeil(SlabCount(sts[n], k), NumOf(sts[n], k), Peak(sts, n, k));
  }
}
