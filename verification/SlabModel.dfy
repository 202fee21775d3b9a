/** The slab allocator as a state machine: which pages, slabs and objects there are, without the links
    and words that store them. */
module SlabModel {
  import opened Arithmetic
  import opened Bytes
  import opened SlabLayout

  /** A cache: its record's address, its sizes, and its three lists of slab pages, first one first. */
  datatype Cache = Cache(addr: nat, objSize: nat, num: nat, full: seq<nat>, partial: seq<nat>, empty: seq<nat>)

  /** A slab: its class, the order in which its free objects will be handed out, and the objects in use. */
  datatype Slab = Slab(kind: nat, free: seq<nat>, live: set<nat>)

  /** What a page is used for. */
  datatype Owner = Record(k: nat) | SlabPage(kind: nat) | LargePage(base: nat)

  /** Pages `start` up to `next` are in use; `large` gives the number of pages of each large block. */
  datatype State = State(start: nat, next: nat, end: nat, caches: map<nat, Cache>, slabs: map<nat, Slab>,
      large: map<nat, nat>, owner: map<nat, Owner>)

  function All(c: Cache): seq<nat> { c.full + c.partial + c.empty }

  function Count(n: nat): (r: seq<nat>)
    ensures |r| == n && forall i :: 0 <= i < n ==> r[i] == i
  {
    seq(n, i => i)
  }

  // ----- steps -----

  /** `alloc_pages`. */
  function PagesAt(st: State, m: nat): Option<nat> {
    if st.next + m * PAGE_SIZE > st.end then None else Some(st.next)
  }

  function SetCache(st: State, k: nat, c: Cache): State { st.(caches := st.caches[k := c]) }

  /** `get_or_create_cache`; `None` when there is no page for the record, which stops the code. */
  function OpenCache(st: State, size: nat): Option<State>
    requires size > 0
  {
    var k, o := ClassOf(size), ObjectSize(size);
    if k in st.caches then Some(st)
    else if PagesAt(st, 1).None? then None
    else Some(st.(
                next := st.next + PAGE_SIZE,
                owner := st.owner[st.next := Record(k)],
                caches := st.caches[k := Cache(st.next, o, ObjectsPerSlab(o), [], [], [])]))
  }

  /** `cache_grow`; `None` when there is no page, which stops the code. */
  function Grow(st: State, k: nat): Option<State>
    requires k in st.caches
  {
    if PagesAt(st, 1).None? then None
    else
      var c := st.caches[k];
      Some(st.(
             next := st.next + PAGE_SIZE,
             owner := st.owner[st.next := SlabPage(k)],
             slabs := st.slabs[st.next := Slab(k, Count(c.num), {})],
             caches := st.caches[k := c.(empty := [st.next] + c.empty)]))
  }

  /** Moves the first empty slab to the front of the partial list. */
  function Promote(st: State, k: nat): State
    requires k in st.caches && st.caches[k].empty != []
  {
    var c := st.caches[k];
    SetCache(st, k, c.(empty := c.empty[1..], partial := [c.empty[0]] + c.partial))
  }

  /** Makes the partial list nonempty. */
  function Ready(st: State, k: nat): Option<State>
    requires k in st.caches
  {
    if st.caches[k].partial != [] then Some(st)
    else if st.caches[k].empty != [] then Some(Promote(st, k))
    else if Grow(st, k).None? then None
    else Some(Promote(Grow(st, k).value, k))
  }

  /** Hands out the first free object of the first partial slab; a slab that becomes full moves to the
      full list. */
  function Take(st: State, k: nat): State
    requires k in st.caches && st.caches[k].partial != [] && st.caches[k].partial[0] in st.slabs
    requires st.slabs[st.caches[k].partial[0]].free != []
  {
    var c := st.caches[k];
    var p := c.partial[0];
    var s := st.slabs[p];
    var s' := s.(free := s.free[1..], live := s.live + {s.free[0]});
    var c' := if |s'.live| == c.num then c.(partial := c.partial[1..], full := [p] + c.full) else c;
    SetCache(st, k, c').(slabs := st.slabs[p := s'])
  }

  function Remove(pages: seq<nat>, p: nat): seq<nat> {
    if pages == [] then [] else if pages[0] == p then pages[1..] else [pages[0]] + Remove(pages[1..], p)
  }

  /** Takes an object back: a slab that was full becomes partial; one that gets empty, and was not full,
      moves to the empty list. */
  function Give(st: State, p: nat, i: nat): State
    requires p in st.slabs && st.slabs[p].kind in st.caches
  {
    var s := st.slabs[p];
    var c := st.caches[s.kind];
    var s' := s.(free := [i] + s.free, live := s.live - {i});
    var c' := if |s'.live| + 1 == c.num then c.(full := Remove(c.full, p), partial := [p] + c.partial)
              else if s'.live == {} then c.(partial := Remove(c.partial, p), empty := [p] + c.empty)
              else c;
    SetCache(st, s.kind, c').(slabs := st.slabs[p := s'])
  }

  /** The pages of a large block. */
  function LargePages(base: nat, m: nat): (r: set<nat>)
    ensures forall p :: p in r <==> exists j: nat :: j < m && p == base + j * PAGE_SIZE
  {
    set j: nat | j < m :: base + j * PAGE_SIZE
  }

  function PagesFor(size: nat): nat { (size + PAGE_SIZE - 1) / PAGE_SIZE }

  /** A large request takes whole pages. */
  function TakeLarge(st: State, m: nat): State {
    st.(next := st.next + m * PAGE_SIZE,
        large := st.large[st.next := m],
        owner := st.owner + map p | p in LargePages(st.next, m) :: LargePage(st.next))
  }

  // ----- the invariant -----

  predicate Distinct<T(==)>(s: seq<T>) {
    forall i, j :: 0 <= i < j < |s| ==> s[i] != s[j]
  }

  ghost predicate CacheOk(st: State, k: nat)
    requires k in st.caches
  {
    var c := st.caches[k];
    && k < MAX_CLASSES && IsObjectSize(c.objSize) && c.num == ObjectsPerSlab(c.objSize)
    && c.addr in st.owner && st.owner[c.addr] == Record(k)
    && Distinct(All(c))
    && forall p :: p in All(c) ==> p in st.slabs && st.slabs[p].kind == k
  }

  /** The free list is duplicate-free and the exact complement of the objects in use. */
  ghost predicate FreeOk(s: Slab, num: nat) {
    && Distinct(s.free)
    && (forall i :: 0 <= i < |s.free| ==> s.free[i] < num)
    && (forall i: nat :: i in s.live <==> i < num && i !in s.free)
    && |s.live| + |s.free| == num
  }

  /** The list a slab is on agrees with how full it is. */
  ghost predicate Placed(c: Cache, s: Slab, p: nat) {
    && p in All(c)
    && (p in c.full <==> |s.live| == c.num)
    && (p in c.empty ==> s.live == {})
    && (p in c.partial ==> |s.live| < c.num)
  }

  ghost predicate SlabOk(st: State, p: nat)
    requires p in st.slabs
  {
    var s := st.slabs[p];
    && s.kind in st.caches && p in st.owner && st.owner[p] == SlabPage(s.kind)
    && FreeOk(s, st.caches[s.kind].num) && Placed(st.caches[s.kind], s, p)
  }

  ghost predicate PageOk(st: State, p: nat)
    requires p in st.owner
  {
    && p % PAGE_SIZE == 0 && st.start <= p && p + PAGE_SIZE <= st.next
    && match st.owner[p]
       case Record(k) => k in st.caches && st.caches[k].addr == p
       case SlabPage(k) => p in st.slabs && st.slabs[p].kind == k
       case LargePage(b) => b in st.large && p in LargePages(b, st.large[b])
  }

  ghost predicate LargeOk(st: State, b: nat)
    requires b in st.large
  {
    st.large[b] > 0 && forall p :: p in LargePages(b, st.large[b]) ==> p in st.owner && st.owner[p] == LargePage(b)
  }

  ghost predicate Inv(st: State) {
    && st.start % PAGE_SIZE == 0 && st.next % PAGE_SIZE == 0 && 0 < st.start <= st.next <= st.end
    && (forall k {:trigger CacheOk(st, k)} :: k in st.caches ==> CacheOk(st, k))
    && (forall p {:trigger SlabOk(st, p)} :: p in st.slabs ==> SlabOk(st, p))
    && (forall p {:trigger PageOk(st, p)} :: p in st.owner ==> PageOk(st, p))
    && (forall b {:trigger LargeOk(st, b)} :: b in st.large ==> LargeOk(st, b))
  }

  function Fresh(start: nat, end: nat): State {
    State(start, start, end, map[], map[], map[], map[])
  }

  lemma FreshInv(start: nat, end: nat)
    requires start % PAGE_SIZE == 0 && 0 < start <= end
    ensures Inv(Fresh(start, end))
  {
  }

  // ----- every step keeps the invariant -----

  /** The next page is not in use. */
  lemma NextIsFree(st: State)
    requires Inv(st)
    ensures st.next !in st.owner && st.next !in st.slabs && st.next !in st.large
  {
    forall p | p in st.owner
      ensures p != st.next
    {
      assert PageOk(st, p);
    }
    forall p | p in st.slabs
      ensures p in st.owner
    {
      assert SlabOk(st, p);
    }
    forall b | b in st.large
      ensures b in st.owner
    {
      assert LargeOk(st, b);
      assert b == b + 0 * PAGE_SIZE;
      assert b in LargePages(b, st.large[b]);
    }
  }

  /** `u` has everything of `st`: the same pages with the same use, the same slabs in the same classes,
      the same large blocks, and the same cache records and sizes. */
  ghost predicate Extends(st: State, u: State) {
    && u.start == st.start && u.end == st.end && st.next <= u.next
    && (forall p {:trigger p in u.owner} :: p in st.owner ==> p in u.owner && u.owner[p] == st.owner[p])
    && (forall p {:trigger p in u.slabs} :: p in st.slabs ==> p in u.slabs && u.slabs[p].kind == st.slabs[p].kind)
    && (forall b {:trigger b in u.large} :: b in st.large ==> b in u.large && u.large[b] == st.large[b])
    && (forall k {:trigger k in u.caches} :: k in st.caches ==> k in u.caches && SameShape(u.caches[k], st.caches[k]))
  }

  predicate SameShape(c: Cache, e: Cache) {
    c.addr == e.addr && c.objSize == e.objSize && c.num == e.num
  }

  lemma CacheFrame(st: State, u: State, k: nat)
    requires k in st.caches && CacheOk(st, k) && Extends(st, u) && k in u.caches && u.caches[k] == st.caches[k]
    ensures CacheOk(u, k)
  {
    forall p | p in All(u.caches[k])
      ensures p in u.slabs && u.slabs[p].kind == k
    {
      assert p in All(st.caches[k]);
    }
  }

  lemma SlabFrame(st: State, u: State, p: nat)
    requires p in st.slabs && SlabOk(st, p) && Extends(st, u) && p in u.slabs && u.slabs[p] == st.slabs[p]
    requires st.slabs[p].kind in u.caches && u.caches[st.slabs[p].kind] == st.caches[st.slabs[p].kind]
    ensures SlabOk(u, p)
  {
  }

  lemma PageFrame(st: State, u: State, p: nat)
    requires p in st.owner && PageOk(st, p) && Extends(st, u)
    ensures p in u.owner && PageOk(u, p)
  {
    match st.owner[p]
    case Record(k) => assert k in u.caches;
    case SlabPage(_) => assert p in u.slabs;
    case LargePage(b) => assert b in u.large;
  }

  lemma LargeFrame(st: State, u: State, b: nat)
    requires b in st.large && LargeOk(st, b) && Extends(st, u)
    ensures b in u.large && LargeOk(u, b)
  {
    forall p | p in LargePages(b, st.large[b])
      ensures p in u.owner && u.owner[p] == LargePage(b)
    {
      assert p in st.owner;
    }
  }

  /** An extension keeps the invariant if its new and changed parts satisfy it. */
  lemma ExtendsInv(st: State, u: State)
    requires Inv(st) && Extends(st, u) && u.next % PAGE_SIZE == 0 && u.next <= u.end
    requires forall k {:trigger CacheOk(u, k)} :: k in u.caches ==>
               (k in st.caches && u.caches[k] == st.caches[k]) || CacheOk(u, k)
    requires forall p {:trigger SlabOk(u, p)} :: p in u.slabs ==> SlabKept(st, u, p) || SlabOk(u, p)
    requires forall p {:trigger PageOk(u, p)} :: p in u.owner ==> p in st.owner || PageOk(u, p)
    requires forall b {:trigger LargeOk(u, b)} :: b in u.large ==> b in st.large || LargeOk(u, b)
    ensures Inv(u)
  {
    forall k | k in u.caches
      ensures CacheOk(u, k)
    {
      if k in st.caches && u.caches[k] == st.caches[k] {
        assert CacheOk(st, k);
        CacheFrame(st, u, k);
      }
    }
    forall p | p in u.slabs
      ensures SlabOk(u, p)
    {
      if SlabKept(st, u, p) {
        assert SlabOk(st, p);
        SlabFrame(st, u, p);
      }
    }
    forall p | p in u.owner
      ensures PageOk(u, p)
    {
      if p in st.owner {
        assert PageOk(st, p);
        PageFrame(st, u, p);
      }
    }
    forall b | b in u.large
      ensures LargeOk(u, b)
    {
      if b in st.large {
        assert LargeOk(st, b);
        LargeFrame(st, u, b);
      }
    }
  }

  /** The slab and the lists of its cache are unchanged. */
  predicate SlabKept(st: State, u: State, p: nat)
    requires p in u.slabs
  {
    && p in st.slabs && u.slabs[p] == st.slabs[p]
    && st.slabs[p].kind in st.caches && st.slabs[p].kind in u.caches
    && u.caches[st.slabs[p].kind] == st.caches[st.slabs[p].kind]
  }

  lemma OpenCacheKeeps(st: State, size: nat)
    requires Inv(st) && 0 < size <= MAX_SLAB_SIZE && OpenCache(st, size).Some?
    ensures Inv(OpenCache(st, size).value) && ClassOf(size) in OpenCache(st, size).value.caches
  {
    var k := ClassOf(size);
    if k !in st.caches {
      NextIsFree(st);
      ClassInRange(size);
      ObjectSizeFits(size);
      var u := OpenCache(st, size).value;
      forall p | p in u.slabs
        ensures SlabKept(st, u, p)
      {
        assert SlabOk(st, p);
      }
      ExtendsInv(st, u);
    }
  }

  // ----- lists of distinct pages -----

  lemma {:induction false} DistinctCounts<T>(s: seq<T>, x: T)
    requires Distinct(s)
    ensures multiset(s)[x] == if x in s then 1 else 0
  {
    if s != [] {
      var init, last := s[..|s| - 1], s[|s| - 1];
      assert s == init + [last];
      DistinctCounts(init, x);
    }
  }

  lemma {:induction false} CountsDistinct<T>(s: seq<T>)
    requires forall x :: multiset(s)[x] <= 1
    ensures Distinct(s)
  {
    forall i, j | 0 <= i < j < |s|
      ensures s[i] != s[j]
    {
      assert s == s[..i] + [s[i]] + s[i + 1..j] + [s[j]] + s[j + 1..];
      assert multiset(s) == multiset(s[..i]) + multiset{s[i]} + multiset(s[i + 1..j]) + multiset{s[j]}
        + multiset(s[j + 1..]);
      assert multiset(s)[s[i]] <= 1;
    }
  }

  /** Rearranging distinct elements keeps them distinct. */
  lemma Rearranged<T>(a: seq<T>, b: seq<T>)
    requires Distinct(a) && multiset(a) == multiset(b)
    ensures Distinct(b)
    ensures forall x :: x in a <==> x in b
  {
    forall x
      ensures multiset(b)[x] <= 1 && (x in a <==> x in b)
    {
      DistinctCounts(a, x);
      assert x in multiset(b) <==> x in b;
    }
    CountsDistinct(b);
  }

  lemma DistinctInsert<T>(a: seq<T>, x: T, b: seq<T>)
    requires Distinct(a + b) && x !in a + b
    ensures Distinct(a + [x] + b)
  {
    forall i, j | 0 <= i < j < |a + [x] + b|
      ensures (a + [x] + b)[i] != (a + [x] + b)[j]
    {
      var i', j' := if i < |a| then i else i - 1, if j < |a| then j else j - 1;
      assert i != |a| ==> (a + [x] + b)[i] == (a + b)[i'];
      assert j != |a| ==> (a + [x] + b)[j] == (a + b)[j'];
    }
  }

  /** A page is on one list at most, and once. */
  lemma OneList(c: Cache, p: nat)
    requires Distinct(All(c))
    ensures multiset(c.full)[p] + multiset(c.partial)[p] + multiset(c.empty)[p] <= 1
    ensures Distinct(c.full) && Distinct(c.partial) && Distinct(c.empty)
    ensures p in c.full ==> p !in c.partial && p !in c.empty
    ensures p in c.partial ==> p !in c.empty
  {
    DistinctCounts(All(c), p);
    assert multiset(All(c)) == multiset(c.full) + multiset(c.partial) + multiset(c.empty);
    assert p in c.full <==> p in multiset(c.full);
    assert p in c.partial <==> p in multiset(c.partial);
    assert p in c.empty <==> p in multiset(c.empty);
    assert forall i :: 0 <= i < |c.full| ==> All(c)[i] == c.full[i];
    assert forall i :: 0 <= i < |c.partial| ==> All(c)[|c.full| + i] == c.partial[i];
    assert forall i :: 0 <= i < |c.empty| ==> All(c)[|c.full| + |c.partial| + i] == c.empty[i];
  }

  lemma GrownLists(c: Cache, x: nat)
    requires Distinct(All(c)) && x !in All(c)
    ensures Distinct(All(c.(empty := [x] + c.empty)))
    ensures forall p :: p in All(c.(empty := [x] + c.empty)) <==> p == x || p in All(c)
  {
    assert All(c) == (c.full + c.partial) + c.empty;
    assert All(c.(empty := [x] + c.empty)) == (c.full + c.partial) + [x] + c.empty;
    DistinctInsert(c.full + c.partial, x, c.empty);
  }

  lemma NewSlabOk(num: nat, k: nat)
    ensures FreeOk(Slab(k, Count(num), {}), num)
  {
    forall i: nat | i < num
      ensures i in Count(num)
    {
      assert Count(num)[i] == i;
    }
  }

  lemma GrowKeeps(st: State, k: nat)
    requires Inv(st) && k in st.caches && Grow(st, k).Some?
    ensures Inv(Grow(st, k).value)
  {
    NextIsFree(st);
    var u, c := Grow(st, k).value, st.caches[k];
    assert CacheOk(st, k);
    GrownLists(c, st.next);
    NewSlabOk(c.num, k);
    PageFits(0, c.objSize);
    assert CacheOk(u, k) by {
      forall p | p in All(u.caches[k])
        ensures p in u.slabs && u.slabs[p].kind == k
      {
        assert p == st.next || p in All(c);
      }
    }
    forall p | p in u.slabs
      ensures SlabKept(st, u, p) || SlabOk(u, p)
    {
      if p in st.slabs {
        assert SlabOk(st, p);
        if st.slabs[p].kind == k {
          assert p in All(u.caches[k]);
        }
      } else {
        assert p in All(u.caches[k]);
      }
    }
    ExtendsInv(st, u);
  }

  /** Moving one page between the lists of a cache, and changing its slab, keeps the invariant if that
      slab is consistent afterwards. */
  lemma MoveKeeps(st: State, k: nat, c': Cache, p: nat, s': Slab)
    requires Inv(st) && k in st.caches && p in st.slabs && st.slabs[p].kind == k == s'.kind
    requires SameShape(c', st.caches[k]) && multiset(All(c')) == multiset(All(st.caches[k]))
    requires forall q :: q != p ==> && (q in c'.full <==> q in st.caches[k].full)
                                    && (q in c'.partial <==> q in st.caches[k].partial)
                                    && (q in c'.empty <==> q in st.caches[k].empty)
    requires FreeOk(s', c'.num) && Placed(c', s', p)
    ensures Inv(SetCache(st, k, c').(slabs := st.slabs[p := s']))
  {
    var u, c := SetCache(st, k, c').(slabs := st.slabs[p := s']), st.caches[k];
    assert CacheOk(st, k);
    Rearranged(All(c), All(c'));
    assert CacheOk(u, k) by {
      forall q | q in All(c')
        ensures q in u.slabs && u.slabs[q].kind == k
      {
        assert q in All(c);
      }
    }
    assert SlabOk(st, p);
    forall q | q in u.slabs
      ensures SlabKept(st, u, q) || SlabOk(u, q)
    {
      if q != p {
        assert SlabOk(st, q);
        if st.slabs[q].kind == k {
          assert q in All(c');
        }
      }
    }
    ExtendsInv(st, u);
  }

  lemma PromoteKeeps(st: State, k: nat)
    requires Inv(st) && k in st.caches && st.caches[k].empty != []
    ensures Inv(Promote(st, k)) && Promote(st, k).caches[k].partial != []
  {
    var c := st.caches[k];
    var p := c.empty[0];
    var c' := c.(empty := c.empty[1..], partial := [p] + c.partial);
    assert CacheOk(st, k);
    assert p in All(c);
    assert SlabOk(st, p);
    OneList(c, p);
    PageFits(0, c.objSize);
    assert c.empty == [p] + c.empty[1..];
    MoveKeeps(st, k, c', p, st.slabs[p]);
    assert st.slabs[p := st.slabs[p]] == st.slabs;
  }

  lemma FreeAfterTake(s: Slab, num: nat)
    requires FreeOk(s, num) && s.free != []
    ensures FreeOk(s.(free := s.free[1..], live := s.live + {s.free[0]}), num)
    ensures s.free[0] < num && s.free[0] !in s.live
  {
    var i, rest := s.free[0], s.free[1..];
    assert s.free == [i] + rest;
    assert i !in rest;
  }

  lemma FreeAfterGive(s: Slab, num: nat, i: nat)
    requires FreeOk(s, num) && i in s.live
    ensures FreeOk(s.(free := [i] + s.free, live := s.live - {i}), num)
    ensures |s.live - {i}| == |s.live| - 1
  {
  }

  lemma TakeKeeps(st: State, k: nat)
    requires Inv(st) && k in st.caches && st.caches[k].partial != []
    ensures st.caches[k].partial[0] in st.slabs && st.slabs[st.caches[k].partial[0]].free != []
    ensures Inv(Take(st, k))
  {
    var c := st.caches[k];
    var p := c.partial[0];
    assert CacheOk(st, k);
    assert p in All(c);
    assert SlabOk(st, p);
    var s := st.slabs[p];
    FreeAfterTake(s, c.num);
    var s' := s.(free := s.free[1..], live := s.live + {s.free[0]});
    OneList(c, p);
    assert c.partial == [p] + c.partial[1..];
    if |s'.live| == c.num {
      MoveKeeps(st, k, c.(partial := c.partial[1..], full := [p] + c.full), p, s');
    } else {
      MoveKeeps(st, k, c, p, s');
    }
  }

  lemma {:induction false} RemoveOne(s: seq<nat>, p: nat)
    requires p in s
    ensures multiset(s) == multiset(Remove(s, p)) + multiset{p}
    ensures forall q :: q != p ==> (q in Remove(s, p) <==> q in s)
    ensures Distinct(s) ==> p !in Remove(s, p)
  {
    assert s == [s[0]] + s[1..];
    if s[0] != p {
      RemoveOne(s[1..], p);
    }
  }

  /** Moving a full slab to the partial list. */
  lemma FullToPartial(c: Cache, p: nat)
    requires Distinct(All(c)) && p in c.full
    ensures var c' := c.(full := Remove(c.full, p), partial := [p] + c.partial);
            && multiset(All(c')) == multiset(All(c))
            && p in c'.partial && p !in c'.full && p !in c'.empty
            && forall q :: q != p ==> (q in c'.full <==> q in c.full) && (q in c'.partial <==> q in c.partial)
  {
    RemoveOne(c.full, p);
    OneList(c, p);
  }

  /** Moving a partial slab to the empty list. */
  lemma PartialToEmpty(c: Cache, p: nat)
    requires Distinct(All(c)) && p in c.partial
    ensures var c' := c.(partial := Remove(c.partial, p), empty := [p] + c.empty);
            && multiset(All(c')) == multiset(All(c))
            && p in c'.empty && p !in c'.full && p !in c'.partial
            && forall q :: q != p ==> (q in c'.partial <==> q in c.partial) && (q in c'.empty <==> q in c.empty)
  {
    RemoveOne(c.partial, p);
    OneList(c, p);
  }

  lemma GiveKeeps(st: State, p: nat, i: nat)
    requires Inv(st) && p in st.slabs && i in st.slabs[p].live
    ensures st.slabs[p].kind in st.caches && Inv(Give(st, p, i))
  {
    assert SlabOk(st, p);
    var s, k := st.slabs[p], st.slabs[p].kind;
    var c := st.caches[k];
    assert CacheOk(st, k);
    FreeAfterGive(s, c.num, i);
    var s' := s.(free := [i] + s.free, live := s.live - {i});
    if |s'.live| + 1 == c.num {
      FullToPartial(c, p);
      MoveKeeps(st, k, c.(full := Remove(c.full, p), partial := [p] + c.partial), p, s');
    } else {
      OneList(c, p);
      assert p in c.partial;
      if s'.live == {} {
        PartialToEmpty(c, p);
        MoveKeeps(st, k, c.(partial := Remove(c.partial, p), empty := [p] + c.empty), p, s');
      } else {
        MoveKeeps(st, k, c, p, s');
      }
    }
  }

  /** Where a slab is after an object was given back: among the empty ones exactly when nothing is in use
      and it holds more than one object; otherwise, even if empty, among the partial ones. */
  lemma GivePlaces(st: State, p: nat, i: nat)
    requires Inv(st) && p in st.slabs && st.slabs[p].kind in st.caches && i in st.slabs[p].live
    ensures var u := Give(st, p, i);
            var c, live := u.caches[st.slabs[p].kind], u.slabs[p].live;
            && p !in c.full
            && (p in c.empty <==> live == {} && c.num > 1)
            && (p in c.partial <==> live != {} || c.num == 1)
  {
    var u, k := Give(st, p, i), st.slabs[p].kind;
    GiveKeeps(st, p, i);
    assert SlabOk(st, p) && CacheOk(st, k);
    OneList(st.caches[k], p);
    assert SlabOk(u, p) && CacheOk(u, k);
    OneList(u.caches[k], p);
    FreeAfterGive(st.slabs[p], st.caches[k].num, i);
  }


  /** The pages behind the used ones. */
  lemma LargePagesNew(st: State, m: nat, p: nat)
    requires Inv(st) && p in LargePages(st.next, m)
    ensures p !in st.owner && p % PAGE_SIZE == 0 && st.next <= p && p + PAGE_SIZE <= st.next + m * PAGE_SIZE
  {
    var j: nat :| j < m && p == st.next + j * PAGE_SIZE;
    PagesOn(st.next, j);
    forall q | q in st.owner
      ensures q < st.next
    {
      assert PageOk(st, q);
    }
  }

  lemma LargeKeeps(st: State, m: nat)
    requires Inv(st) && m > 0 && PagesAt(st, m).Some?
    ensures Inv(TakeLarge(st, m))
  {
    NextIsFree(st);
    var u := TakeLarge(st, m);
    forall p | p in LargePages(st.next, m)
      ensures p !in st.owner && PageOk(u, p) && u.owner[p] == LargePage(st.next)
    {
      LargePagesNew(st, m, p);
    }
    forall p | p in u.slabs
      ensures SlabKept(st, u, p)
    {
      assert SlabOk(st, p);
    }
    ExtendsInv(st, u);
  }
}
