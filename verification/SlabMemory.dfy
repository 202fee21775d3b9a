/** How the words and links in memory represent a state of the slab allocator. */
module SlabMemory {
  import opened Arithmetic
  import opened SlabLayout
  import opened SlabModel
  import opened Rings

  /** Ends a chain of free objects: the largest 32-bit index. */
  const END := 0xFFFF_FFFF

  /** The fields of the records in memory, by address: list nodes; slabs, at the start of their page;
      the tables of next free indices, by entry; caches. */
  datatype Memory = Memory(
    links: Links,
    sMem: map<nat, nat>,
    free: map<nat, nat>,
    inuse: map<nat, nat>,
    table: map<nat, nat>,
    objSize: map<nat, nat>,
    num: map<nat, nat>)

  // ----- lists -----

  /** The lists of a cache: 0 full, 1 partial, 2 empty. Their heads are the first fields of the record. */
  function Head(c: Cache, t: nat): nat { c.addr + 16 * t }

  function ListOf(c: Cache, t: nat): seq<nat> {
    if t == 0 then c.full else if t == 1 then c.partial else c.empty
  }

  predicate IsList(caches: map<nat, Cache>, k: nat, t: nat) { k in caches && t < 3 }

  predicate RingAt(l: Links, caches: map<nat, Cache>, k: nat, t: nat)
    requires IsList(caches, k, t)
  {
    Ring(l, Head(caches[k], t), ListOf(caches[k], t))
  }

  function NodesAt(caches: map<nat, Cache>, k: nat, t: nat): seq<nat>
    requires IsList(caches, k, t)
  {
    Nodes(Head(caches[k], t), ListOf(caches[k], t))
  }

  /** Every list of every cache is a ring in memory. */
  ghost predicate LinksOk(l: Links, caches: map<nat, Cache>) {
    forall k, t {:trigger RingAt(l, caches, k, t)} :: IsList(caches, k, t) ==> RingAt(l, caches, k, t)
  }

  // ----- slabs and caches -----

  /** The address of entry `i` of the table of the slab at `p`. */
  function Entry(p: nat, i: nat): nat { p + SLAB_SIZE + BUFCTL_SIZE * i }

  /** Following the table from index `start` visits exactly `s`, in order, and ends. */
  predicate Chain(table: map<nat, nat>, p: nat, start: nat, s: seq<nat>)
    decreases |s|
  {
    if s == [] then start == END
    else start == s[0] && Entry(p, start) in table && Chain(table, p, table[Entry(p, start)], s[1..])
  }

  predicate SlabWords(m: Memory, p: nat, s: Slab, num: nat) {
    && p in m.sMem && m.sMem[p] == FirstObject(p, num)
    && p in m.inuse && m.inuse[p] == |s.live|
    && p in m.free && Chain(m.table, p, m.free[p], s.free)
  }

  predicate SlabAt(m: Memory, st: State, p: nat)
    requires p in st.slabs
  {
    st.slabs[p].kind in st.caches && SlabWords(m, p, st.slabs[p], st.caches[st.slabs[p].kind].num)
  }

  predicate CacheWords(m: Memory, c: Cache) {
    c.addr in m.objSize && m.objSize[c.addr] == c.objSize && c.addr in m.num && m.num[c.addr] == c.num
  }

  predicate CacheAt(m: Memory, st: State, k: nat)
    requires k in st.caches
  {
    CacheWords(m, st.caches[k])
  }

  /** The array of caches by class; 0 is the null pointer. */
  predicate Directory(nodeCaches: seq<nat>, caches: map<nat, Cache>) {
    && |nodeCaches| == MAX_CLASSES
    && forall k :: 0 <= k < MAX_CLASSES ==> nodeCaches[k] == if k in caches then caches[k].addr else 0
  }

  ghost predicate WordsOk(m: Memory, st: State) {
    && (forall p {:trigger SlabAt(m, st, p)} :: p in st.slabs ==> SlabAt(m, st, p))
    && (forall k {:trigger CacheAt(m, st, k)} :: k in st.caches ==> CacheAt(m, st, k))
  }

  ghost predicate Represents(m: Memory, nodeCaches: seq<nat>, st: State) {
    LinksOk(m.links, st.caches) && WordsOk(m, st) && Directory(nodeCaches, st.caches)
  }

  // ----- different lists have no node in common -----

  lemma NodeKind(st: State, k: nat, t: nat, x: nat)
    requires Inv(st) && IsList(st.caches, k, t) && x in NodesAt(st.caches, k, t)
    ensures (x == Head(st.caches[k], t) && st.caches[k].addr % PAGE_SIZE == 0 && st.caches[k].addr in st.owner
              && st.owner[st.caches[k].addr] == Record(k))
         || (x in ListOf(st.caches[k], t) && x % PAGE_SIZE == 0 && x in st.owner && st.owner[x] == SlabPage(k))
  {
    var c := st.caches[k];
    assert CacheOk(st, k);
    if x == Head(c, t) {
      assert PageOk(st, c.addr);
    } else {
      assert x in ListOf(c, t);
      assert x in All(c);
      assert SlabOk(st, x);
      assert PageOk(st, x);
    }
  }

  /** The page of a node is in use. */
  lemma NodePage(st: State, k: nat, t: nat, x: nat)
    requires Inv(st) && IsList(st.caches, k, t) && x in NodesAt(st.caches, k, t)
    ensures x - x % PAGE_SIZE in st.owner
  {
    NodeKind(st, k, t, x);
    if x == Head(st.caches[k], t) {
      HeadPage(st.caches[k].addr, t);
    }
  }

  lemma HeadPage(a: nat, t: nat)
    ensures a % PAGE_SIZE == 0 && t < 3 ==> (a + 16 * t) - (a + 16 * t) % PAGE_SIZE == a
  {
    if a % PAGE_SIZE == 0 && t < 3 {
      PageRest(a, a + 16 * t);
    }
  }

  lemma NodesApart(st: State, k: nat, t: nat, j: nat, u: nat, x: nat)
    requires Inv(st) && IsList(st.caches, k, t) && IsList(st.caches, j, u)
    requires x in NodesAt(st.caches, k, t) && x in NodesAt(st.caches, j, u)
    ensures k == j && t == u
  {
    NodeKind(st, k, t, x);
    NodeKind(st, j, u, x);
    HeadPage(st.caches[k].addr, t);
    HeadPage(st.caches[j].addr, u);
    if k == j {
      assert CacheOk(st, k);
      OneList(st.caches[k], x);
    }
  }

  // ----- moving a node from one list to another -----

  /** `c'` is `c` with the page moved from list `t` to the front of list `u`. */
  predicate Moved(c: Cache, c': Cache, t: nat, u: nat, p: nat) {
    && c'.addr == c.addr && t < 3 && u < 3 && t != u && p in ListOf(c, t)
    && ListOf(c', t) == Remove(ListOf(c, t), p) && ListOf(c', u) == [p] + ListOf(c, u)
    && forall w :: 0 <= w < 3 && w != t && w != u ==> ListOf(c', w) == ListOf(c, w)
  }

  lemma MoveSelf(l: Links, st: State, k: nat, t: nat, u: nat, p: nat)
    requires Inv(st) && LinksOk(l, st.caches) && k in st.caches && t < 3 && u < 3 && t != u
    requires p in ListOf(st.caches[k], t)
    ensures var c := st.caches[k];
            && p in l.next && p in l.prev && Head(c, u) in Del(l, p).next
            && var l' := Add(Del(l, p), p, Head(c, u));
               Ring(l', Head(c, t), Remove(ListOf(c, t), p)) && Ring(l', Head(c, u), [p] + ListOf(c, u))
  {
    var c := st.caches[k];
    assert RingAt(l, st.caches, k, t) && RingAt(l, st.caches, k, u);
    DelRing(l, p, Head(c, t), ListOf(c, t));
    var d := Del(l, p);
    forall x | x in NodesAt(st.caches, k, u)
      ensures SameAt(l, d, x) && x != p
    {
      if x in NodesAt(st.caches, k, t) {
        NodesApart(st, k, t, k, u, x);
      }
      DelElsewhere(l, p, Head(c, t), ListOf(c, t), x);
      assert p in NodesAt(st.caches, k, t);
    }
    RingFrame(l, d, Head(c, u), ListOf(c, u));
    AddRing(d, p, Head(c, u), ListOf(c, u));
    AddedApart(d, st, k, t, u, p);
  }

  /** The list the node was taken from is not touched by adding it to the other. */
  lemma AddedApart(d: Links, st: State, k: nat, t: nat, u: nat, p: nat)
    requires Inv(st) && IsList(st.caches, k, t) && IsList(st.caches, k, u) && t != u && p in ListOf(st.caches[k], t)
    requires Ring(d, Head(st.caches[k], t), Remove(ListOf(st.caches[k], t), p))
    requires p !in Nodes(Head(st.caches[k], t), Remove(ListOf(st.caches[k], t), p))
    requires RingAt(d, st.caches, k, u) && Head(st.caches[k], u) in d.next
    ensures Ring(Add(d, p, Head(st.caches[k], u)), Head(st.caches[k], t), Remove(ListOf(st.caches[k], t), p))
  {
    var c := st.caches[k];
    var d', rest := Add(d, p, Head(c, u)), Remove(ListOf(c, t), p);
    var a, b := RemoveSplit(ListOf(c, t), p);
    forall x | x in Nodes(Head(c, t), rest)
      ensures SameAt(d, d', x)
    {
      assert x in NodesAt(st.caches, k, t);
      if x in NodesAt(st.caches, k, u) {
        NodesApart(st, k, t, k, u, x);
      }
      AddElsewhere(d, p, Head(c, u), ListOf(c, u), x);
    }
    RingFrame(d, d', Head(c, t), rest);
  }

  lemma MoveOther(l: Links, st: State, k: nat, t: nat, u: nat, p: nat, j: nat, w: nat)
    requires Inv(st) && LinksOk(l, st.caches) && k in st.caches && t < 3 && u < 3 && t != u
    requires p in ListOf(st.caches[k], t)
    requires IsList(st.caches, j, w) && (j != k || (w != t && w != u))
    requires p in l.next && p in l.prev && Head(st.caches[k], u) in Del(l, p).next
    ensures RingAt(Add(Del(l, p), p, Head(st.caches[k], u)), st.caches, j, w)
  {
    var c, d := st.caches[k], Del(l, p);
    assert RingAt(l, st.caches, k, t) && RingAt(l, st.caches, k, u) && RingAt(l, st.caches, j, w);
    assert p in NodesAt(st.caches, k, t);
    assert RingAt(d, st.caches, k, u) by {
      forall x | x in NodesAt(st.caches, k, u)
        ensures SameAt(l, d, x)
      {
        OffList(st, k, u, k, t, x);
        DelElsewhere(l, p, Head(c, t), ListOf(c, t), x);
      }
      RingFrame(l, d, Head(c, u), ListOf(c, u));
    }
    var l' := Add(d, p, Head(c, u));
    forall x | x in NodesAt(st.caches, j, w)
      ensures SameAt(l, l', x)
    {
      OffList(st, j, w, k, t, x);
      OffList(st, j, w, k, u, x);
      DelElsewhere(l, p, Head(c, t), ListOf(c, t), x);
      AddElsewhere(d, p, Head(c, u), ListOf(c, u), x);
    }
    RingFrame(l, l', Head(st.caches[j], w), ListOf(st.caches[j], w));
  }

  lemma OffList(st: State, k: nat, t: nat, j: nat, u: nat, x: nat)
    requires Inv(st) && IsList(st.caches, k, t) && IsList(st.caches, j, u) && (k != j || t != u)
    requires x in NodesAt(st.caches, k, t)
    ensures x !in NodesAt(st.caches, j, u)
  {
    if x in NodesAt(st.caches, j, u) {
      NodesApart(st, k, t, j, u, x);
    }
  }

  /** Deleting a node and adding it to another list keeps all lists right. */
  lemma MoveLinks(l: Links, st: State, k: nat, c': Cache, t: nat, u: nat, p: nat)
    requires Inv(st) && LinksOk(l, st.caches) && k in st.caches && Moved(st.caches[k], c', t, u, p)
    ensures p in l.next && p in l.prev && Head(c', u) in Del(l, p).next
    ensures LinksOk(Add(Del(l, p), p, Head(c', u)), st.caches[k := c'])
  {
    MoveSelf(l, st, k, t, u, p);
    var l', caches := Add(Del(l, p), p, Head(c', u)), st.caches[k := c'];
    forall j, w | IsList(caches, j, w)
      ensures RingAt(l', caches, j, w)
    {
      if j != k || (w != t && w != u) {
        MoveOther(l, st, k, t, u, p, j, w);
      }
    }
  }

  // ----- new nodes -----

  /** `x` is a node of no list. */
  ghost predicate NewNode(caches: map<nat, Cache>, x: nat) {
    forall k, t {:trigger NodesAt(caches, k, t)} :: IsList(caches, k, t) ==> x !in NodesAt(caches, k, t)
  }

  lemma FreshNode(st: State, page: nat, x: nat)
    requires Inv(st) && page !in st.owner && page % PAGE_SIZE == 0 && page <= x < page + PAGE_SIZE
    ensures NewNode(st.caches, x)
  {
    PageRest(page, x);
    forall k, t | IsList(st.caches, k, t)
      ensures x !in NodesAt(st.caches, k, t)
    {
      if x in NodesAt(st.caches, k, t) {
        NodePage(st, k, t, x);
      }
    }
  }

  lemma LinksFrame(l: Links, l': Links, caches: map<nat, Cache>, x: nat)
    requires LinksOk(l, caches) && NewNode(caches, x) && forall y :: y != x ==> SameAt(l, l', y)
    ensures LinksOk(l', caches)
  {
    forall k, t | IsList(caches, k, t)
      ensures RingAt(l', caches, k, t)
    {
      assert RingAt(l, caches, k, t);
      assert x !in NodesAt(caches, k, t);
      RingFrame(l, l', Head(caches[k], t), ListOf(caches[k], t));
    }
  }

  /** A new slab page goes to the front of a list. */
  lemma AddLinks(l: Links, st: State, k: nat, p: nat)
    requires Inv(st) && LinksOk(l, st.caches) && k in st.caches && NewNode(st.caches, p)
    ensures var c := st.caches[k];
            && Head(c, 2) in l.next
            && LinksOk(Add(l, p, Head(c, 2)), st.caches[k := c.(empty := [p] + c.empty)])
  {
    var c := st.caches[k];
    assert RingAt(l, st.caches, k, 2);
    assert p !in NodesAt(st.caches, k, 2);
    AddRing(l, p, Head(c, 2), c.empty);
    var l', caches := Add(l, p, Head(c, 2)), st.caches[k := c.(empty := [p] + c.empty)];
    forall j, w | IsList(caches, j, w)
      ensures RingAt(l', caches, j, w)
    {
      if j != k || w != 2 {
        assert RingAt(l, st.caches, j, w);
        assert p !in NodesAt(st.caches, j, w);
        forall x | x in NodesAt(st.caches, j, w)
          ensures SameAt(l, l', x)
        {
          OffList(st, j, w, k, 2, x);
          AddElsewhere(l, p, Head(c, 2), c.empty, x);
        }
        RingFrame(l, l', Head(st.caches[j], w), ListOf(st.caches[j], w));
      }
    }
  }

  /** The three lists of a new cache. */
  function NewLists(l: Links, a: nat): Links { Alone(Alone(Alone(l, a), a + 16), a + 32) }

  lemma NewListsKeep(l: Links, st: State, a: nat)
    requires Inv(st) && LinksOk(l, st.caches) && a !in st.owner && a % PAGE_SIZE == 0
    ensures LinksOk(NewLists(l, a), st.caches)
  {
    var l1 := Alone(l, a);
    var l2 := Alone(l1, a + 16);
    FreshNode(st, a, a);
    LinksFrame(l, l1, st.caches, a);
    FreshNode(st, a, a + 16);
    LinksFrame(l1, l2, st.caches, a + 16);
    FreshNode(st, a, a + 32);
    LinksFrame(l2, Alone(l2, a + 32), st.caches, a + 32);
  }

  lemma NewListsRings(l: Links, c: Cache, t: nat)
    requires t < 3
    ensures Ring(NewLists(l, c.addr), Head(c, t), [])
  {
    assert Nodes(Head(c, t), []) == [Head(c, t)];
  }

  lemma OpenLinks(l: Links, st: State, k: nat, c: Cache)
    requires Inv(st) && LinksOk(l, st.caches) && k !in st.caches
    requires c.addr !in st.owner && c.addr % PAGE_SIZE == 0 && c.full == c.partial == c.empty == []
    ensures LinksOk(NewLists(l, c.addr), st.caches[k := c])
  {
    var l', caches := NewLists(l, c.addr), st.caches[k := c];
    NewListsKeep(l, st, c.addr);
    forall j, w | IsList(caches, j, w)
      ensures RingAt(l', caches, j, w)
    {
      if j != k {
        assert RingAt(l', st.caches, j, w);
      } else {
        NewListsRings(l, c, w);
      }
    }
  }

  // ----- tables -----

  lemma {:induction false} ChainFrame(t: map<nat, nat>, t': map<nat, nat>, p: nat, start: nat, s: seq<nat>)
    requires Chain(t, p, start, s)
    requires forall i :: i in s ==> Entry(p, i) in t ==> Entry(p, i) in t' && t'[Entry(p, i)] == t[Entry(p, i)]
    ensures Chain(t', p, start, s)
    decreases |s|
  {
    if s != [] {
      assert s[0] in s;
      ChainFrame(t, t', p, t[Entry(p, start)], s[1..]);
    }
  }

  /** Giving an object back puts it first. */
  lemma ChainGive(t: map<nat, nat>, p: nat, start: nat, s: seq<nat>, i: nat)
    requires Chain(t, p, start, s) && i !in s
    ensures Chain(t[Entry(p, i) := start], p, i, [i] + s)
  {
    var t' := t[Entry(p, i) := start];
    ChainFrame(t, t', p, start, s);
    assert ([i] + s)[1..] == s;
  }

  // ----- words of other slabs -----

  predicate SameWord(a: map<nat, nat>, b: map<nat, nat>, x: nat) {
    x in a ==> x in b && b[x] == a[x]
  }

  /** From `m` to `m'`, no slab and table words outside the page `p` changed. */
  ghost predicate OnlyPage(m: Memory, m': Memory, p: nat) {
    && (forall q {:trigger SameWord(m.sMem, m'.sMem, q)} :: q != p ==> SameWord(m.sMem, m'.sMem, q))
    && (forall q {:trigger SameWord(m.free, m'.free, q)} :: q != p ==> SameWord(m.free, m'.free, q))
    && (forall q {:trigger SameWord(m.inuse, m'.inuse, q)} :: q != p ==> SameWord(m.inuse, m'.inuse, q))
    && TableKept(m.table, m'.table, p)
  }

  /** No table word outside the page `p` changed. */
  ghost predicate TableKept(t: map<nat, nat>, t': map<nat, nat>, p: nat) {
    forall x: nat {:trigger SameWord(t, t', x)} :: !(p <= x < p + PAGE_SIZE) ==> SameWord(t, t', x)
  }

  /** The table of a slab lies in its page. */
  lemma EntryInPage(p: nat, o: nat, i: nat)
    requires p % PAGE_SIZE == 0 && IsObjectSize(o) && i < ObjectsPerSlab(o)
    ensures p <= Entry(p, i) < p + PAGE_SIZE
  {
    PageFits(p, o);
  }

  lemma OtherSlab(m: Memory, m': Memory, p: nat, q: nat, s: Slab, o: nat)
    requires p % PAGE_SIZE == 0 && q % PAGE_SIZE == 0 && p != q && OnlyPage(m, m', p)
    requires IsObjectSize(o) && FreeOk(s, ObjectsPerSlab(o)) && SlabWords(m, q, s, ObjectsPerSlab(o))
    ensures SlabWords(m', q, s, ObjectsPerSlab(o))
  {
    assert SameWord(m.sMem, m'.sMem, q) && SameWord(m.free, m'.free, q) && SameWord(m.inuse, m'.inuse, q);
    forall i | i in s.free
      ensures SameWord(m.table, m'.table, Entry(q, i))
    {
      EntryInPage(q, o, i);
    }
    ChainFrame(m.table, m'.table, q, m.free[q], s.free);
  }

  /** Slabs other than `p` are still represented when only the page `p` changed. */
  lemma OtherSlabAt(m: Memory, m': Memory, st: State, u: State, p: nat, q: nat)
    requires Inv(st) && WordsOk(m, st) && OnlyPage(m, m', p) && p % PAGE_SIZE == 0 && Extends(st, u)
    requires q in st.slabs && q != p && q in u.slabs && u.slabs[q] == st.slabs[q]
    ensures SlabAt(m', u, q)
  {
    assert SlabAt(m, st, q) && SlabOk(st, q) && PageOk(st, q);
    var k := st.slabs[q].kind;
    assert CacheOk(st, k);
    assert k in u.caches;
    OtherSlab(m, m', p, q, st.slabs[q], st.caches[k].objSize);
  }

  /** A cache whose record kept its sizes is still represented. */
  lemma OtherCacheAt(m: Memory, m': Memory, st: State, u: State, j: nat)
    requires WordsOk(m, st) && j in st.caches && j in u.caches && SameShape(u.caches[j], st.caches[j])
    requires SameWord(m.objSize, m'.objSize, st.caches[j].addr) && SameWord(m.num, m'.num, st.caches[j].addr)
    ensures CacheAt(m', u, j)
  {
    assert CacheAt(m, st, j);
  }

  /** One slab changed, and the lists of its cache. */
  lemma WordsMove(m: Memory, m': Memory, st: State, k: nat, c': Cache, p: nat, s': Slab)
    requires Inv(st) && WordsOk(m, st) && k in st.caches && p in st.slabs && st.slabs[p].kind == k == s'.kind
    requires SameShape(c', st.caches[k]) && OnlyPage(m, m', p) && m'.objSize == m.objSize && m'.num == m.num
    requires SlabWords(m', p, s', c'.num)
    ensures WordsOk(m', SetCache(st, k, c').(slabs := st.slabs[p := s']))
  {
    var u := SetCache(st, k, c').(slabs := st.slabs[p := s']);
    assert SlabOk(st, p) && PageOk(st, p);
    forall q | q in u.slabs
      ensures SlabAt(m', u, q)
    {
      if q != p {
        OtherSlabAt(m, m', st, u, p, q);
      }
    }
    forall j | j in u.caches
      ensures CacheAt(m', u, j)
    {
      OtherCacheAt(m, m', st, u, j);
    }
  }

  /** A new cache record. */
  lemma WordsOpen(m: Memory, m': Memory, st: State, size: nat)
    requires Inv(st) && WordsOk(m, st) && 0 < size && ClassOf(size) !in st.caches && OpenCache(st, size).Some?
    requires var o := ObjectSize(size);
             m' == m.(links := m'.links, objSize := m.objSize[st.next := o], num := m.num[st.next := ObjectsPerSlab(o)])
    ensures WordsOk(m', OpenCache(st, size).value)
  {
    var u, k := OpenCache(st, size).value, ClassOf(size);
    NextIsFree(st);
    forall q | q in u.slabs
      ensures SlabAt(m', u, q)
    {
      assert SlabAt(m, st, q);
    }
    forall j | j in u.caches
      ensures CacheAt(m', u, j)
    {
      if j != k {
        assert CacheOk(st, j);
        OtherCacheAt(m, m', st, u, j);
      }
    }
  }

  /** A new slab. */
  lemma WordsGrow(m: Memory, m': Memory, st: State, k: nat)
    requires Inv(st) && WordsOk(m, st) && k in st.caches && Grow(st, k).Some?
    requires OnlyPage(m, m', st.next) && m'.objSize == m.objSize && m'.num == m.num
    requires SlabWords(m', st.next, Slab(k, Count(st.caches[k].num), {}), st.caches[k].num)
    ensures WordsOk(m', Grow(st, k).value)
  {
    var u := Grow(st, k).value;
    NextIsFree(st);
    forall q | q in u.slabs
      ensures SlabAt(m', u, q)
    {
      if q != st.next {
        OtherSlabAt(m, m', st, u, st.next, q);
      }
    }
    forall j | j in u.caches
      ensures CacheAt(m', u, j)
    {
      OtherCacheAt(m, m', st, u, j);
    }
  }

  /** The table a new slab gets: each object leads to the next, the last one ends. */
  predicate FilledTo(t: map<nat, nat>, p: nat, num: nat, n: nat) {
    forall i :: 0 <= i < n ==> Entry(p, i) in t && t[Entry(p, i)] == if i + 1 == num then END else i + 1
  }

  lemma {:induction false} FilledChain(t: map<nat, nat>, p: nat, num: nat, i: nat)
    requires FilledTo(t, p, num, num) && i < num
    ensures Chain(t, p, i, Count(num)[i..])
    decreases num - i
  {
    var s := Count(num)[i..];
    assert s[0] == i && s[1..] == Count(num)[i + 1..];
    assert Entry(p, i) in t;
    if i + 1 < num {
      FilledChain(t, p, num, i + 1);
    }
  }

  // ----- what a represented state looks like in memory -----

  /** The index reached by following the table `n` times, as long as it leads somewhere. */
  function Follow(t: map<nat, nat>, p: nat, start: nat, n: nat): nat
    decreases n
  {
    if n == 0 || Entry(p, start) !in t then start else Follow(t, p, t[Entry(p, start)], n - 1)
  }

  lemma {:induction false} FollowChain(t: map<nat, nat>, p: nat, start: nat, s: seq<nat>, n: nat)
    requires Chain(t, p, start, s) && n <= |s|
    ensures Follow(t, p, start, n) == if n < |s| then s[n] else END
    decreases |s|
  {
    if n > 0 {
      FollowChain(t, p, t[Entry(p, start)], s[1..], n - 1);
    }
  }

  /** Following the table from `start` visits each index of `visited` exactly once, in `n` steps, and ends. */
  ghost predicate VisitsExactly(t: map<nat, nat>, p: nat, start: nat, n: nat, visited: set<nat>) {
    && Follow(t, p, start, n) == END
    && (forall i :: i in visited ==> exists j: nat :: j < n && Follow(t, p, start, j) == i)
    && (forall j: nat :: j < n ==> Follow(t, p, start, j) in visited)
    && (forall i: nat, j: nat :: i < j < n ==> Follow(t, p, start, i) != Follow(t, p, start, j))
  }

  lemma ChainVisits(t: map<nat, nat>, p: nat, start: nat, s: seq<nat>, visited: set<nat>)
    requires Chain(t, p, start, s) && Distinct(s) && forall i :: i in visited <==> i in s
    ensures VisitsExactly(t, p, start, |s|, visited)
  {
    forall n: nat | n < |s|
      ensures Follow(t, p, start, n) == s[n]
    {
      FollowChain(t, p, start, s, n);
    }
    FollowChain(t, p, start, s, |s|);
    forall i | i in s
      ensures exists j: nat :: j < |s| && Follow(t, p, start, j) == i
    {
      var j :| 0 <= j < |s| && s[j] == i;
      assert Follow(t, p, start, j) == i;
    }
  }

  function NotInUse(s: Slab, num: nat): set<nat> { set i: nat | i < num && i !in s.live }

  /** The chain of a slab visits every object that is not in use exactly once and no other, and then ends. */
  lemma FreeChain(m: Memory, st: State, p: nat)
    requires Inv(st) && WordsOk(m, st) && p in st.slabs && st.slabs[p].kind in st.caches
    ensures var num := st.caches[st.slabs[p].kind].num;
            && p in m.inuse && p in m.free && m.inuse[p] <= num
            && VisitsExactly(m.table, p, m.free[p], num - m.inuse[p], NotInUse(st.slabs[p], num))
  {
    assert SlabAt(m, st, p) && SlabOk(st, p);
    var s := st.slabs[p];
    var num := st.caches[s.kind].num;
    assert FreeOk(s, num);
    ChainVisits(m.table, p, m.free[p], s.free, NotInUse(s, num));
  }

  /** The slab is a node of list `t` of its cache and of no other list, and the list says how full it is. */
  ghost predicate OnlyOn(m: Memory, st: State, p: nat, t: nat)
    requires p in st.slabs && st.slabs[p].kind in st.caches
  {
    var k := st.slabs[p].kind;
    && IsList(st.caches, k, t) && p in NodesAt(st.caches, k, t) && p in m.inuse
    && (forall j, u {:trigger NodesAt(st.caches, j, u)} ::
          IsList(st.caches, j, u) && p in NodesAt(st.caches, j, u) ==> j == k && u == t)
    && (t == 0 <==> m.inuse[p] == st.caches[k].num)
    && (t == 2 ==> m.inuse[p] == 0)
  }

  /** Every slab is a node of exactly one list of its cache, the one that says how full it is, and the
      links of that list are inverse to each other. */
  lemma SlabOnOneList(m: Memory, st: State, p: nat)
    requires Inv(st) && LinksOk(m.links, st.caches) && WordsOk(m, st) && p in st.slabs && st.slabs[p].kind in st.caches
    ensures exists t: nat :: OnlyOn(m, st, p, t)
    ensures p in m.links.next && m.links.next[p] in m.links.prev && m.links.prev[m.links.next[p]] == p
    ensures p in m.links.prev && m.links.prev[p] in m.links.next && m.links.next[m.links.prev[p]] == p
  {
    var k := st.slabs[p].kind;
    var c := st.caches[k];
    assert SlabAt(m, st, p) && SlabOk(st, p) && CacheOk(st, k);
    OneList(c, p);
    var t := if p in c.full then 0 else if p in c.partial then 1 else 2;
    assert p in NodesAt(st.caches, k, t);
    forall j, u | IsList(st.caches, j, u) && p in NodesAt(st.caches, j, u)
      ensures j == k && u == t
    {
      NodesApart(st, k, t, j, u, p);
    }
    assert OnlyOn(m, st, p, t);
    assert RingAt(m.links, st.caches, k, t);
    RingInverse(m.links, Head(c, t), ListOf(c, t), p);
  }
}
