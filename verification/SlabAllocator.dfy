/** The slab allocator in memory: every operation does to the words and links what the state machine does. */
module SlabAllocator {
  import opened Bytes
  import opened SlabLayout
  import opened SlabModel
  import opened SlabRuns
  import opened Rings
  import opened SlabMemory

  class Allocator {
    var mem: Memory
    var nodeCaches: seq<nat>
    var pageNext: nat
    var pageEnd: nat
    /** The state the memory represents. */
    ghost var st: State

    ghost predicate Valid()
      reads this
    {
      Inv(st) && pageNext == st.next && pageEnd == st.end && Represents(mem, nodeCaches, st)
    }

    /** `init`. */
    constructor (start: nat, size: nat)
      requires start % PAGE_SIZE == 0 && start > 0
      ensures Valid() && st == Fresh(start, start + size)
    {
      mem := Memory(Links(map[], map[]), map[], map[], map[], map[], map[], map[]);
      nodeCaches := seq(MAX_CLASSES, _ => 0);
      pageNext := start;
      pageEnd := start + size;
      st := Fresh(start, start + size);
    }

    /** `alloc_pages`. */
    method AllocPages(m: nat) returns (r: Option<nat>)
      modifies `pageNext
      ensures r == if old(pageNext) + m * PAGE_SIZE > pageEnd then None else Some(old(pageNext))
      ensures pageNext == old(pageNext) + if r.Some? then m * PAGE_SIZE else 0
    {
      var bytes := m * PAGE_SIZE;
      if pageNext + bytes > pageEnd {
        return None;
      }
      r := Some(pageNext);
      pageNext := pageNext + bytes;
    }

    /** `ListNode::init`. */
    method ListInit(node: nat)
      modifies `mem
      ensures mem == old(mem).(links := Alone(old(mem).links, node))
    {
      mem := mem.(links := mem.links.(next := mem.links.next[node := node]));
      mem := mem.(links := mem.links.(prev := mem.links.prev[node := node]));
    }

    /** `list_add`. */
    method ListAdd(entry: nat, head: nat)
      requires head in mem.links.next
      modifies `mem
      ensures mem == old(mem).(links := Add(old(mem).links, entry, head))
    {
      mem := mem.(links := mem.links.(next := mem.links.next[entry := mem.links.next[head]]));
      mem := mem.(links := mem.links.(prev := mem.links.prev[entry := head]));
      mem := mem.(links := mem.links.(prev := mem.links.prev[mem.links.next[head] := entry]));
      mem := mem.(links := mem.links.(next := mem.links.next[head := entry]));
    }

    /** `list_del`. */
    method ListDel(entry: nat)
      requires entry in mem.links.next && entry in mem.links.prev
      modifies `mem
      ensures mem == old(mem).(links := Del(old(mem).links, entry))
    {
      mem := mem.(links := mem.links.(next := mem.links.next[mem.links.prev[entry] := mem.links.next[entry]]));
      mem := mem.(links := mem.links.(prev := mem.links.prev[mem.links.next[entry] := mem.links.prev[entry]]));
    }

    /** `list_empty`: whether that list of the cache is empty. */
    method ListEmpty(ghost k: nat, ghost t: nat, head: nat) returns (empty: bool)
      requires Valid() && IsList(st.caches, k, t) && head == Head(st.caches[k], t)
      ensures empty <==> ListOf(st.caches[k], t) == []
    {
      assert RingAt(mem.links, st.caches, k, t);
      PathFirst(mem.links, head, ListOf(st.caches[k], t), head);
      HeadOutside(head, ListOf(st.caches[k], t));
      empty := mem.links.next[head] == head;
    }

    /** `get_or_create_cache`; `None` stands for running out of memory, where the code stops. */
    method GetOrCreateCache(size: nat) returns (r: Option<nat>)
      requires Valid() && 0 < size <= MAX_SLAB_SIZE
      modifies this
      ensures Valid() && (r.None? <==> OpenCache(old(st), size).None?)
      ensures r.None? ==> st == old(st)
      ensures r.Some? ==> Some(st) == OpenCache(old(st), size) && ClassOf(size) in st.caches
      ensures r.Some? ==> r.value == st.caches[ClassOf(size)].addr
    {
      var idx := ClassOf(size);
      ClassInRange(size);
      CacheAddress(st, idx);
      if nodeCaches[idx] == 0 {
        var page := AllocPages(1);
        if page.None? {
          return None;
        }
        var a := page.value;
        var o := ObjectSize(size);
        ghost var m := mem;
        mem := mem.(objSize := mem.objSize[a := o], num := mem.num[a := ObjectsPerSlab(o)]);
        ListInit(a);
        ListInit(a + 16);
        ListInit(a + 32);
        nodeCaches := nodeCaches[idx := a];
        OpenRepresents(m, mem, st, size);
        OpenCacheKeeps(st, size);
        st := OpenCache(st, size).value;
      }
      r := Some(nodeCaches[idx]);
    }

    /** `cache_grow`; false stands for running out of memory, where the code stops. */
    method CacheGrow(cache: nat, ghost k: nat) returns (ok: bool)
      requires Valid() && k in st.caches && cache == st.caches[k].addr
      modifies this
      ensures Valid() && (ok <==> Grow(old(st), k).Some?)
      ensures if ok then Some(st) == Grow(old(st), k) else st == old(st)
    {
      ghost var m := mem;
      CacheRead(mem, st, k);
      var page := AllocPages(1);
      if page.None? {
        return false;
      }
      var a := page.value;
      var n := mem.num[cache];
      mem := mem.(sMem := mem.sMem[a := FirstObject(a, n)], free := mem.free[a := 0], inuse := mem.inuse[a := 0]);
      FillTable(a, n, st.caches[k].objSize);
      GrowRepresents(m, mem, st, k);
      ListAdd(a, cache + 32);
      GrowKeeps(st, k);
      st := Grow(st, k).value;
      ok := true;
    }

    /** The loop of `cache_grow`: each object leads to the next one, the last one ends the chain. */
    method FillTable(a: nat, n: nat, ghost o: nat)
      requires a % PAGE_SIZE == 0 && IsObjectSize(o) && n == ObjectsPerSlab(o)
      modifies `mem
      ensures mem == old(mem).(table := mem.table) && FilledTo(mem.table, a, n, n)
      ensures TableKept(old(mem).table, mem.table, a)
    {
      for i := 0 to n
        invariant mem == old(mem).(table := mem.table) && FilledTo(mem.table, a, n, i)
        invariant TableKept(old(mem).table, mem.table, a)
      {
        EntryInPage(a, o, i);
        ghost var before := mem.table;
        mem := mem.(table := mem.table[Entry(a, i) := if i + 1 == n then END else i + 1]);
        forall x: nat | !(a <= x < a + PAGE_SIZE)
          ensures SameWord(old(mem).table, mem.table, x)
        {
          assert SameWord(old(mem).table, before, x);
        }
      }
    }

    /** The slab that `alloc` takes an object from: the first partial one, after making one if there is none. */
    method FindSlab(cache: nat, ghost k: nat) returns (r: Option<nat>)
      requires Valid() && k in st.caches && cache == st.caches[k].addr
      modifies this
      ensures Valid() && (r.None? <==> Ready(old(st), k).None?)
      ensures r.Some? ==> Some(st) == Ready(old(st), k) && k in st.caches && st.caches[k].addr == cache
      ensures r.Some? ==> st.caches[k].partial != [] && r.value == st.caches[k].partial[0]
    {
      var none := ListEmpty(k, 1, cache + 16);
      if none {
        var noSpare := ListEmpty(k, 2, cache + 32);
        if noSpare {
          var ok := CacheGrow(cache, k);
          if !ok {
            return None;
          }
        }
        PromoteFirst(cache, k);
      }
      FirstOf(mem.links, st, k, 1);
      r := Some(mem.links.next[cache + 16]);
    }

    /** Moves the first empty slab to the partial list. */
    method PromoteFirst(cache: nat, ghost k: nat)
      requires Valid() && k in st.caches && cache == st.caches[k].addr && st.caches[k].empty != []
      modifies this
      ensures Valid() && st == Promote(old(st), k)
    {
      FirstOf(mem.links, st, k, 2);
      var node := mem.links.next[cache + 32];
      PromoteRepresents(mem, st, k);
      ListDel(node);
      ListAdd(node, cache + 16);
      PromoteKeeps(st, k);
      st := Promote(st, k);
    }

    /** Takes a slab off its list and puts it first on another. */
    method MoveSlab(slab: nat, head: nat, ghost u: State)
      requires MovedTo(mem.links, slab, head, u)
      modifies `mem
      ensures mem == old(mem).(links := mem.links) && LinksOk(mem.links, u.caches)
    {
      ListDel(slab);
      ListAdd(slab, head);
    }

    /** The rest of `alloc`: hands out the first free object of the slab. */
    method TakeObject(slab: nat, cache: nat, ghost k: nat) returns (obj: nat)
      requires Valid() && k in st.caches && cache == st.caches[k].addr && st.caches[k].partial != []
      requires slab == st.caches[k].partial[0]
      modifies this
      ensures Valid() && Taken(old(st), st, k, slab, obj)
    {
      TakeKeeps(st, k);
      TakeRepresents(mem, st, k);
      ghost var taken := TakenWords(mem, slab);
      var idx := mem.free[slab];
      obj := mem.sMem[slab] + idx * mem.objSize[cache];
      mem := mem.(free := mem.free[slab := mem.table[Entry(slab, idx)]]);
      mem := mem.(inuse := mem.inuse[slab := mem.inuse[slab] + 1]);
      if mem.inuse[slab] == mem.num[cache] {
        MoveSlab(slab, cache, Take(st, k));
      }
      WordsFrame(taken, mem, Take(st, k), Take(st, k));
      st := Take(st, k);
    }

    /** `alloc`; `None` stands for running out of memory for a cache or a slab, where the code stops. */
    method Alloc(size: nat) returns (r: Option<nat>)
      requires Valid() && size > 0
      modifies this
      ensures Valid() && (r.None? <==> SlabRuns.Alloc(old(st), size).Stopped?)
      ensures r.Some? ==> SlabRuns.Alloc(old(st), size) == Done(st, r.value)
    {
      if size > MAX_SLAB_SIZE {
        var pages := (size + PAGE_SIZE - 1) / PAGE_SIZE;
        r := AllocPages(pages);
        if r.Some? {
          LargeKeeps(st, pages);
          WordsFrame(mem, mem, st, TakeLarge(st, pages));
          st := TakeLarge(st, pages);
        } else {
          r := Some(0);
        }
        return;
      }
      ghost var k := ClassOf(size);
      var cache := GetOrCreateCache(size);
      if cache.None? {
        return None;
      }
      var slab := FindSlab(cache.value, k);
      if slab.None? {
        return None;
      }
      var obj := TakeObject(slab.value, cache.value, k);
      r := Some(obj);
    }

    /** `dealloc`. */
    method Dealloc(ptr: nat, size: nat)
      requires Valid() && size > 0
      requires size > MAX_SLAB_SIZE || ptr == 0 || exists p, i :: IsLive(st, ptr, size, p, i)
      modifies this
      ensures Valid() && st == SlabRuns.Dealloc(old(st), ptr, size)
    {
      if size > MAX_SLAB_SIZE || ptr == 0 {
        return;
      }
      ghost var k := ClassOf(size);
      LivePointer(st, ptr, size);
      var cache := GetOrCreateCache(size);
      var slab := ptr - ptr % PAGE_SIZE;
      assert SlabAt(mem, st, slab) && CacheAt(mem, st, k);
      var idx := (ptr - mem.sMem[slab]) / mem.objSize[cache.value];
      GiveObject(slab, idx, cache.value, k);
    }

    /** The rest of `dealloc`: takes an object back. */
    method GiveObject(slab: nat, idx: nat, cache: nat, ghost k: nat)
      requires Valid() && k in st.caches && cache == st.caches[k].addr && slab in st.slabs && st.slabs[slab].kind == k
      requires idx in st.slabs[slab].live
      modifies this
      ensures Valid() && st == Give(old(st), slab, idx)
    {
      GiveKeeps(st, slab, idx);
      GiveRepresents(mem, st, slab, idx);
      ghost var given := GivenWords(mem, slab, idx);
      mem := mem.(table := mem.table[Entry(slab, idx) := mem.free[slab]]);
      mem := mem.(free := mem.free[slab := idx]);
      mem := mem.(inuse := mem.inuse[slab := mem.inuse[slab] - 1]);
      if mem.inuse[slab] + 1 == mem.num[cache] {
        MoveSlab(slab, cache + 16, Give(st, slab, idx));
      } else if mem.inuse[slab] == 0 {
        MoveSlab(slab, cache + 32, Give(st, slab, idx));
      }
      WordsFrame(given, mem, Give(st, slab, idx), Give(st, slab, idx));
      st := Give(st, slab, idx);
    }
  }

  /** The memory after the words of a slab were changed for taking an object back. */
  function GivenWords(m: Memory, p: nat, i: nat): Memory
    requires p in m.free && p in m.inuse && m.inuse[p] > 0
  {
    m.(table := m.table[Entry(p, i) := m.free[p]], free := m.free[p := i], inuse := m.inuse[p := m.inuse[p] - 1])
  }

  /** All lists are right after moving the slab to another list of its cache. */
  ghost predicate MovedTo(l: Links, p: nat, head: nat, u: State) {
    && p in l.next && p in l.prev && head in Del(l, p).next
    && LinksOk(Add(Del(l, p), p, head), u.caches)
  }

  lemma GiveRepresents(m: Memory, st: State, p: nat, i: nat)
    requires Inv(st) && LinksOk(m.links, st.caches) && WordsOk(m, st) && p in st.slabs
    requires st.slabs[p].kind in st.caches && i in st.slabs[p].live
    ensures var c, u := st.caches[st.slabs[p].kind], Give(st, p, i);
            && CacheWords(m, c) && SlabWords(m, p, st.slabs[p], c.num) && m.inuse[p] > 0
            && var m' := GivenWords(m, p, i);
               && WordsOk(m', u)
               && if m'.inuse[p] + 1 == c.num then MovedTo(m.links, p, Head(c, 1), u)
                  else if m'.inuse[p] == 0 then MovedTo(m.links, p, Head(c, 2), u)
                  else LinksOk(m.links, u.caches)
  {
    var k, s, u := st.slabs[p].kind, st.slabs[p], Give(st, p, i);
    var c := st.caches[k];
    assert CacheOk(st, k) && CacheAt(m, st, k);
    assert SlabAt(m, st, p) && SlabOk(st, p);
    FreeAfterGive(s, c.num, i);
    var m' := GivenWords(m, p, i);
    GiveWords(m, st, p, i);
    GiveLists(m.links, st, p, i);
  }

  lemma GiveWords(m: Memory, st: State, p: nat, i: nat)
    requires Inv(st) && WordsOk(m, st) && p in st.slabs && st.slabs[p].kind in st.caches && i in st.slabs[p].live
    requires p in m.free && p in m.inuse && m.inuse[p] > 0
    ensures WordsOk(GivenWords(m, p, i), Give(st, p, i))
  {
    var k, s, u := st.slabs[p].kind, st.slabs[p], Give(st, p, i);
    var c, m' := st.caches[k], GivenWords(m, p, i);
    assert CacheOk(st, k);
    assert SlabAt(m, st, p) && SlabOk(st, p) && PageOk(st, p);
    FreeAfterGive(s, c.num, i);
    ChainGive(m.table, p, m.free[p], s.free, i);
    EntryInPage(p, c.objSize, i);
    WordsMove(m, m', st, k, u.caches[k], p, u.slabs[p]);
  }

  lemma GiveLists(l: Links, st: State, p: nat, i: nat)
    requires Inv(st) && LinksOk(l, st.caches) && p in st.slabs && st.slabs[p].kind in st.caches && i in st.slabs[p].live
    ensures var c, u, live := st.caches[st.slabs[p].kind], Give(st, p, i), |st.slabs[p].live|;
            if live == c.num then MovedTo(l, p, Head(c, 1), u)
            else if live == 1 then MovedTo(l, p, Head(c, 2), u)
            else LinksOk(l, u.caches)
  {
    var k, s, u := st.slabs[p].kind, st.slabs[p], Give(st, p, i);
    var c, c' := st.caches[k], u.caches[k];
    assert CacheOk(st, k) && SlabOk(st, p);
    FreeAfterGive(s, c.num, i);
    OneList(c, p);
    if |s.live| == c.num {
      assert Moved(c, c', 0, 1, p);
      MoveLinks(l, st, k, c', 0, 1, p);
    } else if |s.live| == 1 {
      assert Moved(c, c', 1, 2, p);
      MoveLinks(l, st, k, c', 1, 2, p);
    } else {
      assert u.caches == st.caches;
    }
  }

  /** The object handed out is the first free one of the first partial slab. */
  ghost predicate Taken(st: State, u: State, k: nat, slab: nat, obj: nat) {
    && CanTake(st, k) && slab == st.caches[k].partial[0]
    && u == Take(st, k) && obj == ObjectAddress(slab, st.caches[k].objSize, st.caches[k].num, st.slabs[slab].free[0])
  }

  /** The memory after the words of a slab were changed for handing out its first free object. */
  function TakenWords(m: Memory, p: nat): Memory
    requires p in m.free && p in m.inuse && Entry(p, m.free[p]) in m.table
  {
    m.(free := m.free[p := m.table[Entry(p, m.free[p])]], inuse := m.inuse[p := m.inuse[p] + 1])
  }

  lemma TakeWords(m: Memory, st: State, k: nat)
    requires Inv(st) && WordsOk(m, st) && CanTake(st, k)
    ensures var c, p := st.caches[k], st.caches[k].partial[0];
            && CacheWords(m, c) && SlabWords(m, p, st.slabs[p], c.num) && Entry(p, m.free[p]) in m.table
            && WordsOk(TakenWords(m, p), Take(st, k)) && TakenWords(m, p).inuse[p] == |Take(st, k).slabs[p].live|
  {
    var c, u := st.caches[k], Take(st, k);
    var p := c.partial[0];
    assert CacheOk(st, k) && CacheAt(m, st, k);
    assert p in All(c);
    assert SlabAt(m, st, p) && SlabOk(st, p);
    FreeAfterTake(st.slabs[p], c.num);
    assert SlabWords(TakenWords(m, p), p, u.slabs[p], c.num);
    WordsMove(m, TakenWords(m, p), st, k, u.caches[k], p, u.slabs[p]);
  }

  lemma TakeLists(l: Links, st: State, k: nat)
    requires Inv(st) && LinksOk(l, st.caches) && CanTake(st, k)
    ensures var c, p, u := st.caches[k], st.caches[k].partial[0], Take(st, k);
            if |u.slabs[p].live| == c.num then MovedTo(l, p, Head(c, 0), u) else LinksOk(l, u.caches)
  {
    var c, u := st.caches[k], Take(st, k);
    var p := c.partial[0];
    if |u.slabs[p].live| == c.num {
      assert Moved(c, u.caches[k], 1, 0, p);
      MoveLinks(l, st, k, u.caches[k], 1, 0, p);
    } else {
      assert u.caches == st.caches;
    }
  }

  lemma TakeRepresents(m: Memory, st: State, k: nat)
    requires Inv(st) && LinksOk(m.links, st.caches) && WordsOk(m, st) && CanTake(st, k)
    ensures var c, p, u := st.caches[k], st.caches[k].partial[0], Take(st, k);
            && CacheWords(m, c) && SlabWords(m, p, st.slabs[p], c.num) && Entry(p, m.free[p]) in m.table
            && var m' := TakenWords(m, p);
               && WordsOk(m', u)
               && if m'.inuse[p] == c.num then MovedTo(m.links, p, Head(c, 0), u) else LinksOk(m.links, u.caches)
  {
    TakeWords(m, st, k);
    TakeLists(m.links, st, k);
  }

  /** Behind the head of a list that is not empty is its first node. */
  lemma FirstOf(l: Links, st: State, k: nat, t: nat)
    requires LinksOk(l, st.caches) && IsList(st.caches, k, t) && ListOf(st.caches[k], t) != []
    ensures Head(st.caches[k], t) in l.next && l.next[Head(st.caches[k], t)] == ListOf(st.caches[k], t)[0]
  {
    assert RingAt(l, st.caches, k, t);
    PathFirst(l, Head(st.caches[k], t), ListOf(st.caches[k], t), Head(st.caches[k], t));
  }

  lemma WordsFrame(m: Memory, m': Memory, st: State, u: State)
    requires WordsOk(m, st) && m' == m.(links := m'.links) && u.slabs == st.slabs && u.caches == st.caches
    ensures WordsOk(m', u)
  {
    forall p | p in u.slabs
      ensures SlabAt(m', u, p)
    {
      assert SlabAt(m, st, p);
    }
    forall k | k in u.caches
      ensures CacheAt(m', u, k)
    {
      assert CacheAt(m, st, k);
    }
  }

  lemma PromoteRepresents(m: Memory, st: State, k: nat)
    requires Inv(st) && LinksOk(m.links, st.caches) && WordsOk(m, st) && k in st.caches && st.caches[k].empty != []
    ensures var c, p, u := st.caches[k], st.caches[k].empty[0], Promote(st, k);
            && p in m.links.next && p in m.links.prev && Head(c, 1) in Del(m.links, p).next
            && var l' := Add(Del(m.links, p), p, Head(c, 1));
               LinksOk(l', u.caches) && WordsOk(m.(links := l'), u)
  {
    var c, u := st.caches[k], Promote(st, k);
    var p := c.empty[0];
    assert Moved(c, u.caches[k], 2, 1, p);
    MoveLinks(m.links, st, k, u.caches[k], 2, 1, p);
    assert CacheOk(st, k);
    assert p in All(c);
    assert SlabAt(m, st, p);
    var m' := m.(links := Add(Del(m.links, p), p, Head(c, 1)));
    WordsMove(m, m', st, k, u.caches[k], p, st.slabs[p]);
    assert st.slabs[p := st.slabs[p]] == st.slabs;
  }

  /** A class has a cache exactly when its entry is not null. */
  lemma CacheAddress(st: State, k: nat)
    requires Inv(st)
    ensures k in st.caches ==> st.caches[k].addr != 0
  {
    if k in st.caches {
      assert CacheOk(st, k);
      assert PageOk(st, st.caches[k].addr);
    }
  }

  /** The words of a cache record. */
  lemma CacheRead(m: Memory, st: State, k: nat)
    requires Inv(st) && WordsOk(m, st) && k in st.caches
    ensures CacheWords(m, st.caches[k]) && IsObjectSize(st.caches[k].objSize)
    ensures st.caches[k].num == ObjectsPerSlab(st.caches[k].objSize)
  {
    assert CacheAt(m, st, k) && CacheOk(st, k);
  }

  lemma OpenRepresents(m: Memory, m': Memory, st: State, size: nat)
    requires Inv(st) && LinksOk(m.links, st.caches) && WordsOk(m, st)
    requires 0 < size && ClassOf(size) !in st.caches && OpenCache(st, size).Some?
    requires var o := ObjectSize(size);
             m' == m.(links := NewLists(m.links, st.next), objSize := m.objSize[st.next := o],
               num := m.num[st.next := ObjectsPerSlab(o)])
    ensures var u := OpenCache(st, size).value; LinksOk(m'.links, u.caches) && WordsOk(m', u)
  {
    NextIsFree(st);
    var u := OpenCache(st, size).value;
    OpenLinks(m.links, st, ClassOf(size), u.caches[ClassOf(size)]);
    WordsOpen(m, m', st, size);
  }

  lemma GrowRepresents(m: Memory, m': Memory, st: State, k: nat)
    requires Inv(st) && LinksOk(m.links, st.caches) && WordsOk(m, st) && k in st.caches && Grow(st, k).Some?
    requires m'.links == m.links && m'.objSize == m.objSize && m'.num == m.num
    requires FilledTo(m'.table, st.next, st.caches[k].num, st.caches[k].num)
    requires m'.sMem == m.sMem[st.next := FirstObject(st.next, st.caches[k].num)]
    requires m'.free == m.free[st.next := 0] && m'.inuse == m.inuse[st.next := 0]
    requires TableKept(m.table, m'.table, st.next)
    ensures var u, h := Grow(st, k).value, Head(st.caches[k], 2);
            && h in m'.links.next && LinksOk(Add(m'.links, st.next, h), u.caches)
            && WordsOk(m'.(links := Add(m'.links, st.next, h)), u)
  {
    var c := st.caches[k];
    NextIsFree(st);
    FreshNode(st, st.next, st.next);
    AddLinks(m.links, st, k, st.next);
    assert CacheOk(st, k);
    PageFits(0, c.objSize);
    FilledChain(m'.table, st.next, c.num, 0);
    assert Count(c.num)[0..] == Count(c.num);
    WordsGrow(m, m'.(links := Add(m'.links, st.next, Head(c, 2))), st, k);
  }
}
