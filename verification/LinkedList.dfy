/** The first-fit allocator in memory: the free list is threaded through the free regions themselves. */
module LinkedList {
  import opened Bytes
  import opened FreeRegions

  /** A list node, at the start of the free region it describes; 0 stands for no next node. */
  datatype ListNode = ListNode(size: nat, next: nat)

  /** From the node at `at`, the list runs through the regions in order and leads to `last`. */
  predicate Segment(nodes: map<nat, ListNode>, at: nat, regions: seq<Region>, last: nat)
    decreases |regions|
  {
    if regions == [] then at == last
    else && at == regions[0].start && at in nodes && nodes[at].size == regions[0].size
         && Segment(nodes, nodes[at].next, regions[1..], last)
  }

  /** No two regions start at the same address, and none at 0. */
  predicate StartsApart(regions: seq<Region>) {
    && (forall i :: 0 <= i < |regions| ==> regions[i].start != 0)
    && (forall i, j :: 0 <= i < j < |regions| ==> regions[i].start != regions[j].start)
  }

  /** No region starts there. */
  predicate NewStart(regions: seq<Region>, addr: nat) {
    forall i :: 0 <= i < |regions| ==> regions[i].start != addr
  }

  lemma InvStartsApart(h: Heap)
    requires Inv(h)
    ensures StartsApart(h.regions)
  {
    forall i | 0 <= i < |h.regions|
      ensures h.regions[i].start != 0
    {
      RegionInside(h, i);
    }
    forall i, j | 0 <= i < j < |h.regions|
      ensures h.regions[i].start != h.regions[j].start
    {
      assert Pieces(h)[i] == h.regions[i] && Pieces(h)[j] == h.regions[j];
      assert RegionOk(h.regions[i]) && RegionOk(h.regions[j]);
      PiecesDisjoint(h, i, j);
    }
  }

  lemma {:induction false} SegmentFrame(nodes: map<nat, ListNode>, nodes': map<nat, ListNode>, at: nat,
      s: seq<Region>, last: nat)
    requires Segment(nodes, at, s, last)
    requires forall i :: 0 <= i < |s| ==> s[i].start in nodes ==>
               s[i].start in nodes' && nodes'[s[i].start] == nodes[s[i].start]
    ensures Segment(nodes', at, s, last)
    decreases |s|
  {
    if s != [] {
      assert s[0].start in nodes';
      SegmentFrame(nodes, nodes', nodes[at].next, s[1..], last);
    }
  }

  lemma {:induction false} SegmentJoin(nodes: map<nat, ListNode>, at: nat, s: seq<Region>, mid: nat, t: seq<Region>,
      last: nat)
    requires Segment(nodes, at, s, mid) && Segment(nodes, mid, t, last)
    ensures Segment(nodes, at, s + t, last)
    decreases |s|
  {
    if s == [] {
      assert s + t == t;
    } else {
      assert (s + t)[0] == s[0] && (s + t)[1..] == s[1..] + t;
      SegmentJoin(nodes, nodes[at].next, s[1..], mid, t, last);
    }
  }

  /** Letting the last node of a segment lead somewhere else. */
  lemma {:induction false} SegmentRelink(nodes: map<nat, ListNode>, at: nat, s: seq<Region>, last: nat, last': nat)
    requires Segment(nodes, at, s, last) && s != [] && StartsApart(s)
    ensures var e := s[|s| - 1].start; e in nodes && Segment(nodes[e := nodes[e].(next := last')], at, s, last')
    decreases |s|
  {
    if |s| > 1 {
      SegmentRelink(nodes, nodes[at].next, s[1..], last, last');
      assert s[1..][|s| - 2] == s[|s| - 1];
    }
  }

  class LinkedListAllocator {
    var nodes: map<nat, ListNode>
    /** The `next` field of the head node, which lies outside the heap. */
    var head: nat
    /** The state the list represents. */
    ghost var h: Heap

    ghost predicate Valid()
      reads this
    {
      Inv(h) && Segment(nodes, head, h.regions, 0)
    }

    /** `new` and `init`. */
    constructor (low: nat, size: nat)
      requires IsHeap(low, size)
      ensures Valid() && h == Fresh(low, size)
    {
      nodes := map[];
      head := 0;
      h := Heap(low, low + size, [], [], []);
      new;
      AddFreeRegion(low, size);
      FreshInv(low, size);
      assert h.regions == [Region(low, size)];
    }

    /** `add_free_region`: its two assertions are the precondition, which every call is shown to meet. */
    method AddFreeRegion(addr: nat, size: nat)
      requires AlignUp(addr, NODE_ALIGN) == addr && size >= NODE_SIZE
      requires Segment(nodes, head, h.regions, 0) && NewStart(h.regions, addr)
      modifies this
      ensures Segment(nodes, head, h.regions, 0) && h == old(h).(regions := [Region(addr, size)] + old(h).regions)
    {
      ghost var before, s := nodes, h.regions;
      nodes := nodes[addr := ListNode(size, head)];
      SegmentFrame(before, nodes, head, s, 0);
      head := addr;
      h := h.(regions := [Region(addr, size)] + s);
      assert h.regions[1..] == s;
    }

    /** `find_region`: takes the first region that fits off the list; `None`, with the list unchanged, if
        there is none. */
    method FindRegion(size: nat, align: nat) returns (r: Option<(Region, nat)>)
      requires Segment(nodes, head, h.regions, 0) && StartsApart(h.regions) && align > 0
      modifies this
      ensures Segment(nodes, head, h.regions, 0)
      ensures FindFit(old(h).regions, size, align).None? ==>
                r.None? && h == old(h) && nodes == old(nodes) && head == old(head)
      ensures FindFit(old(h).regions, size, align).Some? ==>
                var i := FindFit(old(h).regions, size, align).value;
                && h == old(h).(regions := Without(old(h).regions, i))
                && r == Some((old(h).regions[i], AllocFromRegion(old(h).regions[i], size, align).value))
    {
      ghost var s, i := h.regions, 0;
      var current, at := 0, head;
      assert s[0..] == s;
      while at != 0
        invariant 0 <= i <= |s| && h == old(h) && nodes == old(nodes) && head == old(head)
        invariant Segment(nodes, head, s[..i], at) && Segment(nodes, at, s[i..], 0)
        invariant current == if i == 0 then 0 else s[i - 1].start
        invariant NoFit(s[..i], size, align)
        decreases |s| - i
      {
        SegmentStep(nodes, head, s, i, at);
        var region := nodes[at];
        var start := AllocFromRegion(Region(at, region.size), size, align);
        if start.Some? {
          FirstFound(s, size, align, i);
          Unlink(current, at, i);
          return Some((Region(at, region.size), start.value));
        }
        assert s[..i + 1] == s[..i] + [s[i]];
        current, at := at, region.next;
        i := i + 1;
      }
      assert s[..i] == s;
      r := None;
    }

    /** Takes the node at `at` off the list; `current` is the node before it, 0 for the head. */
    method Unlink(current: nat, at: nat, ghost i: nat)
      requires StartsApart(h.regions) && i < |h.regions| && at == h.regions[i].start && at in nodes
      requires Segment(nodes, head, h.regions[..i], at) && Segment(nodes, at, h.regions[i..], 0)
      requires current == if i == 0 then 0 else h.regions[i - 1].start
      modifies this
      ensures h == old(h).(regions := Without(old(h).regions, i)) && Segment(nodes, head, h.regions, 0)
    {
      Unlinked(nodes, head, h.regions, i);
      var next := nodes[at].next;
      nodes := nodes[at := nodes[at].(next := 0)];
      if current == 0 {
        head := next;
      } else {
        nodes := nodes[current := nodes[current].(next := next)];
      }
      h := h.(regions := Without(h.regions, i));
    }

    /** `alloc`, 0 being null; `None` where adjusting the layout overflows and the code stops. */
    method Alloc(l: Layout) returns (r: Option<nat>)
      requires Valid() && ValidLayout(l)
      modifies this
      ensures Valid() && (r.None? <==> SizeAlign(l).None?)
      ensures r.None? ==> h == old(h)
      ensures r.Some? ==> (h, r.value) == FreeRegions.Alloc(old(h), l)
    {
      var adjusted := SizeAlign(l);
      if adjusted.None? {
        return None;
      }
      var a := adjusted.value;
      AllocCases(h, l, a);
      InvStartsApart(h);
      ghost var was := h;
      var found := FindRegion(a.size, a.align);
      if found.None? {
        return Some(0);
      }
      var (region, start) := found.value;
      CutBlock(region, start, l, a, was, FindFit(was.regions, a.size, a.align).value);
      r := Some(start);
    }

    /** The rest of `alloc`: what is behind the block goes back to the list. */
    method CutBlock(region: Region, start: nat, l: Layout, a: Layout, ghost was: Heap, ghost i: nat)
      requires Inv(was) && ValidLayout(l) && SizeAlign(l) == Some(a) && a.align > 0 && i < |was.regions|
      requires region == was.regions[i] && AllocFromRegion(region, a.size, a.align) == Some(start)
      requires Segment(nodes, head, h.regions, 0) && h == was.(regions := Without(was.regions, i))
      modifies this
      ensures Valid() && h == Cut(was, l, a, i)
    {
      AllocEnds(was, l, i);
      KeepRest(start + a.size, End(region));
      h := Cut(was, l, a, i);
    }

    /** Gives the end of a region back to the list, if anything is left. */
    method KeepRest(allocEnd: nat, end: nat)
      requires Segment(nodes, head, h.regions, 0) && allocEnd <= end
      requires allocEnd < end ==>
                 && AlignUp(allocEnd, NODE_ALIGN) == allocEnd && end - allocEnd >= NODE_SIZE
                 && NewStart(h.regions, allocEnd)
      modifies this
      ensures Segment(nodes, head, h.regions, 0) && h == old(h).(regions := Piece(allocEnd, end) + old(h).regions)
    {
      var excess := end - allocEnd;
      if excess > 0 {
        AddFreeRegion(allocEnd, excess);
      } else {
        assert Piece(allocEnd, end) + h.regions == h.regions;
      }
    }

    /** `dealloc` of a block in use, with the layout it was asked for with. */
    method Dealloc(ptr: nat, l: Layout, ghost i: nat)
      requires Valid() && i < |h.live| && h.live[i].layout == l && h.live[i].region.start == ptr
      modifies this
      ensures BlockOk(old(h).live[i]) && h == Release(old(h), i) && Valid()
    {
      assert BlockOk(h.live[i]);
      ReleaseKeeps(h, i);
      InvStartsApart(Release(h, i));
      FirstApart(Release(h, i).regions, h.regions);
      ghost var u := Release(h, i);
      var a := SizeAlign(l).value;
      AddFreeRegion(ptr, a.size);
      h := u;
    }
  }

  lemma FirstApart(s: seq<Region>, t: seq<Region>)
    requires StartsApart(s) && s != [] && s[1..] == t
    ensures NewStart(t, s[0].start)
  {
    forall j | 0 <= j < |t|
      ensures t[j].start != s[0].start
    {
      assert t[j] == s[j + 1];
    }
  }

  /** What is behind the block can be added to the list: it is aligned, large enough and apart from the rest. */
  lemma AllocEnds(h: Heap, l: Layout, i: nat)
    requires Inv(h) && ValidLayout(l) && SizeAlign(l).Some? && i < |h.regions|
    requires Fits(h.regions[i], SizeAlign(l).value.size, SizeAlign(l).value.align)
    ensures var a, r := SizeAlign(l).value, h.regions[i];
            var end := AllocFromRegion(r, a.size, a.align).value + a.size;
            && Inv(Cut(h, l, a, i)) && end <= End(r) && AlignUp(end, NODE_ALIGN) == end
            && (end < End(r) ==> End(r) - end >= NODE_SIZE && NewStart(Without(h.regions, i), end))
  {
    var a, r := SizeAlign(l).value, h.regions[i];
    var start := AllocFromRegion(r, a.size, a.align).value;
    CutKeeps(h, l, i);
    FitsOk(r, a.size, a.align);
    BlockMade(l, start);
    var u := Cut(h, l, a, i);
    if start + a.size < End(r) {
      InvStartsApart(u);
      assert u.regions[0] == Region(start + a.size, End(r) - (start + a.size))
        && u.regions[1..] == Without(h.regions, i);
      FirstApart(u.regions, Without(h.regions, i));
    }
  }

  /** The next node of the list is that of the next region. */
  lemma SegmentStep(nodes: map<nat, ListNode>, head: nat, s: seq<Region>, i: nat, at: nat)
    requires i <= |s| && at != 0 && Segment(nodes, head, s[..i], at) && Segment(nodes, at, s[i..], 0)
    ensures i < |s| && at in nodes && at == s[i].start && nodes[at].size == s[i].size
    ensures Segment(nodes, head, s[..i + 1], nodes[at].next) && Segment(nodes, nodes[at].next, s[i + 1..], 0)
  {
    assert s[i..] != [] && s[i..][0] == s[i] && s[i..][1..] == s[i + 1..];
    SegmentJoin(nodes, head, s[..i], at, [s[i]], nodes[at].next);
    assert s[..i + 1] == s[..i] + [s[i]];
  }

  lemma {:induction false} FirstFound(s: seq<Region>, size: nat, align: nat, i: nat)
    requires align > 0 && i < |s| && NoFit(s[..i], size, align) && Fits(s[i], size, align)
    ensures FindFit(s, size, align) == Some(i)
  {
    forall j | 0 <= j < i
      ensures !Fits(s[j], size, align)
    {
      assert s[..i][j] == s[j];
    }
  }

  /** Taking the region off the list: the node before it leads on to the one behind it. */
  lemma Unlinked(nodes: map<nat, ListNode>, head: nat, s: seq<Region>, i: nat)
    requires i < |s| && StartsApart(s) && s[i].start in nodes
    requires Segment(nodes, head, s[..i], s[i].start) && Segment(nodes, s[i].start, s[i..], 0)
    ensures var at, next := s[i].start, nodes[s[i].start].next;
            var nodes1 := nodes[at := nodes[at].(next := 0)];
            if i == 0 then Segment(nodes1, next, Without(s, i), 0)
            else
              var e := s[i - 1].start;
              e in nodes1 && Segment(nodes1[e := nodes1[e].(next := next)], head, Without(s, i), 0)
  {
    var at, next := s[i].start, nodes[s[i].start].next;
    var nodes1 := nodes[at := nodes[at].(next := 0)];
    assert s[i..][1..] == s[i + 1..];
    SegmentFrame(nodes, nodes1, next, s[i + 1..], 0);
    if i == 0 {
      assert Without(s, i) == s[i + 1..];
    } else {
      SegmentFrame(nodes, nodes1, head, s[..i], at);
      SegmentRelink(nodes1, head, s[..i], at, next);
      var e := s[i - 1].start;
      var nodes2 := nodes1[e := nodes1[e].(next := next)];
      SegmentFrame(nodes1, nodes2, next, s[i + 1..], 0);
      SegmentJoin(nodes2, head, s[..i], next, s[i + 1..], 0);
    }
  }
}
