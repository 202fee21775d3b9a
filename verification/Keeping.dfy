/** Edits that keep the tree: taking a free cluster, rewriting file bytes, changing a size field. */
module Keeping {
  import opened Directory
  import opened FatVolume
  import opened Tree

  /** The same slots up to size fields. */
  predicate Similar(a: seq<Slot>, b: seq<Slot>) {
    |a| == |b| && forall i :: 0 <= i < |a| ==> SameButSize(a[i], b[i])
  }

  lemma SimilarSlot(a: seq<Slot>, b: seq<Slot>, i: nat)
    requires Similar(a, b) && i < |a|
    ensures a[i][0] == b[i][0] && a[i][11] == b[i][11] && a[i][..11] == b[i][..11] && Start(a[i]) == Start(b[i])
    ensures Plain(a[i]) <==> Plain(b[i])
    ensures IsFree(a[i]) <==> IsFree(b[i])
    ensures LiveLfn(a[i]) <==> LiveLfn(b[i])
    ensures IsDirectory(a[i]) <==> IsDirectory(b[i])
  {
    SameFields(a[i], b[i]);
  }

  lemma SimilarLive(a: seq<Slot>, b: seq<Slot>, i: nat)
    requires Similar(a, b)
    ensures Live(a, i) <==> Live(b, i)
  {
    if i < |a| {
      SimilarSlot(a, b, i);
      forall j | 0 <= j < i
        ensures SCAN.stop(a[j]) == SCAN.stop(b[j])
      {
        SimilarSlot(a, b, j);
      }
    }
  }

  lemma SimilarDirOk(a: seq<Slot>, b: seq<Slot>)
    requires Similar(a, b) && DirOk(a)
    ensures DirOk(b)
  {
    forall i | 0 <= i < |a|
      ensures IsEnd(a[i]) == IsEnd(b[i]) && IsFree(a[i]) == IsFree(b[i]) && LiveLfn(a[i]) == LiveLfn(b[i])
    {
      SimilarSlot(a, b, i);
    }
  }

  /** Slot `i` is listed in both or in neither, with the same name, kind and cluster. */
  predicate AlikeAt(a: seq<Slot>, b: seq<Slot>, i: nat) {
    && (Live(a, i) <==> Live(b, i))
    && (Live(a, i) ==>
          b[i][..11] == a[i][..11] && Start(b[i]) == Start(a[i]) && (IsDirectory(b[i]) <==> IsDirectory(a[i])))
  }

  /** The same slots are listed in both. */
  ghost predicate Alike(a: seq<Slot>, b: seq<Slot>) {
    |a| == |b| && DirOk(b) && forall i: nat {:trigger AlikeAt(a, b, i)} :: AlikeAt(a, b, i)
  }

  lemma SimilarAlike(a: seq<Slot>, b: seq<Slot>)
    requires Similar(a, b) && DirOk(a)
    ensures Alike(a, b)
  {
    SimilarDirOk(a, b);
    forall i: nat
      ensures AlikeAt(a, b, i)
    {
      SimilarLive(a, b, i);
      if i < |a| {
        SimilarSlot(a, b, i);
      }
    }
  }

  /** Marking the first free slot as deleted lists the same slots. */
  lemma DeletedAlike(slots: seq<Slot>, i: nat, s: Slot)
    requires DirOk(slots) && i < |slots| && IsFree(slots[i]) && NoEnd(slots, i) && IsDeleted(s)
    ensures Alike(slots, slots[i := s]) && Listing(slots[i := s]) == Listing(slots)
  {
    var now := slots[i := s];
    assert forall k :: 0 <= k < i ==> !SCAN.stop(slots[k]);
    assert DirOk(now);
    forall j: nat
      ensures AlikeAt(slots, now, j)
    {
      DeletedLive(slots, i, s, j);
    }
    assert now[..i] == slots[..i] && now[i + 1..] == slots[i + 1..];
    ListingAtFree(slots, i);
    ListingAtFree(now, i);
  }

  lemma DeletedLive(slots: seq<Slot>, i: nat, s: Slot, j: nat)
    requires DirOk(slots) && i < |slots| && IsFree(slots[i]) && NoEnd(slots, i) && IsDeleted(s)
    ensures Live(slots, j) <==> Live(slots[i := s], j)
    ensures Live(slots, j) ==> j != i
  {
    var now := slots[i := s];
    forall k | 0 <= k < |slots|
      ensures SCAN.stop(now[k]) <==> k != i && SCAN.stop(slots[k])
    {
      assert now[k] == if k == i then s else slots[k];
    }
    if i < j < |slots| && IsEnd(slots[i]) {
      assert IsEnd(slots[j]);
    }
  }

  /** `w` has the chains of `t`, and its directories list the same slots as those of `v`. */
  ghost predicate KeepsLive(v: Volume, t: Tree, w: Volume) {
    && VolumeOk(w) && w.root == v.root && |w.fat| == |v.fat|
    && ChainsOk(w, t)
    && forall d {:trigger Dir(w, d)} :: d in t.depth ==> Alike(Dir(v, d), Dir(w, d))
  }

  lemma ChildKept(v: Volume, t: Tree, w: Volume, d: nat, i: nat)
    requires KeepsLive(v, t, w)
    ensures Child(v, t, d, i) <==> Child(w, t, d, i)
    ensures Child(v, t, d, i) ==>
              && i < |Dir(w, d)| && ChildStart(w, d, i) == ChildStart(v, d, i)
              && IsDirectory(Dir(w, d)[i]) == IsDirectory(Dir(v, d)[i])
  {
    if d in t.depth {
      assert Alike(Dir(v, d), Dir(w, d));
      assert AlikeAt(Dir(v, d), Dir(w, d), i);
    }
  }

  lemma DottedKept(v: Volume, w: Volume, d: nat, parent: nat)
    requires Alike(Dir(v, d), Dir(w, d)) && Dotted(v, d, parent) && w.root == v.root
    ensures Dotted(w, d, parent)
  {
    assert AlikeAt(Dir(v, d), Dir(w, d), 0) && AlikeAt(Dir(v, d), Dir(w, d), 1);
    assert Live(Dir(v, d), 0) && Live(Dir(v, d), 1);
  }

  lemma DirKept(v: Volume, t: Tree, w: Volume, d: nat)
    requires Holds(v, t) && KeepsLive(v, t, w) && d in t.depth
    ensures NodeOk(w, t, d)
  {
    assert NodeOk(v, t, d);
    assert Alike(Dir(v, d), Dir(w, d));
    if d != v.root {
      DottedKept(v, w, d, t.parent[d]);
    }
  }

  lemma ParentStays(v: Volume, t: Tree, w: Volume, d: nat)
    requires Holds(v, t) && KeepsLive(v, t, w) && d in t.depth && d != v.root
    ensures ParentOk(w, t, d)
  {
    assert ParentOk(v, t, d);
    var j: nat :| Child(v, t, t.parent[d], j) && ChildStart(v, t.parent[d], j) == d;
    ChildKept(v, t, w, t.parent[d], j);
    assert Child(w, t, t.parent[d], j) && ChildStart(w, t.parent[d], j) == d;
  }

  lemma ChildrenStay(v: Volume, t: Tree, w: Volume)
    requires Holds(v, t) && KeepsLive(v, t, w)
    ensures ChildrenOk(w, t) && Unshared(w, t)
  {
    forall d: nat, i: nat | Child(w, t, d, i)
      ensures Child(v, t, d, i) && ChildStart(w, d, i) == ChildStart(v, d, i)
      ensures IsDirectory(Dir(w, d)[i]) == IsDirectory(Dir(v, d)[i])
    {
      ChildKept(v, t, w, d, i);
    }
  }

  /** The volume still holds the same tree. */
  lemma HoldsKept(v: Volume, t: Tree, w: Volume)
    requires Holds(v, t) && KeepsLive(v, t, w)
    ensures Holds(w, t)
  {
    forall d | d in t.depth
      ensures NodeOk(w, t, d)
      ensures d != w.root ==> ParentOk(w, t, d)
    {
      DirKept(v, t, w, d);
      if d != v.root {
        ParentStays(v, t, w, d);
      }
    }
    ChildrenStay(v, t, w);
  }

  /** Directories that are the same up to size fields list the same slots. */
  lemma SimilarKeeps(v: Volume, t: Tree, w: Volume)
    requires Holds(v, t) && VolumeOk(w) && w.root == v.root && |w.fat| == |v.fat| && ChainsOk(w, t)
    requires forall d :: d in t.depth ==> Similar(Dir(v, d), Dir(w, d))
    ensures KeepsLive(v, t, w)
  {
    forall d | d in t.depth
      ensures Alike(Dir(v, d), Dir(w, d))
    {
      assert NodeOk(v, t, d);
      SimilarAlike(Dir(v, d), Dir(w, d));
    }
  }

  lemma ChainsSame(v: Volume, t: Tree, w: Volume)
    requires ChainsOk(v, t) && w.fat == v.fat
    ensures ChainsOk(w, t)
  {
    forall s | s in t.chain
      ensures ChainOk(w, t.chain, s)
    {
      assert ChainOk(v, t.chain, s);
    }
  }

  lemma {:induction false} ChainBytesKept(v: Volume, w: Volume, ch: seq<nat>)
    requires |w.data| == |v.data|
    requires forall i :: 0 <= i < |ch| && ch[i] < |v.data| ==> w.data[ch[i]] == v.data[ch[i]]
    ensures ChainBytes(w, ch) == ChainBytes(v, ch)
  {
    if ch != [] {
      ChainBytesKept(v, w, ch[..|ch| - 1]);
    }
  }
}
