/** Creating a file or a directory grows the tree by one node. */
module Growth {
  import opened Directory
  import opened FatVolume
  import opened Tree

  /** `w` is `v` after cluster `c` was taken from the free ones, given the slots of a new directory if
      `s` is a directory entry, and `s` was put into the first free slot `i` of directory `p`. */
  ghost predicate Grown(v: Volume, w: Volume, p: nat, i: nat, s: Slot, c: nat) {
    && Taken(v, w, c)
    && i < |Dir(v, p)| && IsFree(Dir(v, p)[i]) && (forall j :: 0 <= j < i ==> !IsFree(Dir(v, p)[j]))
    && Plain(s) && Start(s) == c
    && Dir(w, p) == Dir(v, p)[i := s]
    && (forall d: nat :: d != p && d != c ==> Dir(w, d) == Dir(v, d))
    && (IsDirectory(s) ==> NewDir(w, c, p))
  }

  /** Cluster `c` went from free to end of chain; the other links stayed. */
  predicate Taken(v: Volume, w: Volume, c: nat) {
    && VolumeOk(v) && VolumeOk(w) && w.root == v.root && |w.fat| == |v.fat|
    && InRange(v, c) && Link(v, c) == 0 && Link(w, c) >= END_OF_CHAIN
    && forall k :: 0 <= k < |v.fat| && k != c ==> Link(w, k) == Link(v, k)
  }

  /** A directory that holds only its dot entries. */
  predicate NewDir(w: Volume, c: nat, p: nat) {
    Dotted(w, c, p) && forall k :: 2 <= k < |Dir(w, c)| ==> IsEnd(Dir(w, c)[k])
  }

  ghost function GrowTree(t: Tree, p: nat, c: nat, isDirectory: bool): Tree
    requires p in t.depth
  {
    var t1 := t.(chain := t.chain[c := [c]]);
    if isDirectory then t1.(depth := t.depth[c := t.depth[p] + 1], parent := t.parent[c := p]) else t1
  }

  lemma GrownPrefix(v: Volume, t: Tree, w: Volume, p: nat, i: nat, s: Slot, c: nat)
    requires Holds(v, t) && p in t.depth && Grown(v, w, p, i, s, c)
    ensures c !in t.chain && c !in t.depth && c != p && c != v.root
    ensures DirOk(Dir(v, p)) && NoEnd(Dir(v, p), i)
    ensures p != v.root ==> i >= 2
  {
    FreeIsUnowned(v, t, c);
    assert NodeOk(v, t, p);
    if p != v.root {
      assert !IsFree(Dir(v, p)[0]) && !IsFree(Dir(v, p)[1]);
    }
  }

  /** A cluster with the old dot entries or children keeps its slots. */
  lemma OtherDirs(v: Volume, t: Tree, w: Volume, p: nat, i: nat, s: Slot, c: nat, d: nat)
    requires Holds(v, t) && p in t.depth && Grown(v, w, p, i, s, c) && d in t.depth
    ensures Dir(w, d) == if d == p then Dir(v, p)[i := s] else Dir(v, d)
  {
    FreeIsUnowned(v, t, c);
  }

  /** The new directory has no children. */
  lemma NewDirEmpty(w: Volume, c: nat, p: nat, j: nat)
    requires NewDir(w, c, p) && j >= 2
    ensures !Live(Dir(w, c), j)
    ensures DirOk(Dir(w, c))
  {
  }

  /** Filling a free slot of `p` makes that slot a child and keeps the others. */
  lemma ChildFilled(v: Volume, t: Tree, w: Volume, t': Tree, p: nat, i: nat, s: Slot, j: nat)
    requires p in t.depth && p in t'.depth && w.root == v.root && (p != v.root ==> i >= 2)
    requires DirOk(Dir(v, p)) && i < |Dir(v, p)| && IsFree(Dir(v, p)[i]) && NoEnd(Dir(v, p), i)
    requires Plain(s) && Start(s) != 0 && Dir(w, p) == Dir(v, p)[i := s]
    ensures Child(w, t', p, j) <==> Child(v, t, p, j) || j == i
    ensures Child(v, t, p, j) ==> j != i && Dir(w, p)[j] == Dir(v, p)[j]
  {
    LiveInsert(Dir(v, p), i, s, j);
  }

  /** The children are the old ones, with the same slots, and the new entry. */
  lemma ChildGrown(v: Volume, t: Tree, w: Volume, p: nat, i: nat, s: Slot, c: nat, d: nat, j: nat)
    requires Holds(v, t) && p in t.depth && Grown(v, w, p, i, s, c)
    ensures Child(w, GrowTree(t, p, c, IsDirectory(s)), d, j) <==> Child(v, t, d, j) || (d == p && j == i)
    ensures Child(v, t, d, j) ==> !(d == p && j == i) && j < |Dir(w, d)| && Dir(w, d)[j] == Dir(v, d)[j]
    ensures i < |Dir(w, p)| && Dir(w, p)[i] == s
  {
    GrownPrefix(v, t, w, p, i, s, c);
    if d == p {
      ChildFilled(v, t, w, GrowTree(t, p, c, IsDirectory(s)), p, i, s, j);
    } else if d in t.depth {
      OtherDirs(v, t, w, p, i, s, c, d);
    } else if d == c && IsDirectory(s) && j >= 2 {
      NewDirEmpty(w, c, p, j);
    }
  }

  lemma DirGrown(v: Volume, t: Tree, w: Volume, p: nat, i: nat, s: Slot, c: nat, d: nat)
    requires Holds(v, t) && p in t.depth && Grown(v, w, p, i, s, c) && d in t.depth
    ensures NodeOk(w, t, d)
  {
    GrownPrefix(v, t, w, p, i, s, c);
    OtherDirs(v, t, w, p, i, s, c, d);
    assert NodeOk(v, t, d);
    if d == p {
      DirOkInsert(Dir(v, p), i, s);
    }
  }

  lemma DirsGrown(v: Volume, t: Tree, w: Volume, p: nat, i: nat, s: Slot, c: nat)
    requires Holds(v, t) && p in t.depth && Grown(v, w, p, i, s, c)
    ensures DirsOk(w, GrowTree(t, p, c, IsDirectory(s)))
  {
    FreeIsUnowned(v, t, c);
    var t' := GrowTree(t, p, c, IsDirectory(s));
    forall d | d in t'.depth
      ensures NodeOk(w, t', d)
    {
      if d in t.depth {
        DirGrown(v, t, w, p, i, s, c, d);
      } else {
        NewDirEmpty(w, c, p, 2);
      }
    }
  }

  lemma ParentKept(v: Volume, t: Tree, w: Volume, p: nat, i: nat, s: Slot, c: nat, d: nat)
    requires Holds(v, t) && p in t.depth && Grown(v, w, p, i, s, c) && d in t.depth && d != v.root
    ensures ParentOk(w, GrowTree(t, p, c, IsDirectory(s)), d)
  {
    FreeIsUnowned(v, t, c);
    var t' := GrowTree(t, p, c, IsDirectory(s));
    assert ParentOk(v, t, d);
    var j: nat :| Child(v, t, t.parent[d], j) && ChildStart(v, t.parent[d], j) == d;
    ChildGrown(v, t, w, p, i, s, c, t.parent[d], j);
    assert Child(w, t', t'.parent[d], j) && ChildStart(w, t'.parent[d], j) == d;
  }

  lemma ParentOfNew(v: Volume, t: Tree, w: Volume, p: nat, i: nat, s: Slot, c: nat)
    requires Holds(v, t) && p in t.depth && Grown(v, w, p, i, s, c) && IsDirectory(s)
    ensures ParentOk(w, GrowTree(t, p, c, true), c)
  {
    FreeIsUnowned(v, t, c);
    ChildGrown(v, t, w, p, i, s, c, p, i);
    assert Child(w, GrowTree(t, p, c, true), p, i) && ChildStart(w, p, i) == c;
  }

  lemma ParentsGrown(v: Volume, t: Tree, w: Volume, p: nat, i: nat, s: Slot, c: nat)
    requires Holds(v, t) && p in t.depth && Grown(v, w, p, i, s, c)
    ensures ParentsOk(w, GrowTree(t, p, c, IsDirectory(s)))
  {
    var t' := GrowTree(t, p, c, IsDirectory(s));
    forall d | d in t'.depth && d != w.root
      ensures ParentOk(w, t', d)
    {
      if d in t.depth {
        ParentKept(v, t, w, p, i, s, c, d);
      } else {
        ParentOfNew(v, t, w, p, i, s, c);
      }
    }
  }

  lemma ChildrenGrown(v: Volume, t: Tree, w: Volume, p: nat, i: nat, s: Slot, c: nat)
    requires Holds(v, t) && p in t.depth && Grown(v, w, p, i, s, c)
    ensures ChildrenOk(w, GrowTree(t, p, c, IsDirectory(s)))
  {
    GrownPrefix(v, t, w, p, i, s, c);
    var t' := GrowTree(t, p, c, IsDirectory(s));
    forall d: nat, j: nat | Child(w, t', d, j)
      ensures var r := ChildStart(w, d, j);
              && r in t'.chain && r != w.root
              && (IsDirectory(Dir(w, d)[j]) <==> r in t'.depth)
              && (r in t'.depth ==> r in t'.parent && t'.parent[r] == d)
    {
      ChildGrown(v, t, w, p, i, s, c, d, j);
      if Child(v, t, d, j) {
        assert ChildStart(v, d, j) in t.chain;
      }
    }
  }

  lemma UnsharedGrown(v: Volume, t: Tree, w: Volume, p: nat, i: nat, s: Slot, c: nat)
    requires Holds(v, t) && p in t.depth && Grown(v, w, p, i, s, c)
    ensures Unshared(w, GrowTree(t, p, c, IsDirectory(s)))
  {
    GrownPrefix(v, t, w, p, i, s, c);
    var t' := GrowTree(t, p, c, IsDirectory(s));
    forall d: nat, j: nat, e: nat, k: nat
      | Child(w, t', d, j) && Child(w, t', e, k) && ChildStart(w, d, j) == ChildStart(w, e, k)
      ensures d == e && j == k
    {
      ChildGrown(v, t, w, p, i, s, c, d, j);
      ChildGrown(v, t, w, p, i, s, c, e, k);
      assert Child(v, t, d, j) ==> ChildStart(v, d, j) in t.chain;
      assert Child(v, t, e, k) ==> ChildStart(v, e, k) in t.chain;
    }
  }

  /** Taking a free cluster leaves every chain as it is. */
  lemma ChainsTaken(v: Volume, t: Tree, w: Volume, c: nat)
    requires ChainsOk(v, t) && Taken(v, w, c)
    ensures ChainsOk(w, t) && ChainsOk(w, t.(chain := t.chain[c := [c]]))
    ensures c !in t.chain
  {
    FreeIsUnowned(v, t, c);
    var more := t.chain[c := [c]];
    forall s | s in more
      ensures ChainOk(w, more, s)
      ensures s in t.chain ==> ChainOk(w, t.chain, s)
    {
      if s != c {
        assert ChainOk(v, t.chain, s);
        assert c !in t.chain[s];
      }
    }
    forall s, r | s in more && r in more && s != r
      ensures Disjoint(more, s, r)
    {
      if s != c && r != c {
        assert Disjoint(t.chain, s, r);
      }
    }
  }

  lemma ChainsGrown(v: Volume, t: Tree, w: Volume, p: nat, i: nat, s: Slot, c: nat)
    requires Holds(v, t) && p in t.depth && Grown(v, w, p, i, s, c)
    ensures ChainsOk(w, GrowTree(t, p, c, IsDirectory(s)))
  {
    ChainsTaken(v, t, w, c);
  }

  /** The grown volume holds the grown tree. */
  lemma HoldsGrown(v: Volume, t: Tree, w: Volume, p: nat, i: nat, s: Slot, c: nat)
    requires Holds(v, t) && p in t.depth && Grown(v, w, p, i, s, c)
    ensures Holds(w, GrowTree(t, p, c, IsDirectory(s)))
  {
    DirsGrown(v, t, w, p, i, s, c);
    ParentsGrown(v, t, w, p, i, s, c);
    ChildrenGrown(v, t, w, p, i, s, c);
    UnsharedGrown(v, t, w, p, i, s, c);
    ChainsGrown(v, t, w, p, i, s, c);
  }
}
