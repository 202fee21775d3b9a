/** The volume as a tree of directories and files with disjoint cluster chains, and what keeps it one. */
module Tree {
  import opened Directory
  import opened FatVolume

  /** A tree over clusters. Directories are the keys of `depth`; `parent` is defined for all of them
      but the root; `chain` gives the cluster chain of every directory and every file. */
  datatype Tree = Tree(depth: map<nat, nat>, parent: map<nat, nat>, chain: map<nat, seq<nat>>)

  /** Slot `i` of directory `d` is the entry of a child: listed, not a dot entry, and not an empty
      file without a cluster. */
  ghost predicate Child(v: Volume, t: Tree, d: nat, i: nat) {
    && d in t.depth
    && Live(Dir(v, d), i)
    && (d == v.root || i >= 2)
    && (IsDirectory(Dir(v, d)[i]) || Start(Dir(v, d)[i]) != 0)
  }

  /** The first cluster of the child in slot `i`. */
  function ChildStart(v: Volume, d: nat, i: nat): nat
    requires i < |Dir(v, d)|
  {
    Start(Dir(v, d)[i])
  }

  /** The first two slots are `.` and `..`; `..` names the parent, the root being written as 0. */
  predicate Dotted(v: Volume, d: nat, parent: nat) {
    var slots := Dir(v, d);
    && |slots| >= 2
    && Plain(slots[0]) && slots[0][..11] == DOT_SHORT && IsDirectory(slots[0]) && Start(slots[0]) == d
    && Plain(slots[1]) && slots[1][..11] == DOT_DOT_SHORT && IsDirectory(slots[1])
    && Start(slots[1]) == if parent == v.root then 0 else parent
  }

  /** Directory `d` is a well-formed directory cluster, with its dot entries unless it is the root. */
  predicate NodeOk(v: Volume, t: Tree, d: nat) {
    && InRange(v, d) && DirOk(Dir(v, d))
    && (d != v.root ==> d in t.parent && Dotted(v, d, t.parent[d]))
  }

  ghost predicate DirsOk(v: Volume, t: Tree) {
    && v.root in t.depth
    && forall d {:trigger NodeOk(v, t, d)} :: d in t.depth ==> NodeOk(v, t, d)
  }

  /** Directory `d` has a parent one level up, which holds an entry for it. */
  ghost predicate ParentOk(v: Volume, t: Tree, d: nat)
    requires d in t.depth
  {
    && d in t.parent && t.parent[d] in t.depth
    && t.depth[d] == t.depth[t.parent[d]] + 1
    && exists i: nat :: Child(v, t, t.parent[d], i) && ChildStart(v, t.parent[d], i) == d
  }

  ghost predicate ParentsOk(v: Volume, t: Tree) {
    forall d {:trigger ParentOk(v, t, d)} :: d in t.depth && d != v.root ==> ParentOk(v, t, d)
  }

  /** Child entries own a chain; an entry is marked as a directory exactly when its cluster is one. */
  ghost predicate ChildrenOk(v: Volume, t: Tree) {
    forall d: nat, i: nat :: Child(v, t, d, i) ==>
      var s := ChildStart(v, d, i);
      && s in t.chain && s != v.root
      && (IsDirectory(Dir(v, d)[i]) <==> s in t.depth)
      && (s in t.depth ==> s in t.parent && t.parent[s] == d)
  }

  /** No two child entries share their first cluster. */
  ghost predicate Unshared(v: Volume, t: Tree) {
    forall d: nat, i: nat, e: nat, j: nat ::
      Child(v, t, d, i) && Child(v, t, e, j) && ChildStart(v, d, i) == ChildStart(v, e, j) ==> d == e && i == j
  }

  /** The chains of `s` and `r` share no cluster. */
  predicate Disjoint(chain: map<nat, seq<nat>>, s: nat, r: nat)
    requires s in chain && r in chain
  {
    forall i, j :: 0 <= i < |chain[s]| && 0 <= j < |chain[r]| ==> chain[s][i] != chain[r][j]
  }

  /** The chain recorded for `s` is its chain in the FAT. */
  predicate ChainOk(v: Volume, chain: map<nat, seq<nat>>, s: nat)
    requires s in chain
  {
    IsChain(v, s, chain[s])
  }

  ghost predicate ChainsOk(v: Volume, t: Tree) {
    && t.depth.Keys <= t.chain.Keys
    && (forall s {:trigger ChainOk(v, t.chain, s)} :: s in t.chain ==> ChainOk(v, t.chain, s))
    && (forall s, r {:trigger Disjoint(t.chain, s, r)} :: s in t.chain && r in t.chain && s != r ==>
         Disjoint(t.chain, s, r))
  }

  /** The volume holds the tree. */
  ghost predicate Holds(v: Volume, t: Tree) {
    && VolumeOk(v)
    && DirsOk(v, t) && ParentsOk(v, t) && ChildrenOk(v, t) && Unshared(v, t) && ChainsOk(v, t)
  }

  // ----- chains -----

  lemma InnerLink(v: Volume, c: nat, ch: seq<nat>, i: nat)
    requires VolumeOk(v) && IsChain(v, c, ch) && i < |ch|
    ensures i < |ch| - 1 <==> Link(v, ch[i]) < END_OF_CHAIN
    ensures Link(v, ch[i]) != 0
    ensures i < |ch| - 1 ==> Link(v, ch[i]) == ch[i + 1]
  {
    if i < |ch| - 1 {
      assert InRange(v, ch[i + 1]);
    }
  }

  /** Chains never visit a cluster twice. */
  lemma {:induction false} ChainAcyclic(v: Volume, c: nat, ch: seq<nat>, i: nat, j: nat)
    requires VolumeOk(v) && IsChain(v, c, ch) && i < j < |ch|
    ensures ch[i] != ch[j]
    decreases |ch| - j
  {
    InnerLink(v, c, ch, i);
    InnerLink(v, c, ch, j);
    if j < |ch| - 1 {
      ChainAcyclic(v, c, ch, i + 1, j + 1);
    }
  }

  /** A cluster has only one chain. */
  lemma {:induction false} ChainUnique(v: Volume, c: nat, a: seq<nat>, b: seq<nat>)
    requires VolumeOk(v) && IsChain(v, c, a) && IsChain(v, c, b)
    ensures a == b
  {
    var n := if |a| < |b| then |a| else |b|;
    PrefixUnique(v, c, a, b, n);
    assert a[n - 1] == a[..n][n - 1] == b[..n][n - 1] == b[n - 1];
    InnerLink(v, c, a, n - 1);
    InnerLink(v, c, b, n - 1);
    assert a == a[..n] && b == b[..n];
  }

  lemma {:induction false} PrefixUnique(v: Volume, c: nat, a: seq<nat>, b: seq<nat>, n: nat)
    requires VolumeOk(v) && IsChain(v, c, a) && IsChain(v, c, b) && n <= |a| && n <= |b|
    ensures a[..n] == b[..n]
  {
    if n > 0 {
      PrefixUnique(v, c, a, b, n - 1);
      if n > 1 {
        assert a[n - 2] == a[..n - 1][n - 2] == b[..n - 1][n - 2] == b[n - 2];
      }
      assert a[n - 1] == b[n - 1];
      assert a[..n] == a[..n - 1] + [a[n - 1]];
      assert b[..n] == b[..n - 1] + [b[n - 1]];
    }
  }

  /** A cluster whose entry is free is on no chain. */
  lemma FreeIsUnowned(v: Volume, t: Tree, c: nat)
    requires VolumeOk(v) && ChainsOk(v, t) && c < |v.fat| && Link(v, c) == 0
    ensures c !in t.chain && c !in t.depth
    ensures forall s :: s in t.chain ==> c !in t.chain[s]
  {
    forall s | s in t.chain
      ensures c !in t.chain[s] && c != s
    {
      var ch := t.chain[s];
      assert ChainOk(v, t.chain, s);
      forall i | 0 <= i < |ch|
        ensures ch[i] != c
      {
        InnerLink(v, s, ch, i);
      }
    }
  }
}
