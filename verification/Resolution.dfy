/** Path resolution inside the tree. */
module Resolution {
  import opened Bytes
  import opened Text
  import opened Directory
  import opened Paths
  import opened FatVolume
  import opened Edits
  import opened Tree

  lemma DottedInfo(v: Volume, d: nat, parent: nat)
    requires Dotted(v, d, parent)
    ensures InfoAt(Dir(v, d), 0).name == DOT_NAME && InfoAt(Dir(v, d), 1).name == DOT_DOT_NAME
  {
    var slots := Dir(v, d);
    PrintDots();
    assert slots[..1][..0] == [] && slots[..1][0] == slots[0];
  }

  /** A dotted directory lists `.` and `..` first. */
  lemma DottedListing(v: Volume, d: nat, parent: nat)
    requires Dotted(v, d, parent)
    ensures |List(v, d)| >= 2
    ensures List(v, d)[0].name == DOT_NAME && List(v, d)[0].startCluster == d && List(v, d)[0].isDirectory
    ensures List(v, d)[1].name == DOT_DOT_NAME && List(v, d)[1].isDirectory
    ensures List(v, d)[1].startCluster == if parent == v.root then 0 else parent
    ensures List(v, d)[2..] == Listing(Dir(v, d)[2..])
  {
    PrintDots();
    PlainPair(Dir(v, d));
  }

  /** `find_parent_cluster` finds the true parent of every directory, and none for the root. */
  lemma ParentFound(v: Volume, t: Tree, d: nat)
    requires Holds(v, t) && d in t.depth
    ensures d != v.root ==> d in t.parent && t.parent[d] in t.depth
    ensures ParentCluster(View(v), d) == if d == v.root then None else Some(t.parent[d])
  {
    if d != v.root {
      assert ParentOk(v, t, d);
      assert NodeOk(v, t, d) && NodeOk(v, t, t.parent[d]);
      DottedListing(v, d, t.parent[d]);
      FindSecond(List(v, d), DOT_DOT_NAME);
    }
  }

  /** A listed name other than the dots belongs to a live slot that is not a dot entry. */
  lemma FoundSlot(v: Volume, t: Tree, d: nat, name: Text) returns (i: nat)
    requires Holds(v, t) && d in t.depth && Find(List(v, d), name).Some? && IsName(name)
    ensures Live(Dir(v, d), i) && (d == v.root || i >= 2)
    ensures Find(List(v, d), name).value == InfoAt(Dir(v, d), i)
    ensures |Listing(Dir(v, d)[..i])| == FindIndex(List(v, d), name)
  {
    FindAtIndex(List(v, d), name);
    i := ListedAt(Dir(v, d), FindIndex(List(v, d), name));
    if d != v.root {
      assert NodeOk(v, t, d);
      DottedInfo(v, d, t.parent[d]);
    }
  }

  /** Components lead from directories of the tree to directories of the tree. */
  lemma EnterInTree(v: Volume, t: Tree, c: nat, part: Text)
    requires Holds(v, t) && c in t.depth && Enter(View(v), c, part).Some?
    ensures Enter(View(v), c, part).value in t.depth
  {
    if part == DOT_DOT_NAME {
      ParentFound(v, t, c);
    } else if part != DOT_NAME {
      var i := FoundSlot(v, t, c, part);
      assert Child(v, t, c, i);
    }
  }

  /** The walk stays inside the tree. */
  lemma TreeClosed(v: Volume, t: Tree)
    requires Holds(v, t)
    ensures Closed(View(v), t.depth.Keys) && v.root in t.depth.Keys
  {
    forall c, part | c in t.depth.Keys && Enter(View(v), c, part).Some?
      ensures Enter(View(v), c, part).value in t.depth.Keys
    {
      EnterInTree(v, t, c, part);
    }
  }

  /** A path that leads to a file with a cluster: the slot `i` of directory `d` the file was found in. */
  lemma FileTarget(v: Volume, t: Tree, c: nat, parts: seq<Text>, f: FileInfo) returns (d: nat, i: nat)
    requires Holds(v, t) && c in t.depth
    requires Resolve(View(v), c, parts) == Some(f) && !f.isDirectory && f.startCluster != 0
    ensures parts != [] && IsName(Last(parts))
    ensures LastDir(View(v), c, parts) == Some(d) && Find(List(v, d), Last(parts)) == Some(f)
    ensures Child(v, t, d, i) && f == InfoAt(Dir(v, d), i) && f.startCluster == ChildStart(v, d, i)
    ensures |Listing(Dir(v, d)[..i])| == FindIndex(List(v, d), Last(parts))
    ensures f.startCluster in t.chain && f.startCluster !in t.depth
  {
    FileHasName(View(v), c, parts);
    ResolveIsLookup(View(v), c, parts);
    TreeClosed(v, t);
    LastDirInside(View(v), t.depth.Keys, c, parts);
    d := LastDir(View(v), c, parts).value;
    i := FoundSlot(v, t, d, Last(parts));
  }
}
