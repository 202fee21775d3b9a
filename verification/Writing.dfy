/** `write_file`: what it keeps, what it changes, and when reading gives back what was written. */
module Writing {
  import opened Arithmetic
  import opened Bytes
  import opened Text
  import opened ShortName
  import opened Directory
  import opened Paths
  import opened FatVolume
  import opened Edits
  import opened Tree
  import opened Keeping
  import opened Resolution

  // ----- the two steps of a write -----

  /** The slot `i` of directory `d` the file was found in. */
  lemma WriteTarget(v: Volume, t: Tree, path: Text, f: FileInfo) returns (d: nat, i: nat)
    requires Holds(v, t) && LeadsTo(v, path, f)
    ensures Parts(path) != [] && IsName(Last(Parts(path)))
    ensures LastDir(View(v), v.root, Parts(path)) == Some(d) && Find(List(v, d), Last(Parts(path))) == Some(f)
    ensures Child(v, t, d, i) && f == InfoAt(Dir(v, d), i) && f.startCluster == ChildStart(v, d, i)
    ensures |Listing(Dir(v, d)[..i])| == FindIndex(List(v, d), Last(Parts(path)))
    ensures f.startCluster in t.chain && f.startCluster !in t.depth
  {
    d, i := FileTarget(v, t, v.root, Parts(path), f);
  }

  /** `w` is `v` with `bytes` over the front of cluster `s`. */
  predicate Stored(v: Volume, w: Volume, s: nat, bytes: seq<byte>) {
    && VolumeOk(v) && VolumeOk(w) && InRange(v, s)
    && w.fat == v.fat && w.root == v.root && |w.data| == |v.data| && w.clusterSize == v.clusterSize
    && w.data[s] == Splice(v.data[s], 0, bytes[..Min(|bytes|, v.clusterSize)])
    && forall d :: 0 <= d < |v.data| && d != s ==> w.data[d] == v.data[d]
  }

  lemma WriteBytesStored(v: Volume, s: nat, bytes: seq<byte>)
    requires VolumeOk(v) && InRange(v, s)
    ensures Stored(v, WriteBytes(v, s, bytes), s, bytes)
  {
  }

  lemma StoredDirs(v: Volume, w: Volume, s: nat, bytes: seq<byte>, d: nat)
    requires Stored(v, w, s, bytes) && d != s
    ensures Dir(w, d) == Dir(v, d)
  {
  }

  /** Storing file bytes keeps the tree and all listings. */
  lemma StoredKeeps(v: Volume, t: Tree, w: Volume, s: nat, bytes: seq<byte>)
    requires Holds(v, t) && s !in t.depth && Stored(v, w, s, bytes)
    ensures Holds(w, t)
    ensures forall d :: d in t.depth ==> Dir(w, d) == Dir(v, d)
  {
    forall d | d in t.depth
      ensures Dir(w, d) == Dir(v, d)
    {
      StoredDirs(v, w, s, bytes, d);
    }
    ChainsSame(v, t, w);
    SimilarKeeps(v, t, w);
    HoldsKept(v, t, w);
  }

  lemma ViewsEqual(v: Volume, w: Volume, dirs: set<nat>)
    requires forall d :: d in dirs ==> Dir(w, d) == Dir(v, d)
    ensures forall d :: d in dirs ==> View(w).list(d) == View(v).list(d)
  {
  }

  lemma SizeDirEqual(v: Volume, t: Tree, w: Volume, path: Text)
    requires Holds(v, t) && w.root == v.root
    requires forall d :: d in t.depth ==> Dir(w, d) == Dir(v, d)
    ensures SizeDir(View(w), path) == SizeDir(View(v), path)
  {
    SizeDirResolves(View(v), path);
    SizeDirResolves(View(w), path);
    TreeClosed(v, t);
    ViewsEqual(v, w, t.depth.Keys);
    ResolveEqual(View(v), View(w), t.depth.Keys, v.root, Parts(ParentPath(path)));
  }

  lemma SizeDirInTree(v: Volume, t: Tree, path: Text)
    requires Holds(v, t) && FileName(path) != [] && LastDir(View(v), v.root, Parts(path)).Some?
    ensures SizeDir(View(v), path) in t.depth
  {
    TreeClosed(v, t);
    LastDirInside(View(v), t.depth.Keys, v.root, Parts(path));
    SizeDirIsLastDirOrRoot(View(v), path);
  }

  /** The slot whose size `write_file` updates: the first in its directory that starts with the
      formatted file name. */
  function SizeSlot(v: Volume, path: Text): nat
    requires FormatTo83(FileName(path)).Some?
  {
    ShortSlot(Dir(v, SizeDir(View(v), path)), FormatTo83(FileName(path)).value, 0)
  }

  /** `w` is `v1` with the size of slot `j` of directory `dir` set. */
  predicate Sized(v1: Volume, w: Volume, dir: nat, j: nat, size: u32) {
    j < |Dir(v1, dir)| && w == PutSlot(v1, dir, j, Resized(Dir(v1, dir)[j], size))
  }

  /** Some slot starts with the formatted file name. */
  predicate Matches(v: Volume, path: Text) {
    && FormatTo83(FileName(path)).Some?
    && SizeSlot(v, path) < |Dir(v, SizeDir(View(v), path))|
  }

  lemma SetSizeShape(v: Volume, v1: Volume, dir: nat, short: seq<byte>, size: u32)
    requires Dir(v1, dir) == Dir(v, dir)
    ensures var o := SetSize(v1, dir, short, size); var j := ShortSlot(Dir(v, dir), short, 0);
            && (o.error.Some? ==> o.after == v1)
            && (o.error.None? <==> j < |Dir(v, dir)|)
            && (o.error.None? ==> Sized(v1, o.after, dir, j, size))
  {
  }

  /** The size update looks in the same slots after the bytes were stored as before. */
  lemma UpdateShape(v: Volume, v1: Volume, path: Text, size: u32)
    requires SizeDir(View(v1), path) == SizeDir(View(v), path)
    requires FormatTo83(FileName(path)).Some? ==> Dir(v1, SizeDir(View(v), path)) == Dir(v, SizeDir(View(v), path))
    ensures var o := UpdateFileSize(v1, path, size);
            && (o.error.Some? ==> o.after == v1)
            && (o.error.None? <==> Matches(v, path))
            && (o.error.None? ==> Sized(v1, o.after, SizeDir(View(v), path), SizeSlot(v, path), size))
  {
    if FormatTo83(FileName(path)).Some? {
      SetSizeShape(v, v1, SizeDir(View(v), path), FormatTo83(FileName(path)).value, size);
    }
  }

  /** What the tree says about a file that is written and the directory its size is in. */
  lemma WriteTargetInTree(v: Volume, t: Tree, path: Text, f: FileInfo)
    requires Holds(v, t) && LeadsTo(v, path, f)
    ensures f.startCluster in t.chain && f.startCluster !in t.depth
    ensures FormatTo83(FileName(path)).Some? ==> SizeDir(View(v), path) in t.depth
  {
    var d, i := WriteTarget(v, t, path, f);
    if FormatTo83(FileName(path)).Some? {
      FormattedNonEmpty(FileName(path));
      SizeDirInTree(v, t, path);
    }
  }

  lemma StoredSizeDir(v: Volume, t: Tree, v1: Volume, s: nat, bytes: seq<byte>, path: Text)
    requires Holds(v, t) && s !in t.depth && Stored(v, v1, s, bytes)
    ensures SizeDir(View(v1), path) == SizeDir(View(v), path)
    ensures SizeDir(View(v), path) in t.depth ==> Dir(v1, SizeDir(View(v), path)) == Dir(v, SizeDir(View(v), path))
  {
    StoredKeeps(v, t, v1, s, bytes);
    SizeDirEqual(v, t, v1, path);
  }

  /** A write stores the bytes; it succeeds exactly when the file name formats and some slot matches
      it, and then it sets the size of that slot. */
  lemma WriteShape(v: Volume, t: Tree, path: Text, f: FileInfo, bytes: seq<byte>)
    requires Holds(v, t) && LeadsTo(v, path, f)
    ensures var o := WriteTo(v, path, f, bytes); var v1 := WriteBytes(v, f.startCluster, bytes);
            && (o.error.Some? ==> o.after == v1)
            && (o.error.None? <==> Matches(v, path))
            && (o.error.None? ==>
                 Sized(v1, o.after, SizeDir(View(v), path), SizeSlot(v, path), Min(|bytes|, v.clusterSize)))
  {
    WriteTargetInTree(v, t, path, f);
    var v1 := WriteBytes(v, f.startCluster, bytes);
    WriteBytesStored(v, f.startCluster, bytes);
    StoredSizeDir(v, t, v1, f.startCluster, bytes, path);
    UpdateShape(v, v1, path, Min(|bytes|, v.clusterSize));
  }

  /** The error of `write_file` by its cause. Only the last two are noticed after the bytes were stored. */
  lemma WriteErrors(v: Volume, t: Tree, path: Text, bytes: seq<byte>)
    requires Holds(v, t) && CanWrite(v, path)
    ensures var o, r := WriteFile(v, path, bytes), ParsePath(View(v), path, None);
            && o.error == (if r.None? then Some(FileNotFound)
                           else if r.value.isDirectory then Some(NotAFile)
                           else if FormatTo83(FileName(path)).None? then Some(InvalidName)
                           else if !Matches(v, path) then Some(EntryNotFound)
                           else None)
            && (r.None? || r.value.isDirectory ==> o.after == v)
  {
    var r := ParsePath(View(v), path, None);
    if r.Some? && !r.value.isDirectory {
      WriteShape(v, t, path, r.value, bytes);
    }
  }

  // ----- what every write keeps -----

  lemma SizedDirs(v1: Volume, w: Volume, dir: nat, j: nat, size: u32)
    requires VolumeOk(v1) && InRange(v1, dir) && Sized(v1, w, dir, j, size)
    ensures VolumeOk(w) && w.fat == v1.fat && w.root == v1.root
    ensures Dir(w, dir) == Dir(v1, dir)[j := Resized(Dir(v1, dir)[j], size)]
    ensures forall d: nat :: d != dir ==> Dir(w, d) == Dir(v1, d)
    ensures forall d: nat :: Similar(Dir(v1, d), Dir(w, d))
  {
    PutSlotDir(v1, dir, j, Resized(Dir(v1, dir)[j], size));
    ResizedFields(Dir(v1, dir)[j], size);
  }

  lemma SizedKeeps(v1: Volume, t: Tree, w: Volume, dir: nat, j: nat, size: u32)
    requires Holds(v1, t) && dir in t.depth && Sized(v1, w, dir, j, size)
    ensures Holds(w, t)
  {
    assert NodeOk(v1, t, dir);
    SizedDirs(v1, w, dir, j, size);
    ChainsSame(v1, t, w);
    SimilarKeeps(v1, t, w);
    HoldsKept(v1, t, w);
  }

  lemma WriteToKeeps(v: Volume, t: Tree, path: Text, f: FileInfo, bytes: seq<byte>)
    requires Holds(v, t) && LeadsTo(v, path, f)
    ensures Holds(WriteTo(v, path, f, bytes).after, t)
  {
    WriteShape(v, t, path, f, bytes);
    WriteTargetInTree(v, t, path, f);
    var v1 := WriteBytes(v, f.startCluster, bytes);
    WriteBytesStored(v, f.startCluster, bytes);
    StoredKeeps(v, t, v1, f.startCluster, bytes);
    if Matches(v, path) {
      SizedKeeps(v1, t, WriteTo(v, path, f, bytes).after, SizeDir(View(v), path), SizeSlot(v, path),
        Min(|bytes|, v.clusterSize));
    }
  }

  /** Every write, successful or not, keeps the tree. */
  lemma WriteKeeps(v: Volume, t: Tree, path: Text, bytes: seq<byte>)
    requires Holds(v, t) && CanWrite(v, path)
    ensures Holds(WriteFile(v, path, bytes).after, t)
  {
    var r := ParsePath(View(v), path, None);
    if r.Some? && !r.value.isDirectory {
      WriteToKeeps(v, t, path, r.value, bytes);
    }
  }
}
