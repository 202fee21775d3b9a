/** `create_file` and `mkdir`: when they succeed, what they insert, and what they leave alone. */
module Creation {
  import opened Bytes
  import opened Text
  import opened ShortName
  import opened Directory
  import opened Paths
  import opened FatVolume
  import opened Edits
  import opened Tree
  import opened Keeping
  import opened Growth
  import opened Resolution

  /** The parent path does not lead to an entry without a cluster, on which the code stops. */
  predicate ParentHasCluster(v: Volume, parentPath: Text) {
    TargetDir(View(v), parentPath).Some? ==> TargetDir(View(v), parentPath).value != 0
  }

  /** The code does not check that the parent is a directory; callers must. */
  predicate ParentIsDirectory(v: Volume, parentPath: Text) {
    parentPath == [] || parentPath == [SLASH] ||
    match ParsePath(View(v), parentPath, None)
    case None => true
    case Some(f) => f.isDirectory
  }

  /** The first byte of the short name is not that of an end or deletion mark. */
  predicate NameOk(name: Text) {
    FormatTo83(name).Some? ==> FormatTo83(name).value[0] != 0x00 && FormatTo83(name).value[0] != 0xE5
  }

  /** An ASCII name is such a name exactly if it does not start with NUL. */
  lemma AsciiNameOk(name: Text)
    requires Ascii(name)
    ensures NameOk(name) <==> FormatTo83(name).None? || name[0] != 0
  {
    if FormatTo83(name).Some? {
      FormatIsShortName(name);
    }
  }

  lemma TargetInTree(v: Volume, t: Tree, parentPath: Text)
    requires Holds(v, t) && ParentIsDirectory(v, parentPath) && TargetDir(View(v), parentPath).Some?
    ensures TargetDir(View(v), parentPath).value in t.depth
  {
    if parentPath != [] && parentPath != [SLASH] {
      TreeClosed(v, t);
      ResolvedInside(View(v), t.depth.Keys, v.root, Parts(parentPath));
    }
  }

  /** The volume after `allocate_cluster`. */
  function Allocated(v: Volume, c: nat): Volume
    requires c < |v.fat|
  {
    SetLink(v, c, EOC)
  }

  lemma AllocatedTaken(v: Volume)
    requires VolumeOk(v) && Candidate(v).Some?
    ensures Taken(v, Allocated(v, Candidate(v).value), Candidate(v).value)
  {
    SetLinkLinks(v, Candidate(v).value, EOC);
  }

  /** Clusters other than `p` and `c` keep their bytes. */
  predicate BytesKept(v: Volume, w: Volume, p: nat, c: nat) {
    |w.data| == |v.data| && forall d :: 0 <= d < |v.data| && d != p && d != c ==> w.data[d] == v.data[d]
  }

  /** The volume `mkdir` reaches before it looks at the name. */
  function WithDirectory(v: Volume, c: u32, p: u32): Volume
    requires VolumeOk(v) && InRange(v, c)
  {
    SetData(Allocated(v, c), c, FreshDirectory(v, c, p))
  }

  /** Taking `c` and rewriting its bytes is still only taking `c`. */
  lemma WithDirectoryTaken(v: Volume, c: u32, p: u32)
    requires VolumeOk(v) && Candidate(v) == Some(c)
    ensures var w := WithDirectory(v, c, p);
            && Taken(v, w, c) && w.fat == Allocated(v, c).fat && BytesKept(v, w, c, c)
            && forall d: nat :: d != c ==> Dir(w, d) == Dir(v, d)
  {
    AllocatedTaken(v);
    SetDataOk(Allocated(v, c), c, FreshDirectory(v, c, p));
  }

  predicate EmptyDir(w: Volume, c: nat, p: nat) {
    NewDir(w, c, p) && Size(Dir(w, c)[0]) == 0 && Size(Dir(w, c)[1]) == 0
  }

  lemma FreshIsEmptyDir(v: Volume, w: Volume, c: u32, p: u32)
    requires VolumeOk(v) && InRange(v, c) && c < |w.data| && w.data[c] == FreshDirectory(v, c, p)
    requires w.root == v.root
    ensures EmptyDir(w, c, p)
  {
    FreshSlots(v, c, p);
    PrintDots();
    DotSlot(DOT_SHORT, c);
    DotSlot(DOT_DOT_SHORT, if p == v.root then 0 else p);
  }

  lemma DotSlot(short: seq<byte>, c: u32)
    requires |short| == 11 && short[0] == '.' as int
    ensures var s := NewSlot(short, ATTR_DIRECTORY, c);
            Plain(s) && s[..11] == short && IsDirectory(s) && Start(s) == c && Size(s) == 0
  {
    NewSlotFields(short, ATTR_DIRECTORY, c);
  }

  /** Adding an entry to a volume in which `c` was just taken grows the tree. */
  lemma AddEntryGrows(v: Volume, t: Tree, v1: Volume, p: nat, c: nat, s: Slot)
    requires Holds(v, t) && p in t.depth && Taken(v, v1, c)
    requires forall d: nat :: d != c ==> Dir(v1, d) == Dir(v, d)
    requires Plain(s) && Start(s) == c && (IsDirectory(s) ==> NewDir(v1, c, p))
    requires AddEntry(v1, p, s).error.None?
    ensures Grown(v, AddEntry(v1, p, s).after, p, FreeSlot(Dir(v, p), 0), s, c)
  {
    FreeIsUnowned(v, t, c);
    assert NodeOk(v, t, p);
    PutSlotDir(v1, p, FreeSlot(Dir(v, p), 0), s);
  }

  // ----- what stays the same -----

  /** Every directory and file but `p` keeps all the bytes of its chain. */
  ghost predicate ContentsKept(v: Volume, t: Tree, w: Volume, p: nat) {
    forall s :: s in t.chain && s != p ==> ChainBytes(w, t.chain[s]) == ChainBytes(v, t.chain[s])
  }

  lemma ContentsUntouched(v: Volume, t: Tree, w: Volume, p: nat, c: nat)
    requires Holds(v, t) && p in t.chain && c < |v.fat| && Link(v, c) == 0 && BytesKept(v, w, p, c)
    ensures ContentsKept(v, t, w, p)
  {
    FreeIsUnowned(v, t, c);
    forall s | s in t.chain && s != p
      ensures ChainBytes(w, t.chain[s]) == ChainBytes(v, t.chain[s])
    {
      assert ChainOk(v, t.chain, p);
      assert Disjoint(t.chain, s, p);
      assert forall i :: 0 <= i < |t.chain[s]| ==> t.chain[s][i] != t.chain[p][0];
      ChainBytesKept(v, w, t.chain[s]);
    }
  }

  // ----- success -----

  /** `now` is `was` with `f` inserted at position `k`. */
  predicate Inserted(was: seq<FileInfo>, now: seq<FileInfo>, k: nat, f: FileInfo) {
    k <= |was| && now == was[..k] + [f] + was[k..]
  }

  /** The listing position of the slot a new entry of `p` takes. */
  function InsertAt(v: Volume, p: nat): nat {
    |Listing(Dir(v, p)[..FreeSlot(Dir(v, p), 0)])|
  }

  /** The dot entries of a directory at `c` in `p`; the root is written as 0. */
  function DotEntries(v: Volume, c: u32, p: nat): seq<FileInfo>
    requires p < 0x1_0000_0000
  {
    [FileInfo(DOT_NAME, true, 0, c), FileInfo(DOT_DOT_NAME, true, 0, if p == v.root then 0 else p)]
  }

  /** From `v` to `w`, directory `p` gained exactly one entry, under the printed short name, with size 0
      and cluster `c`; every other directory lists the same; every other chain has the same bytes;
      a new directory lists exactly `.` and `..`; and the volume holds the grown tree. */
  ghost predicate EntryAdded(v: Volume, t: Tree, w: Volume, p: nat, name: Text, isDirectory: bool, c: u32)
    requires p in t.depth && FormatTo83(name).Some?
  {
    && Inserted(List(v, p), List(w, p), InsertAt(v, p), FileInfo(Print(FormatTo83(name).value), isDirectory, 0, c))
    && (forall d :: d in t.depth && d != p ==> List(w, d) == List(v, d))
    && ContentsKept(v, t, w, p)
    && Holds(w, GrowTree(t, p, c, isDirectory))
    && (isDirectory ==> List(w, c) == DotEntries(v, c, p))
  }

  lemma GrownInserts(v: Volume, t: Tree, w: Volume, p: nat, i: nat, s: Slot, c: nat)
    requires Holds(v, t) && p in t.depth && Grown(v, w, p, i, s, c) && i == FreeSlot(Dir(v, p), 0)
    ensures Inserted(List(v, p), List(w, p), InsertAt(v, p), Info(s, IDLE))
    ensures forall d :: d in t.depth && d != p ==> List(w, d) == List(v, d)
  {
    GrownPrefix(v, t, w, p, i, s, c);
    ListingInsert(Dir(v, p), i, s);
    forall d | d in t.depth && d != p
      ensures List(w, d) == List(v, d)
    {
      OtherDirs(v, t, w, p, i, s, c, d);
    }
  }

  lemma NewDirListing(w: Volume, c: u32, p: u32)
    requires EmptyDir(w, c, p)
    ensures List(w, c) == DotEntries(w, c, p)
  {
    DottedListing(w, c, p);
    PlainPair(Dir(w, c));
    assert Listing(Dir(w, c)[2..]) == [];
  }

  /** The state both operations reach before they look for a free slot. */
  ghost predicate Prepared(v: Volume, t: Tree, v1: Volume, p: u32, c: u32, attr: byte) {
    && Holds(v, t) && p in t.depth && Taken(v, v1, c)
    && (forall d: nat :: d != c ==> Dir(v1, d) == Dir(v, d))
    && BytesKept(v, v1, c, c)
    && (attr == ATTR_ARCHIVE || attr == ATTR_DIRECTORY)
    && (attr == ATTR_DIRECTORY ==> EmptyDir(v1, c, p))
  }

  lemma PreparedGrows(v: Volume, t: Tree, v1: Volume, p: u32, c: u32, attr: byte, name: Text)
    requires Prepared(v, t, v1, p, c, attr) && NameOk(name) && FormatTo83(name).Some?
    requires AddEntry(v1, p, NewSlot(FormatTo83(name).value, attr, c)).error.None?
    ensures var s := NewSlot(FormatTo83(name).value, attr, c);
            && Grown(v, AddEntry(v1, p, s).after, p, FreeSlot(Dir(v, p), 0), s, c)
            && Info(s, IDLE) == FileInfo(Print(FormatTo83(name).value), attr == ATTR_DIRECTORY, 0, c)
            && IsDirectory(s) == (attr == ATTR_DIRECTORY)
  {
    NewSlotInfo(FormatTo83(name).value, attr, c);
    NewSlotFields(FormatTo83(name).value, attr, c);
    AddEntryGrows(v, t, v1, p, c, NewSlot(FormatTo83(name).value, attr, c));
  }

  lemma AddEntryKeepsEmptyDir(v1: Volume, p: u32, c: u32, s: Slot)
    requires c != p && EmptyDir(v1, c, p) && AddEntry(v1, p, s).error.None?
    ensures List(AddEntry(v1, p, s).after, c) == DotEntries(v1, c, p)
  {
    NewDirListing(v1, c, p);
  }

  lemma PreparedDots(v: Volume, t: Tree, v1: Volume, p: u32, c: u32, s: Slot)
    requires Prepared(v, t, v1, p, c, ATTR_DIRECTORY) && AddEntry(v1, p, s).error.None?
    ensures List(AddEntry(v1, p, s).after, c) == DotEntries(v, c, p)
  {
    FreeIsUnowned(v, t, c);
    AddEntryKeepsEmptyDir(v1, p, c, s);
  }

  lemma AddEntryBytes(v: Volume, v1: Volume, p: nat, c: nat, s: Slot)
    requires BytesKept(v, v1, c, c) && AddEntry(v1, p, s).error.None?
    ensures BytesKept(v, AddEntry(v1, p, s).after, p, c)
  {
  }

  lemma PreparedAdds(v: Volume, t: Tree, v1: Volume, p: u32, c: u32, attr: byte, name: Text)
    requires Prepared(v, t, v1, p, c, attr) && NameOk(name) && FormatTo83(name).Some?
    requires AddEntry(v1, p, NewSlot(FormatTo83(name).value, attr, c)).error.None?
    ensures var s := NewSlot(FormatTo83(name).value, attr, c);
            EntryAdded(v, t, AddEntry(v1, p, s).after, p, name, attr == ATTR_DIRECTORY, c)
  {
    var s := NewSlot(FormatTo83(name).value, attr, c);
    var w := AddEntry(v1, p, s).after;
    PreparedGrows(v, t, v1, p, c, attr, name);
    GrownInserts(v, t, w, p, FreeSlot(Dir(v, p), 0), s, c);
    HoldsGrown(v, t, w, p, FreeSlot(Dir(v, p), 0), s, c);
    AddEntryBytes(v, v1, p, c, s);
    ContentsUntouched(v, t, w, p, c);
    if attr == ATTR_DIRECTORY {
      PreparedDots(v, t, v1, p, c, s);
    }
  }

  lemma CreatePrepared(v: Volume, t: Tree, p: u32)
    requires Holds(v, t) && p in t.depth && Candidate(v).Some?
    ensures Prepared(v, t, Allocated(v, Candidate(v).value), p, Candidate(v).value, ATTR_ARCHIVE)
  {
    AllocatedTaken(v);
  }

  lemma MkdirPrepared(v: Volume, t: Tree, p: u32)
    requires Holds(v, t) && p in t.depth && Candidate(v).Some?
    ensures Prepared(v, t, WithDirectory(v, Candidate(v).value, p), p, Candidate(v).value, ATTR_DIRECTORY)
  {
    var c := Candidate(v).value;
    WithDirectoryTaken(v, c, p);
    FreshIsEmptyDir(v, WithDirectory(v, c, p), c, p);
  }

  /** A successful `create_file` adds exactly one file entry and nothing else. */
  lemma CreateFileAdds(v: Volume, t: Tree, parentPath: Text, name: Text)
    requires Holds(v, t) && ParentIsDirectory(v, parentPath) && NameOk(name)
    requires CreateFile(v, parentPath, name).error.None?
    ensures TargetDir(View(v), parentPath).Some? && TargetDir(View(v), parentPath).value in t.depth
    ensures FormatTo83(name).Some? && Candidate(v).Some?
    ensures var p, c := TargetDir(View(v), parentPath).value, Candidate(v).value;
            EntryAdded(v, t, CreateFile(v, parentPath, name).after, p, name, false, c)
  {
    TargetInTree(v, t, parentPath);
    var p, c := TargetDir(View(v), parentPath).value, Candidate(v).value;
    CreatePrepared(v, t, p);
    PreparedAdds(v, t, Allocated(v, c), p, c, ATTR_ARCHIVE, name);
  }

  lemma CreateFileGrows(v: Volume, t: Tree, parentPath: Text, name: Text)
    requires Holds(v, t) && ParentIsDirectory(v, parentPath) && NameOk(name)
    requires CreateFile(v, parentPath, name).error.None?
    ensures TargetDir(View(v), parentPath).Some? && FormatTo83(name).Some? && Candidate(v).Some?
    ensures var p, c := TargetDir(View(v), parentPath).value, Candidate(v).value;
            var s := NewSlot(FormatTo83(name).value, ATTR_ARCHIVE, c);
            Grown(v, CreateFile(v, parentPath, name).after, p, FreeSlot(Dir(v, p), 0), s, c)
  {
    TargetInTree(v, t, parentPath);
    var p, c := TargetDir(View(v), parentPath).value, Candidate(v).value;
    CreatePrepared(v, t, p);
    PreparedGrows(v, t, Allocated(v, c), p, c, ATTR_ARCHIVE, name);
  }

  /** A successful `mkdir` adds exactly one directory entry and an empty directory with its dot entries. */
  lemma MkdirAdds(v: Volume, t: Tree, parentPath: Text, name: Text)
    requires Holds(v, t) && ParentIsDirectory(v, parentPath) && NameOk(name)
    requires Mkdir(v, parentPath, name).error.None?
    ensures TargetDir(View(v), parentPath).Some? && TargetDir(View(v), parentPath).value in t.depth
    ensures FormatTo83(name).Some? && Candidate(v).Some?
    ensures var p, c := TargetDir(View(v), parentPath).value, Candidate(v).value;
            EntryAdded(v, t, Mkdir(v, parentPath, name).after, p, name, true, c)
  {
    TargetInTree(v, t, parentPath);
    var p, c := TargetDir(View(v), parentPath).value, Candidate(v).value;
    MkdirPrepared(v, t, p);
    PreparedAdds(v, t, WithDirectory(v, c, p), p, c, ATTR_DIRECTORY, name);
  }

  /** Every successful `mkdir`, whatever the name, leaves a new directory that lists exactly `.` and `..`. */
  lemma MkdirNewDir(v: Volume, t: Tree, parentPath: Text, name: Text)
    requires Holds(v, t) && ParentIsDirectory(v, parentPath) && Mkdir(v, parentPath, name).error.None?
    ensures TargetDir(View(v), parentPath).Some? && Candidate(v).Some?
    ensures var p, c := TargetDir(View(v), parentPath).value, Candidate(v).value;
            List(Mkdir(v, parentPath, name).after, c) == DotEntries(v, c, p)
  {
    TargetInTree(v, t, parentPath);
    var p, c := TargetDir(View(v), parentPath).value, Candidate(v).value;
    MkdirPrepared(v, t, p);
    PreparedDots(v, t, WithDirectory(v, c, p), p, c, NewSlot(FormatTo83(name).value, ATTR_DIRECTORY, c));
  }

  // ----- names that start like a deletion mark -----

  /** The first byte of the short name is that of a deletion mark. */
  predicate StartsDeleted(name: Text) { FormatTo83(name).Some? && FormatTo83(name).value[0] == 0xE5 }

  /** From `v` to `w` every listing is the same and the tree is kept; only the unlisted bytes of `p`, and
      a cluster taken for nothing, differ. */
  ghost predicate Unlisted(v: Volume, t: Tree, w: Volume, p: nat) {
    && Holds(w, t)
    && (forall d :: d in t.depth ==> List(w, d) == List(v, d))
    && ContentsKept(v, t, w, p)
    && FatKept(v, w)
  }

  lemma DeletedSlotKeeps(v: Volume, t: Tree, p: nat, i: nat, s: Slot)
    requires Holds(v, t) && p in t.depth && i == FreeSlot(Dir(v, p), 0) < |Dir(v, p)| && IsDeleted(s)
    ensures var w := PutSlot(v, p, i, s);
            Holds(w, t) && forall d :: d in t.depth ==> List(w, d) == List(v, d)
  {
    assert NodeOk(v, t, p);
    PutSlotDir(v, p, i, s);
    var w := PutSlot(v, p, i, s);
    assert NoEnd(Dir(v, p), i);
    DeletedAlike(Dir(v, p), i, s);
    ChainsSame(v, t, w);
    forall d | d in t.depth
      ensures Alike(Dir(v, d), Dir(w, d))
    {
      if d != p {
        assert NodeOk(v, t, d);
        SimilarAlike(Dir(v, d), Dir(w, d));
      }
    }
    HoldsKept(v, t, w);
  }

  lemma PreparedVanishes(v: Volume, t: Tree, v1: Volume, p: u32, c: u32, attr: byte, s: Slot)
    requires Prepared(v, t, v1, p, c, attr) && Candidate(v) == Some(c) && v1.fat == Allocated(v, c).fat
    requires IsDeleted(s) && AddEntry(v1, p, s).error.None?
    ensures Unlisted(v, t, AddEntry(v1, p, s).after, p)
  {
    TakenUnharmed(v, t, v1, c);
    DeletedSlotKeeps(v1, t, p, FreeSlot(Dir(v1, p), 0), s);
    AddEntryBytes(v, v1, p, c, s);
    ContentsUntouched(v, t, AddEntry(v1, p, s).after, p, c);
  }

  /** A successful `create_file` or `mkdir` of such a name changes no listing and keeps the tree: the entry
      it adds reads as deleted. */
  lemma DeletedNameVanishes(v: Volume, t: Tree, parentPath: Text, name: Text)
    requires Holds(v, t) && ParentIsDirectory(v, parentPath) && StartsDeleted(name)
    ensures CreateFile(v, parentPath, name).error.None? ==>
              && TargetDir(View(v), parentPath).Some?
              && Unlisted(v, t, CreateFile(v, parentPath, name).after, TargetDir(View(v), parentPath).value)
    ensures Mkdir(v, parentPath, name).error.None? ==>
              && TargetDir(View(v), parentPath).Some?
              && Unlisted(v, t, Mkdir(v, parentPath, name).after, TargetDir(View(v), parentPath).value)
  {
    if TargetDir(View(v), parentPath).Some? && Candidate(v).Some? {
      TargetInTree(v, t, parentPath);
      var p, c, short := TargetDir(View(v), parentPath).value, Candidate(v).value, FormatTo83(name).value;
      NewSlotFields(short, ATTR_ARCHIVE, c);
      NewSlotFields(short, ATTR_DIRECTORY, c);
      CreatePrepared(v, t, p);
      MkdirPrepared(v, t, p);
      WithDirectoryTaken(v, c, p);
      if CreateFile(v, parentPath, name).error.None? {
        PreparedVanishes(v, t, Allocated(v, c), p, c, ATTR_ARCHIVE, NewSlot(short, ATTR_ARCHIVE, c));
      }
      if Mkdir(v, parentPath, name).error.None? {
        PreparedVanishes(v, t, WithDirectory(v, c, p), p, c, ATTR_DIRECTORY, NewSlot(short, ATTR_DIRECTORY, c));
      }
    }
  }

  // ----- failure -----

  /** From `v` to `w` nothing reachable changed: the same tree, listings and chain bytes. At most one
      FAT word differs: the allocator's candidate went from free to end of chain. */
  ghost predicate Unharmed(v: Volume, t: Tree, w: Volume) {
    && Holds(w, t)
    && (forall d :: d in t.depth ==> List(w, d) == List(v, d))
    && (forall s :: s in t.chain ==> ChainBytes(w, t.chain[s]) == ChainBytes(v, t.chain[s]))
    && FatKept(v, w)
  }

  predicate FatKept(v: Volume, w: Volume) {
    && VolumeOk(v)
    && (w.fat == v.fat || (Candidate(v).Some? && w.fat == Allocated(v, Candidate(v).value).fat))
  }

  /** Taking a cluster, with or without rewriting its bytes, harms nothing. */
  lemma TakenUnharmed(v: Volume, t: Tree, w: Volume, c: nat)
    requires Holds(v, t) && Candidate(v) == Some(c) && Taken(v, w, c)
    requires BytesKept(v, w, c, c) && w.fat == Allocated(v, c).fat
    ensures Unharmed(v, t, w)
  {
    FreeIsUnowned(v, t, c);
    SameSlots(v, t, w, c);
    Growth.ChainsTaken(v, t, w, c);
    SimilarKeeps(v, t, w);
    HoldsKept(v, t, w);
    forall s | s in t.chain
      ensures ChainBytes(w, t.chain[s]) == ChainBytes(v, t.chain[s])
    {
      ChainBytesKept(v, w, t.chain[s]);
    }
  }

  lemma SameSlots(v: Volume, t: Tree, w: Volume, c: nat)
    requires c !in t.depth && BytesKept(v, w, c, c)
    ensures forall d :: d in t.depth ==> Dir(w, d) == Dir(v, d) && Similar(Dir(v, d), Dir(w, d))
  {
  }

  lemma SelfUnharmed(v: Volume, t: Tree)
    requires Holds(v, t)
    ensures Unharmed(v, t, v)
  {
  }

  /** What a failing `create_file` leaves, and when it fails. */
  lemma CreateFileShape(v: Volume, parentPath: Text, name: Text)
    requires VolumeOk(v)
    ensures var o := CreateFile(v, parentPath, name);
            && (o.error.Some? && o.after != v ==> Candidate(v).Some? && o.after == Allocated(v, Candidate(v).value))
            && (o.error.None? <==>
                  && TargetDir(View(v), parentPath).Some? && FormatTo83(name).Some? && Candidate(v).Some?
                  && HasRoom(v, TargetDir(View(v), parentPath).value))
  {
    if TargetDir(View(v), parentPath).Some? && Candidate(v).Some? {
      var p := TargetDir(View(v), parentPath).value;
      assert Dir(Allocated(v, Candidate(v).value), p) == Dir(v, p);
      RoomIsFreeSlot(v, p);
    }
  }

  /** What a failing `mkdir` leaves, and when it fails. */
  lemma MkdirShape(v: Volume, parentPath: Text, name: Text)
    requires VolumeOk(v) && (TargetDir(View(v), parentPath).Some? ==> TargetDir(View(v), parentPath) != Candidate(v))
    ensures var o := Mkdir(v, parentPath, name);
            && (o.error.Some? && o.after != v ==>
                  && TargetDir(View(v), parentPath).Some? && Candidate(v).Some?
                  && o.after == WithDirectory(v, Candidate(v).value, TargetDir(View(v), parentPath).value))
            && (o.error.None? <==>
                  && TargetDir(View(v), parentPath).Some? && FormatTo83(name).Some? && Candidate(v).Some?
                  && HasRoom(v, TargetDir(View(v), parentPath).value))
  {
    if TargetDir(View(v), parentPath).Some? && Candidate(v).Some? {
      var c, p := Candidate(v).value, TargetDir(View(v), parentPath).value;
      assert Dir(WithDirectory(v, c, p), p) == Dir(v, p);
      RoomIsFreeSlot(v, p);
    }
  }

  /** There is a free slot in the directory. */
  predicate HasRoom(v: Volume, p: nat) {
    exists i :: 0 <= i < |Dir(v, p)| && IsFree(Dir(v, p)[i])
  }

  lemma RoomIsFreeSlot(v: Volume, p: nat)
    ensures HasRoom(v, p) <==> FreeSlot(Dir(v, p), 0) < |Dir(v, p)|
  {
  }

  lemma DirectoryHasCluster(v: Volume, t: Tree, parentPath: Text)
    requires Holds(v, t) && ParentIsDirectory(v, parentPath)
    ensures ParentHasCluster(v, parentPath)
  {
    if TargetDir(View(v), parentPath).Some? {
      TargetInTree(v, t, parentPath);
      assert NodeOk(v, t, TargetDir(View(v), parentPath).value);
    }
  }

  /** The cluster that the parent path leads to, of a directory or a file, exists. */
  lemma TargetInRange(v: Volume, t: Tree, parentPath: Text)
    requires Holds(v, t) && ParentHasCluster(v, parentPath) && TargetDir(View(v), parentPath).Some?
    ensures InRange(v, TargetDir(View(v), parentPath).value)
  {
    var p := TargetDir(View(v), parentPath).value;
    if ParentIsDirectory(v, parentPath) {
      TargetInTree(v, t, parentPath);
      assert NodeOk(v, t, p);
    } else {
      var d, i := FileTarget(v, t, v.root, Parts(parentPath), ParsePath(View(v), parentPath, None).value);
      assert ChainOk(v, t.chain, p);
    }
  }

  /** A failing `create_file` harms nothing. */
  lemma CreateFileFails(v: Volume, t: Tree, parentPath: Text, name: Text)
    requires Holds(v, t) && ParentHasCluster(v, parentPath) && CreateFile(v, parentPath, name).error.Some?
    ensures Unharmed(v, t, CreateFile(v, parentPath, name).after)
  {
    CreateFileShape(v, parentPath, name);
    if CreateFile(v, parentPath, name).after == v {
      SelfUnharmed(v, t);
    } else {
      AllocatedTaken(v);
      TakenUnharmed(v, t, Allocated(v, Candidate(v).value), Candidate(v).value);
    }
  }

  lemma TargetIsNotCandidate(v: Volume, t: Tree, parentPath: Text)
    requires Holds(v, t) && TargetDir(View(v), parentPath).Some? && ParentHasCluster(v, parentPath)
    ensures TargetDir(View(v), parentPath) != Candidate(v)
  {
    if Candidate(v).Some? {
      FreeIsUnowned(v, t, Candidate(v).value);
      if ParentIsDirectory(v, parentPath) {
        TargetInTree(v, t, parentPath);
      } else {
        var d, i := FileTarget(v, t, v.root, Parts(parentPath), ParsePath(View(v), parentPath, None).value);
      }
    }
  }

  /** A failing `mkdir` harms nothing. */
  lemma MkdirFails(v: Volume, t: Tree, parentPath: Text, name: Text)
    requires Holds(v, t) && ParentHasCluster(v, parentPath) && Mkdir(v, parentPath, name).error.Some?
    ensures Unharmed(v, t, Mkdir(v, parentPath, name).after)
  {
    if TargetDir(View(v), parentPath).Some? {
      TargetIsNotCandidate(v, t, parentPath);
    }
    MkdirShape(v, parentPath, name);
    if Mkdir(v, parentPath, name).after == v {
      SelfUnharmed(v, t);
    } else {
      var c, p := Candidate(v).value, TargetDir(View(v), parentPath).value;
      WithDirectoryTaken(v, c, p);
      TakenUnharmed(v, t, WithDirectory(v, c, p), c);
    }
  }

  /** Both operations succeed exactly when the parent resolves, the name has a base, a cluster is free
      and the parent has a free slot. */
  lemma CreateSucceedsIff(v: Volume, t: Tree, parentPath: Text, name: Text)
    requires Holds(v, t) && ParentHasCluster(v, parentPath)
    ensures var ready := && TargetDir(View(v), parentPath).Some? && FormatTo83(name).Some?
                         && FreeClusters(v) != {} && HasRoom(v, TargetDir(View(v), parentPath).value);
            && (CreateFile(v, parentPath, name).error.None? <==> ready)
            && (Mkdir(v, parentPath, name).error.None? <==> ready)
  {
    AllocateLeast(v);
    if TargetDir(View(v), parentPath).Some? {
      TargetIsNotCandidate(v, t, parentPath);
    }
    CreateFileShape(v, parentPath, name);
    MkdirShape(v, parentPath, name);
  }

  // ----- which error -----

  /** From `v` to `w` the least free cluster was marked as an end of chain, and no other FAT word changed. */
  predicate LeastTaken(v: Volume, w: Volume)
    requires VolumeOk(v)
  {
    && |w.fat| == |v.fat|
    && exists c :: c in FreeClusters(v) && (forall k :: k in FreeClusters(v) ==> c <= k) && OnlyWord(v, w, c)
  }

  predicate OnlyWord(v: Volume, w: Volume, c: nat) {
    && c < |v.fat| == |w.fat| && w.fat[c] as int % 0x1000_0000 == 0x0FFF_FFFF
    && forall k :: 0 <= k < |v.fat| && k != c ==> w.fat[k] == v.fat[k]
  }

  lemma AllocatedLeast(v: Volume, w: Volume)
    requires VolumeOk(v) && Candidate(v).Some? && w.fat == Allocated(v, Candidate(v).value).fat
    ensures LeastTaken(v, w) && FreeClusters(v) != {}
  {
    AllocateLeast(v);
    assert OnlyWord(v, w, Candidate(v).value);
  }

  /** The error of `create_file` by its cause, in the order in which the causes are noticed. Only a full directory
      is noticed after a cluster was taken; the bytes of all clusters stay. */
  lemma CreateFileErrors(v: Volume, t: Tree, parentPath: Text, name: Text)
    requires Holds(v, t) && ParentHasCluster(v, parentPath)
    ensures var o := CreateFile(v, parentPath, name);
            && o.error == (if TargetDir(View(v), parentPath).None? then Some(ParentNotFound)
                           else if FormatTo83(name).None? then Some(InvalidName)
                           else if FreeClusters(v) == {} then Some(DiskFull)
                           else if !HasRoom(v, TargetDir(View(v), parentPath).value) then Some(NoSpace)
                           else None)
            && (o.error.Some? && o.error != Some(NoSpace) ==> o.after == v)
            && (o.error == Some(NoSpace) ==> o.after.data == v.data && LeastTaken(v, o.after))
  {
    AllocateLeast(v);
    CreateFileShape(v, parentPath, name);
    if Candidate(v).Some? {
      AllocatedLeast(v, Allocated(v, Candidate(v).value));
    }
  }

  /** The same for `mkdir`, which notices a bad name only after it has taken a cluster and written a directory
      into it. */
  lemma MkdirErrors(v: Volume, t: Tree, parentPath: Text, name: Text)
    requires Holds(v, t) && ParentHasCluster(v, parentPath)
    ensures var o := Mkdir(v, parentPath, name);
            && o.error == (if TargetDir(View(v), parentPath).None? then Some(ParentNotFound)
                           else if FreeClusters(v) == {} then Some(DiskFull)
                           else if FormatTo83(name).None? then Some(InvalidName)
                           else if !HasRoom(v, TargetDir(View(v), parentPath).value) then Some(NoSpace)
                           else None)
            && (o.error == Some(ParentNotFound) || o.error == Some(DiskFull) ==> o.after == v)
            && (o.error == Some(InvalidName) || o.error == Some(NoSpace) ==> LeastTaken(v, o.after))
  {
    AllocateLeast(v);
    if TargetDir(View(v), parentPath).Some? {
      TargetIsNotCandidate(v, t, parentPath);
    }
    MkdirShape(v, parentPath, name);
    if TargetDir(View(v), parentPath).Some? && Candidate(v).Some? {
      AllocatedLeast(v, WithDirectory(v, Candidate(v).value, TargetDir(View(v), parentPath).value));
    }
  }

  // ----- all cases -----

  /** Files keep the bytes of their chains. */
  ghost predicate FilesKept(v: Volume, t: Tree, w: Volume) {
    forall s :: s in t.chain && s !in t.depth ==> ChainBytes(w, t.chain[s]) == ChainBytes(v, t.chain[s])
  }

  /** The short name does not start with NUL, which would be read as the end of the directory. */
  predicate NotEnding(name: Text) { FormatTo83(name).Some? ==> FormatTo83(name).value[0] != 0x00 }

  /** From `v` to `w` one entry was added, or one that reads as deleted, or none. */
  ghost predicate Effect(v: Volume, t: Tree, w: Volume, name: Text, isDirectory: bool) {
    && w.root == v.root
    && (|| Unharmed(v, t, w)
        || (exists p :: p in t.depth && Unlisted(v, t, w, p))
        || (exists p, c: u32 :: p in t.depth && AddedIn(v, t, w, p, name, isDirectory, c)))
  }

  lemma RootsKept(v: Volume, parentPath: Text, name: Text)
    requires VolumeOk(v)
    ensures var w := CreateFile(v, parentPath, name).after; w.root == v.root && w.clusterSize == v.clusterSize
    ensures var w := Mkdir(v, parentPath, name).after; w.root == v.root && w.clusterSize == v.clusterSize
  {
    if TargetDir(View(v), parentPath).Some? && FormatTo83(name).Some? && Candidate(v).Some? {
      var p, c, short := TargetDir(View(v), parentPath).value, Candidate(v).value, FormatTo83(name).value;
      AddKeepsRoot(Allocated(v, c), p, NewSlot(short, ATTR_ARCHIVE, c));
      AddKeepsRoot(WithDirectory(v, c, p), p, NewSlot(short, ATTR_DIRECTORY, c));
    }
  }

  lemma AddKeepsRoot(v: Volume, p: nat, s: Slot)
    ensures AddEntry(v, p, s).after.root == v.root && AddEntry(v, p, s).after.clusterSize == v.clusterSize
  {
  }

  ghost predicate AddedIn(v: Volume, t: Tree, w: Volume, p: nat, name: Text, isDirectory: bool, c: u32)
    requires p in t.depth
  {
    FormatTo83(name).Some? && c < |v.fat| && Link(v, c) == 0 && EntryAdded(v, t, w, p, name, isDirectory, c)
  }

  lemma CreateEffect(v: Volume, t: Tree, parentPath: Text, name: Text)
    requires Holds(v, t) && ParentIsDirectory(v, parentPath) && NotEnding(name)
    ensures Effect(v, t, CreateFile(v, parentPath, name).after, name, false)
  {
    RootsKept(v, parentPath, name);
    if CreateFile(v, parentPath, name).error.Some? {
      DirectoryHasCluster(v, t, parentPath);
      CreateFileFails(v, t, parentPath, name);
    } else if StartsDeleted(name) {
      DeletedNameVanishes(v, t, parentPath, name);
      TargetInTree(v, t, parentPath);
    } else {
      CreateFileAdds(v, t, parentPath, name);
      var p, c := TargetDir(View(v), parentPath).value, Candidate(v).value;
      assert AddedIn(v, t, CreateFile(v, parentPath, name).after, p, name, false, c);
    }
  }

  lemma MkdirEffect(v: Volume, t: Tree, parentPath: Text, name: Text)
    requires Holds(v, t) && ParentIsDirectory(v, parentPath) && NotEnding(name)
    ensures Effect(v, t, Mkdir(v, parentPath, name).after, name, true)
  {
    RootsKept(v, parentPath, name);
    if Mkdir(v, parentPath, name).error.Some? {
      DirectoryHasCluster(v, t, parentPath);
      MkdirFails(v, t, parentPath, name);
    } else if StartsDeleted(name) {
      DeletedNameVanishes(v, t, parentPath, name);
      TargetInTree(v, t, parentPath);
    } else {
      MkdirAdds(v, t, parentPath, name);
      var p, c := TargetDir(View(v), parentPath).value, Candidate(v).value;
      assert AddedIn(v, t, Mkdir(v, parentPath, name).after, p, name, true, c);
    }
  }
}
