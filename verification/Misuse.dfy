/** What `create_file` and `mkdir` do with a parent that is a file, and with a name that starts with NUL. */
module Misuse {
  import opened Bytes
  import opened Text
  import opened ShortName
  import opened Scanning
  import opened Directory
  import opened Paths
  import opened FatVolume
  import opened Edits
  import opened Tree
  import opened Keeping
  import opened Resolution
  import opened Creation
  import opened ReadBack

  // ----- a parent that is a file -----

  /** Putting an entry into a cluster changes its bytes, unless the slot already held just that entry. */
  lemma AddEntryChangesIff(v: Volume, p: nat, s: Slot)
    requires VolumeOk(v) && InRange(v, p) && AddEntry(v, p, s).error.None?
    ensures var i, w := FreeSlot(Dir(v, p), 0), AddEntry(v, p, s).after;
            i < |Dir(v, p)| && |w.data[p]| == |v.data[p]| && (w.data[p] == v.data[p] <==> Dir(v, p)[i] == s)
  {
    var i := FreeSlot(Dir(v, p), 0);
    SpliceSame(v.data[p], 32 * i, s);
    assert Dir(v, p)[i] == v.data[p][32 * i..32 * i + 32];
  }

  lemma SpliceSame(data: seq<byte>, at: nat, part: seq<byte>)
    requires at + |part| <= |data|
    ensures Splice(data, at, part) == data <==> data[at..at + |part|] == part
  {
    var now := Splice(data, at, part);
    assert now[at..at + |part|] == part;
    if data[at..at + |part|] == part {
      assert now == data[..at] + data[at..at + |part|] + data[at + |part|..];
    }
  }

  /** A chain whose first cluster differs, at equal length, has different bytes. */
  lemma ChainDiffers(v: Volume, w: Volume, ch: seq<nat>)
    requires ch != [] && ch[0] < |v.data| == |w.data|
    requires |w.data[ch[0]]| == |v.data[ch[0]]| && w.data[ch[0]] != v.data[ch[0]]
    ensures ChainBytes(w, ch) != ChainBytes(v, ch)
  {
    ChainStartsWith(v, ch);
    ChainStartsWith(w, ch);
    var n := |v.data[ch[0]]|;
    assert ChainBytes(w, ch)[..n] == w.data[ch[0]] && ChainBytes(v, ch)[..n] == v.data[ch[0]];
  }

  /** No chain holds a free cluster, so rewriting one changes no chain. */
  lemma FreeRewritten(v: Volume, t: Tree, w: Volume, c: nat)
    requires Holds(v, t) && c < |v.fat| && Link(v, c) == 0 && BytesKept(v, w, c, c)
    ensures FilesKept(v, t, w)
  {
    FreeIsUnowned(v, t, c);
    forall s | s in t.chain
      ensures ChainBytes(w, t.chain[s]) == ChainBytes(v, t.chain[s])
    {
      ChainBytesKept(v, w, t.chain[s]);
    }
  }

  /** The last step of both operations, in a directory or a file at `p`: all files keep their bytes exactly if
      `p` is a directory or the slot already held just that entry. */
  lemma AddSparesIff(v: Volume, t: Tree, v1: Volume, p: nat, c: nat, s: Slot)
    requires Holds(v, t) && p in t.chain && c < |v.fat| && Link(v, c) == 0
    requires VolumeOk(v1) && |v1.fat| == |v.fat| && BytesKept(v, v1, c, c) && AddEntry(v1, p, s).error.None?
    ensures FreeSlot(Dir(v, p), 0) < |Dir(v, p)|
    ensures FilesKept(v, t, AddEntry(v1, p, s).after) <==> p in t.depth || Dir(v, p)[FreeSlot(Dir(v, p), 0)] == s
  {
    var w := AddEntry(v1, p, s).after;
    FreeIsUnowned(v, t, c);
    assert ChainOk(v, t.chain, p);
    AddEntryChangesIff(v1, p, s);
    if p in t.depth {
      AddEntryBytes(v, v1, p, c, s);
      ContentsUntouched(v, t, w, p, c);
    } else if w.data[p] == v.data[p] {
      FreeRewritten(v, t, w, c);
    } else {
      ChainDiffers(v, w, t.chain[p]);
    }
  }

  /** The slot that a new entry takes already held just that entry. */
  predicate AlreadyThere(v: Volume, p: nat, name: Text, attr: byte, c: u32) {
    && FormatTo83(name).Some? && FreeSlot(Dir(v, p), 0) < |Dir(v, p)|
    && Dir(v, p)[FreeSlot(Dir(v, p), 0)] == NewSlot(FormatTo83(name).value, attr, c)
  }

  /** A free slot never holds an entry that does not read as free. */
  lemma NotAlreadyThere(v: Volume, p: nat, name: Text, attr: byte, c: u32)
    requires NameOk(name)
    ensures !AlreadyThere(v, p, name, attr, c)
  {
    if FormatTo83(name).Some? {
      NewSlotFields(FormatTo83(name).value, attr, c);
    }
  }

  lemma TargetHasChain(v: Volume, t: Tree, parentPath: Text)
    requires Holds(v, t) && ParentHasCluster(v, parentPath) && TargetDir(View(v), parentPath).Some?
    ensures var p := TargetDir(View(v), parentPath).value;
            p in t.chain && (p in t.depth <==> ParentIsDirectory(v, parentPath))
  {
    if ParentIsDirectory(v, parentPath) {
      TargetInTree(v, t, parentPath);
      assert NodeOk(v, t, TargetDir(View(v), parentPath).value);
    } else {
      var d, i := FileTarget(v, t, v.root, Parts(parentPath), ParsePath(View(v), parentPath, None).value);
    }
  }

  /** A successful `create_file` leaves all files alone exactly if its parent path does not lead to a file, or
      the free slot it takes already held just that entry, which needs a name that starts like a mark.
      (A parent file without a cluster stops the code.) */
  lemma CreateSparesFilesIff(v: Volume, t: Tree, parentPath: Text, name: Text, w: Volume)
    requires Holds(v, t) && ParentHasCluster(v, parentPath) && CreateFile(v, parentPath, name) == Outcome(None, w)
    ensures TargetDir(View(v), parentPath).Some? && Candidate(v).Some?
    ensures var p, c := TargetDir(View(v), parentPath).value, Candidate(v).value;
            && (FilesKept(v, t, w) <==> ParentIsDirectory(v, parentPath) || AlreadyThere(v, p, name, ATTR_ARCHIVE, c))
            && (NameOk(name) ==> !AlreadyThere(v, p, name, ATTR_ARCHIVE, c))
  {
    TargetHasChain(v, t, parentPath);
    var p, c := TargetDir(View(v), parentPath).value, Candidate(v).value;
    AllocatedTaken(v);
    AddSparesIff(v, t, Allocated(v, c), p, c, NewSlot(FormatTo83(name).value, ATTR_ARCHIVE, c));
    if NameOk(name) {
      NotAlreadyThere(v, p, name, ATTR_ARCHIVE, c);
    }
  }

  /** The same for `mkdir`. */
  lemma MkdirSparesFilesIff(v: Volume, t: Tree, parentPath: Text, name: Text, w: Volume)
    requires Holds(v, t) && ParentHasCluster(v, parentPath) && Mkdir(v, parentPath, name) == Outcome(None, w)
    ensures TargetDir(View(v), parentPath).Some? && Candidate(v).Some?
    ensures var p, c := TargetDir(View(v), parentPath).value, Candidate(v).value;
            && (FilesKept(v, t, w) <==> ParentIsDirectory(v, parentPath) || AlreadyThere(v, p, name, ATTR_DIRECTORY, c))
            && (NameOk(name) ==> !AlreadyThere(v, p, name, ATTR_DIRECTORY, c))
  {
    TargetHasChain(v, t, parentPath);
    var p, c := TargetDir(View(v), parentPath).value, Candidate(v).value;
    WithDirectoryTaken(v, c, p);
    AddSparesIff(v, t, WithDirectory(v, c, p), p, c, NewSlot(FormatTo83(name).value, ATTR_DIRECTORY, c));
    if NameOk(name) {
      NotAlreadyThere(v, p, name, ATTR_DIRECTORY, c);
    }
  }

  // ----- a name that starts with NUL -----

  /** A slot that starts with NUL ends the listing where it is put. */
  lemma NulEndsListing(slots: seq<Slot>, i: nat, s: Slot)
    requires i < |slots| && NoEnd(slots, i) && IsEnd(s)
    ensures Listing(slots[i := s]) == Listing(slots[..i])
  {
    var now := slots[i := s];
    assert now[..i] == slots[..i];
    ScanStops(SCAN, now, i, IDLE);
  }

  lemma PreparedCut(v: Volume, t: Tree, v1: Volume, p: u32, c: u32, attr: byte, short: seq<byte>)
    requires Prepared(v, t, v1, p, c, attr) && |short| == 11 && short[0] == 0x00
    requires AddEntry(v1, p, NewSlot(short, attr, c)).error.None?
    ensures Cut(v, AddEntry(v1, p, NewSlot(short, attr, c)).after, p)
  {
    NewSlotFields(short, attr, c);
    FreeIsUnowned(v, t, c);
    assert NodeOk(v, t, p);
    var s, i := NewSlot(short, attr, c), FreeSlot(Dir(v, p), 0);
    PutSlotDir(v1, p, i, s);
    assert NoEnd(Dir(v, p), i);
    NulEndsListing(Dir(v, p), i, s);
  }

  /** A successful `create_file` or `mkdir` of a name whose short form starts with NUL cuts the parent's listing
      at the slot it takes. */
  lemma NulNameTruncates(v: Volume, t: Tree, parentPath: Text, name: Text)
    requires Holds(v, t) && ParentIsDirectory(v, parentPath) && !NotEnding(name)
    ensures var o := CreateFile(v, parentPath, name);
            o.error.None? ==>
              TargetDir(View(v), parentPath).Some? && Cut(v, o.after, TargetDir(View(v), parentPath).value)
    ensures var o := Mkdir(v, parentPath, name);
            o.error.None? ==>
              TargetDir(View(v), parentPath).Some? && Cut(v, o.after, TargetDir(View(v), parentPath).value)
  {
    if TargetDir(View(v), parentPath).Some? && Candidate(v).Some? {
      TargetInTree(v, t, parentPath);
      var p, c, short := TargetDir(View(v), parentPath).value, Candidate(v).value, FormatTo83(name).value;
      if CreateFile(v, parentPath, name).error.None? {
        CreatePrepared(v, t, p);
        PreparedCut(v, t, Allocated(v, c), p, c, ATTR_ARCHIVE, short);
      }
      if Mkdir(v, parentPath, name).error.None? {
        MkdirPrepared(v, t, p);
        PreparedCut(v, t, WithDirectory(v, c, p), p, c, ATTR_DIRECTORY, short);
      }
    }
  }

  /** The listing of `p` ends where a new entry would have gone. */
  predicate Cut(v: Volume, w: Volume, p: nat) {
    List(w, p) == Listing(Dir(v, p)[..FreeSlot(Dir(v, p), 0)])
  }
}
