/** Shell sessions: changing directory, and working with what was just created. */
module Session {
  import opened Arithmetic
  import opened Bytes
  import opened Text
  import opened ShortName
  import opened Directory
  import opened Entries
  import opened Paths
  import opened FatVolume
  import opened Edits
  import opened Tree
  import opened Resolution
  import opened Growth
  import opened Creation
  import opened ReadBack
  import opened Misuse

  datatype CdError = NoEntry | NotADirectory

  /** `cd`: the session's new cluster, or the error that leaves it where it is. */
  function Cd(v: Volume, current: u32, path: Text): Result<u32, CdError> {
    match ParsePath(View(v), path, Some(current))
    case None => Err(NoEntry)
    case Some(f) => if f.isDirectory then Ok(f.startCluster) else Err(NotADirectory)
  }

  /** After a successful `cd a`, `cd b` ends, or fails, as `cd a/b` from the start would have. */
  lemma CdJoin(v: Volume, current: u32, a: Text, b: Text)
    requires b != [] && b[0] != SLASH && Cd(v, current, a).Ok?
    ensures Cd(v, current, a + [SLASH] + b) == Cd(v, Cd(v, current, a).value, b)
  {
    ParseJoin(View(v), a, b, Some(current));
  }

  /** `cd` to an absolute path ends, or fails, alike from every directory. */
  lemma CdAbsolute(v: Volume, current: u32, other: u32, path: Text)
    requires path != [] && path[0] == '/' as int
    ensures Cd(v, current, path) == Cd(v, other, path)
  {
    AbsolutePath(View(v), path, Some(current), Some(other));
  }

  /** `cd /b` is `cd b` from the root. */
  lemma CdFromRoot(v: Volume, current: u32, b: Text)
    requires b != [] && b[0] != '/' as int
    ensures Cd(v, current, ['/' as int] + b) == Cd(v, v.root, b)
  {
    FromRoot(View(v), b, Some(current));
  }

  /** `create_file` and `mkdir` put the entry into the directory that `cd` from the root goes to, the root being
      written as an empty path or a slash. */
  lemma ParentByCd(v: Volume, parentPath: Text, d: u32)
    requires ParentIsDirectory(v, parentPath)
    ensures TargetDir(View(v), []) == TargetDir(View(v), [SLASH]) == Some(v.root)
    ensures parentPath != [] && parentPath != [SLASH] ==>
              (TargetDir(View(v), parentPath) == Some(d) <==> Cd(v, v.root, parentPath) == Ok(d))
  {
  }

  /** A session that starts in a directory stays in directories. */
  lemma CdInTree(v: Volume, t: Tree, current: u32, path: Text)
    requires Holds(v, t) && current in t.depth && Cd(v, current, path).Ok?
    ensures Cd(v, current, path).value in t.depth
  {
    TreeClosed(v, t);
    ResolvedInside(View(v), t.depth.Keys, StartOf(View(v), path, Some(current)), Parts(path));
  }

  lemma FormattedIsName(name: Text)
    requires FormatTo83(name).Some?
    ensures name != [] && name[0] != DOT && IsName(name)
  {
    SplitHead(name, DOT);
    SplitPieces(name, DOT);
    assert Split(name, DOT)[0][0] != DOT;
  }

  /** `cd ..` from a directory of the tree goes to its parent. */
  lemma CdUp(v: Volume, t: Tree, d: u32)
    requires Holds(v, t) && d in t.depth && d != v.root
    ensures d in t.parent && Cd(v, d, DOT_DOT_NAME) == Ok(t.parent[d])
  {
    ParentFound(v, t, d);
    PartsOfName(DOT_DOT_NAME);
  }

  /** `cd name` looks the name up in the current directory. */
  lemma CdName(v: Volume, current: u32, name: Text)
    requires name != [] && SLASH !in name && IsName(name)
    ensures Cd(v, current, name) == match Find(List(v, current), name)
                                    case None => Err(NoEntry)
                                    case Some(f) => if f.isDirectory then Ok(f.startCluster) else Err(NotADirectory)
  {
    PartsOfName(name);
    assert name[0] in name;
  }

  /** What a name finds after one entry was inserted. */
  lemma FindInserted(was: seq<FileInfo>, now: seq<FileInfo>, k: nat, f: FileInfo, name: Text)
    requires Inserted(was, now, k, f)
    ensures f.name != name ==> Find(now, name) == Find(was, name)
    ensures f.name == name ==> Find(now, name) == if Find(was[..k], name).Some? then Find(was[..k], name) else Some(f)
  {
    assert now == was[..k] + ([f] + was[k..]);
    FindJoin(was[..k], [f] + was[k..], name);
    FindJoin([f], was[k..], name);
    assert was == was[..k] + was[k..];
    FindJoin(was[..k], was[k..], name);
  }

  /** No entry of a directory starts at a free cluster. */
  lemma ListedElsewhere(v: Volume, t: Tree, d: nat, f: FileInfo, c: nat)
    requires Holds(v, t) && d in t.depth && f in List(v, d) && IsName(f.name)
    requires InRange(v, c) && Link(v, c) == 0
    ensures f.startCluster != c
  {
    FreeIsUnowned(v, t, c);
    var i := ListedIsLive(Dir(v, d), f);
    if d != v.root {
      assert NodeOk(v, t, d);
      DottedInfo(v, d, t.parent[d]);
    }
    assert f.startCluster != 0 ==> Child(v, t, d, i) && ChildStart(v, d, i) == f.startCluster;
  }

  // ----- finding what was just created -----

  /** Looking the name up finds an entry that starts at `c`. */
  predicate Reaches(files: seq<FileInfo>, name: Text, c: nat) {
    Find(files, name).Some? && Find(files, name).value.startCluster == c
  }

  /** A listing all of whose entries were there before does not lead to a free cluster. */
  lemma NotReached(v: Volume, t: Tree, p: nat, files: seq<FileInfo>, name: Text, c: nat)
    requires Holds(v, t) && p in t.depth && InRange(v, c) && Link(v, c) == 0 && IsName(name)
    requires forall f :: f in files ==> f in List(v, p)
    ensures !Reaches(files, name, c)
  {
    FindAtIndex(files, name);
    if Find(files, name).Some? {
      ListedElsewhere(v, t, p, Find(files, name).value, c);
    }
  }

  /** After `f`, which starts at a free cluster, was inserted at `k`, a name leads to it exactly if it is the
      name of `f` and no entry before `f` has it. */
  lemma ReachesInserted(v: Volume, t: Tree, p: nat, now: seq<FileInfo>, k: nat, f: FileInfo, name: Text)
    requires Holds(v, t) && p in t.depth && InRange(v, f.startCluster) && Link(v, f.startCluster) == 0 && IsName(name)
    requires Inserted(List(v, p), now, k, f)
    ensures Reaches(now, name, f.startCluster) <==> f.name == name && Find(List(v, p)[..k], name).None?
    ensures Reaches(now, name, f.startCluster) ==> Find(now, name) == Some(f)
  {
    FindInserted(List(v, p), now, k, f, name);
    NotReached(v, t, p, List(v, p), name, f.startCluster);
    NotReached(v, t, p, List(v, p)[..k], name, f.startCluster);
  }

  /** The name is listed as it was given, as an entry that reads as one, and no entry before it has the name. */
  predicate Findable(v: Volume, p: nat, name: Text)
    requires InsertAt(v, p) <= |List(v, p)|
  {
    PrintsBack(name) && NameOk(name) && Find(List(v, p)[..InsertAt(v, p)], name).None?
  }

  /** Where a new entry goes is a position of the listing. */
  lemma InsertInside(v: Volume, t: Tree, p: nat)
    requires Holds(v, t) && p in t.depth && HasRoom(v, p)
    ensures InsertAt(v, p) <= |List(v, p)|
    ensures List(v, p)[..InsertAt(v, p)] == Listing(Dir(v, p)[..FreeSlot(Dir(v, p), 0)])
  {
    assert NodeOk(v, t, p);
    RoomIsFreeSlot(v, p);
    assert NoEnd(Dir(v, p), FreeSlot(Dir(v, p), 0));
    ListingAtFree(Dir(v, p), FreeSlot(Dir(v, p), 0));
  }

  /** What a successful `create_file` or `mkdir` does to the listing of its parent, by the first byte of the
      short name. */
  predicate Relisted(v: Volume, w: Volume, p: nat, name: Text, isDirectory: bool, c: u32)
    requires FormatTo83(name).Some?
  {
    && (NameOk(name) ==>
          Inserted(List(v, p), List(w, p), InsertAt(v, p), FileInfo(Print(FormatTo83(name).value), isDirectory, 0, c)))
    && (StartsDeleted(name) ==> List(w, p) == List(v, p))
    && (!NotEnding(name) ==> Cut(v, w, p))
  }

  /** A new entry for the free cluster `c` went into directory `p`. */
  ghost predicate NewEntry(v: Volume, t: Tree, w: Volume, p: nat, name: Text, isDirectory: bool, c: u32) {
    && Holds(v, t) && p in t.depth && HasRoom(v, p) && InRange(v, c) && Link(v, c) == 0 && FormatTo83(name).Some?
    && Relisted(v, w, p, name, isDirectory, c)
  }

  /** In the parent, the name leads to the new entry exactly if it is findable. */
  lemma NewEntryFound(v: Volume, t: Tree, w: Volume, p: nat, name: Text, isDirectory: bool, c: u32)
    requires NewEntry(v, t, w, p, name, isDirectory, c)
    ensures InsertAt(v, p) <= |List(v, p)|
    ensures Reaches(List(w, p), name, c) <==> Findable(v, p, name)
    ensures Findable(v, p, name) ==> Find(List(w, p), name) == Some(FileInfo(name, isDirectory, 0, c))
  {
    FormattedIsName(name);
    InsertInside(v, t, p);
    if NameOk(name) {
      var f := FileInfo(Print(FormatTo83(name).value), isDirectory, 0, c);
      ReachesInserted(v, t, p, List(w, p), InsertAt(v, p), f, name);
    } else {
      NotReached(v, t, p, List(w, p), name, c);
    }
  }

  lemma CreateFileRelists(v: Volume, t: Tree, parentPath: Text, name: Text)
    requires Holds(v, t) && ParentIsDirectory(v, parentPath) && CreateFile(v, parentPath, name).error.None?
    ensures TargetDir(View(v), parentPath).Some? && FormatTo83(name).Some? && Candidate(v).Some?
    ensures var p, c := TargetDir(View(v), parentPath).value, Candidate(v).value;
            p in t.depth && Relisted(v, CreateFile(v, parentPath, name).after, p, name, false, c)
  {
    TargetInTree(v, t, parentPath);
    if NameOk(name) {
      CreateFileAdds(v, t, parentPath, name);
    } else if StartsDeleted(name) {
      DeletedNameVanishes(v, t, parentPath, name);
    } else {
      NulNameTruncates(v, t, parentPath, name);
    }
  }

  lemma CreateFileEntry(v: Volume, t: Tree, parentPath: Text, name: Text)
    requires Holds(v, t) && ParentIsDirectory(v, parentPath) && CreateFile(v, parentPath, name).error.None?
    ensures TargetDir(View(v), parentPath).Some? && Candidate(v).Some?
    ensures var p, c := TargetDir(View(v), parentPath).value, Candidate(v).value;
            NewEntry(v, t, CreateFile(v, parentPath, name).after, p, name, false, c)
  {
    CreateFileShape(v, parentPath, name);
    CreateFileRelists(v, t, parentPath, name);
  }

  lemma MkdirRelists(v: Volume, t: Tree, parentPath: Text, name: Text)
    requires Holds(v, t) && ParentIsDirectory(v, parentPath) && Mkdir(v, parentPath, name).error.None?
    ensures TargetDir(View(v), parentPath).Some? && FormatTo83(name).Some? && Candidate(v).Some?
    ensures var p, c := TargetDir(View(v), parentPath).value, Candidate(v).value;
            p in t.depth && Relisted(v, Mkdir(v, parentPath, name).after, p, name, true, c)
  {
    TargetInTree(v, t, parentPath);
    if NameOk(name) {
      MkdirAdds(v, t, parentPath, name);
    } else if StartsDeleted(name) {
      DeletedNameVanishes(v, t, parentPath, name);
    } else {
      NulNameTruncates(v, t, parentPath, name);
    }
  }

  lemma MkdirEntry(v: Volume, t: Tree, parentPath: Text, name: Text)
    requires Holds(v, t) && ParentIsDirectory(v, parentPath) && Mkdir(v, parentPath, name).error.None?
    ensures TargetDir(View(v), parentPath).Some? && Candidate(v).Some?
    ensures var p, c := TargetDir(View(v), parentPath).value, Candidate(v).value;
            NewEntry(v, t, Mkdir(v, parentPath, name).after, p, name, true, c)
  {
    MkdirReady(v, t, parentPath, name);
    MkdirRelists(v, t, parentPath, name);
  }

  lemma MkdirReady(v: Volume, t: Tree, parentPath: Text, name: Text)
    requires Holds(v, t) && ParentIsDirectory(v, parentPath) && Mkdir(v, parentPath, name).error.None?
    ensures TargetDir(View(v), parentPath).Some? && FormatTo83(name).Some? && Candidate(v).Some?
    ensures HasRoom(v, TargetDir(View(v), parentPath).value)
  {
    DirectoryHasCluster(v, t, parentPath);
    TargetIsNotCandidate(v, t, parentPath);
    MkdirShape(v, parentPath, name);
  }

  /** After a successful `create_file`, looking the name up in the parent finds the new file exactly if the
      name prints back unchanged, does not start like an end or deletion mark, and no entry before it has it. */
  lemma CreatedFoundIff(v: Volume, t: Tree, parentPath: Text, name: Text, w: Volume)
    requires Holds(v, t) && ParentIsDirectory(v, parentPath) && CreateFile(v, parentPath, name) == Outcome(None, w)
    ensures TargetDir(View(v), parentPath).Some? && Candidate(v).Some?
    ensures var p, c := TargetDir(View(v), parentPath).value, Candidate(v).value;
            && InsertAt(v, p) <= |List(v, p)|
            && (Reaches(List(w, p), name, c) <==> Findable(v, p, name))
            && (Findable(v, p, name) ==> Find(List(w, p), name) == Some(FileInfo(name, false, 0, c)))
  {
    CreateFileEntry(v, t, parentPath, name);
    NewEntryFound(v, t, w, TargetDir(View(v), parentPath).value, name, false, Candidate(v).value);
  }

  /** `cd` to the name of a new directory. */
  lemma CdNewEntry(v: Volume, t: Tree, w: Volume, p: u32, name: Text, c: u32)
    requires NewEntry(v, t, w, p, name, true, c) && SLASH !in name
    ensures InsertAt(v, p) <= |List(v, p)|
    ensures Cd(w, p, name) == Ok(c) <==> Findable(v, p, name)
  {
    FormattedIsName(name);
    CdName(w, p, name);
    NewEntryFound(v, t, w, p, name, true, c);
  }

  /** After `mkdir`, `cd` to the name from the parent reaches the new directory exactly if the name prints back
      unchanged, does not start like an end or deletion mark, and no entry before it has it. From the new
      directory, `cd ..` always returns to the parent. */
  lemma MkdirThenCd(v: Volume, t: Tree, parentPath: Text, name: Text, w: Volume)
    requires Holds(v, t) && ParentIsDirectory(v, parentPath) && Mkdir(v, parentPath, name) == Outcome(None, w)
    requires SLASH !in name
    ensures TargetDir(View(v), parentPath).Some? && Candidate(v).Some?
    ensures var p, c := TargetDir(View(v), parentPath).value, Candidate(v).value;
            && InsertAt(v, p) <= |List(v, p)|
            && (Cd(w, p, name) == Ok(c) <==> Findable(v, p, name))
            && Cd(w, c, DOT_DOT_NAME) == Ok(p)
  {
    MkdirEntry(v, t, parentPath, name);
    CdNewEntry(v, t, w, TargetDir(View(v), parentPath).value, name, Candidate(v).value);
    MkdirThenUp(v, t, parentPath, name, w);
  }

  lemma MkdirThenUp(v: Volume, t: Tree, parentPath: Text, name: Text, w: Volume)
    requires Holds(v, t) && ParentIsDirectory(v, parentPath) && Mkdir(v, parentPath, name) == Outcome(None, w)
    ensures TargetDir(View(v), parentPath).Some? && Candidate(v).Some?
    ensures Cd(w, Candidate(v).value, DOT_DOT_NAME) == Ok(TargetDir(View(v), parentPath).value)
  {
    TargetInTree(v, t, parentPath);
    RootsKept(v, parentPath, name);
    MkdirNewDir(v, t, parentPath, name);
    FreeIsUnowned(v, t, Candidate(v).value);
    assert NodeOk(v, t, TargetDir(View(v), parentPath).value);
    UpFromDots(w, Candidate(v).value, TargetDir(View(v), parentPath).value);
  }

  lemma UpFromDots(w: Volume, c: u32, p: u32)
    requires List(w, c) == DotEntries(w, c, p) && c != w.root && p != 0
    ensures Cd(w, c, DOT_DOT_NAME) == Ok(p)
  {
    FindSecond(List(w, c), DOT_DOT_NAME);
    PartsOfName(DOT_DOT_NAME);
    assert ParentCluster(View(w), c) == Some(p);
  }

  // ----- the bytes of a new entry -----

  lemma AddedSlot(v1: Volume, p: nat, s: Slot)
    requires VolumeOk(v1) && InRange(v1, p) && AddEntry(v1, p, s).error.None?
    ensures var i, w := FreeSlot(Dir(v1, p), 0), AddEntry(v1, p, s).after;
            i < |Dir(v1, p)| && Dir(w, p) == Dir(v1, p)[i := s]
  {
    PutSlotDir(v1, p, FreeSlot(Dir(v1, p), 0), s);
  }

  lemma NewSlotStores(short: seq<byte>, attr: byte, c: u32)
    requires |short| == 11
    ensures StoresEntry(NewSlot(short, attr, c), short, attr, c, 0)
  {
    var s := NewSlot(short, attr, c);
    NewSlotFields(short, attr, c);
    FieldsStored(s);
  }

  lemma FieldsStored(s: Slot)
    ensures StoresEntry(s, s[..11], s[11], Start(s), Size(s))
  {
    FourBytes(s[26], s[27], s[20], s[21]);
    FourBytes(s[28], s[29], s[30], s[31]);
    assert s[28..32] == [s[28], s[29], s[30], s[31]];
    assert s[20..22] == [s[20], s[21]] && s[26..28] == [s[26], s[27]];
  }

  /** What a successful `create_file` writes: the first free slot of the parent stores the short name, the archive
      attribute, the new cluster and size 0; the other slots stay. */
  lemma CreatedStored(v: Volume, t: Tree, parentPath: Text, name: Text, w: Volume) returns (i: nat)
    requires Holds(v, t) && ParentHasCluster(v, parentPath) && CreateFile(v, parentPath, name) == Outcome(None, w)
    ensures TargetDir(View(v), parentPath).Some? && FormatTo83(name).Some? && Candidate(v).Some?
    ensures var p, c := TargetDir(View(v), parentPath).value, Candidate(v).value;
            && i < |Dir(v, p)| == |Dir(w, p)|
            && Dir(v, p)[i][0] in {0x00, 0xE5} && (forall j :: 0 <= j < i ==> Dir(v, p)[j][0] !in {0x00, 0xE5})
            && StoresEntry(Dir(w, p)[i], FormatTo83(name).value, 0x20, c, 0)
            && forall j :: 0 <= j < |Dir(v, p)| && j != i ==> Dir(w, p)[j] == Dir(v, p)[j]
  {
    TargetInRange(v, t, parentPath);
    var p, c := TargetDir(View(v), parentPath).value, Candidate(v).value;
    AllocatedTaken(v);
    i := FreeSlot(Dir(v, p), 0);
    AddedSlot(Allocated(v, c), p, NewSlot(FormatTo83(name).value, ATTR_ARCHIVE, c));
    NewSlotStores(FormatTo83(name).value, ATTR_ARCHIVE, c);
  }

  /** The same for `mkdir`, with the directory attribute; the new directory stores `.` and `..`, and zeros. */
  lemma MkdirStored(v: Volume, t: Tree, parentPath: Text, name: Text, w: Volume) returns (i: nat)
    requires Holds(v, t) && ParentHasCluster(v, parentPath) && Mkdir(v, parentPath, name) == Outcome(None, w)
    ensures TargetDir(View(v), parentPath).Some? && FormatTo83(name).Some? && Candidate(v).Some?
    ensures var p, c := TargetDir(View(v), parentPath).value, Candidate(v).value;
            && i < |Dir(v, p)| == |Dir(w, p)|
            && Dir(v, p)[i][0] in {0x00, 0xE5} && (forall j :: 0 <= j < i ==> Dir(v, p)[j][0] !in {0x00, 0xE5})
            && StoresEntry(Dir(w, p)[i], FormatTo83(name).value, 0x10, c, 0)
            && (forall j :: 0 <= j < |Dir(v, p)| && j != i ==> Dir(w, p)[j] == Dir(v, p)[j])
            && StoresDots(w.data[c], c, if p == v.root then 0 else p)
  {
    TargetInRange(v, t, parentPath);
    TargetIsNotCandidate(v, t, parentPath);
    var p, c := TargetDir(View(v), parentPath).value, Candidate(v).value;
    i := FreeSlot(Dir(v, p), 0);
    DirectoryStored(v, p, c, FormatTo83(name).value);
    NewSlotStores(FormatTo83(name).value, ATTR_DIRECTORY, c);
  }

  lemma DirectoryStored(v: Volume, p: u32, c: u32, short: seq<byte>)
    requires VolumeOk(v) && Candidate(v) == Some(c) && InRange(v, p) && p != c && |short| == 11
    requires AddEntry(WithDirectory(v, c, p), p, NewSlot(short, ATTR_DIRECTORY, c)).error.None?
    ensures var i, s := FreeSlot(Dir(v, p), 0), NewSlot(short, ATTR_DIRECTORY, c);
            var w := AddEntry(WithDirectory(v, c, p), p, s).after;
            && i < |Dir(v, p)| && Dir(w, p) == Dir(v, p)[i := NewSlot(short, ATTR_DIRECTORY, c)]
            && c < |w.data| && StoresDots(w.data[c], c, if p == v.root then 0 else p)
  {
    WithDirectoryTaken(v, c, p);
    AddedSlot(WithDirectory(v, c, p), p, NewSlot(short, ATTR_DIRECTORY, c));
    FreshStores(v, c, p);
  }

  /** The bytes store the entries `.` at `c` and `..` at `up`, and are zero behind them. */
  predicate StoresDots(bytes: seq<byte>, c: u32, up: u32) {
    && |bytes| >= 64 && (forall k :: 64 <= k < |bytes| ==> bytes[k] == 0)
    && StoresEntry(bytes[0..32], [0x2E] + seq(10, _ => 0x20), 0x10, c, 0)
    && StoresEntry(bytes[32..64], [0x2E, 0x2E] + seq(9, _ => 0x20), 0x10, up, 0)
  }

  lemma FreshStores(v: Volume, c: u32, p: u32)
    requires VolumeOk(v)
    ensures StoresDots(FreshDirectory(v, c, p), c, if p == v.root then 0 else p)
  {
    FreshSlots(v, c, p);
    NewSlotStores(DOT_SHORT, ATTR_DIRECTORY, c);
    NewSlotStores(DOT_DOT_SHORT, ATTR_DIRECTORY, if p == v.root then 0 else p);
    var bytes := FreshDirectory(v, c, p);
    assert bytes[0..32] == Slots(bytes)[0] && bytes[32..64] == Slots(bytes)[1];
    assert DOT_SHORT == [0x2E] + seq(10, _ => 0x20) && DOT_DOT_SHORT == [0x2E, 0x2E] + seq(9, _ => 0x20);
  }

  // ----- every path to a new directory -----

  /** The last component of a path leads from `d` to the directory at `c`. */
  predicate EndsAt(k: Catalog, d: nat, part: Text, c: u32) {
    && Resolve(k, d, [part]).Some? && Resolve(k, d, [part]).value.isDirectory
    && Resolve(k, d, [part]).value.startCluster == c
  }

  lemma CdEndsAt(w: Volume, current: u32, path: Text, c: u32)
    ensures Cd(w, current, path) == Ok(c)
       <==> && Parts(path) != []
            && LastDir(View(w), StartOf(View(w), path, Some(current)), Parts(path)).Some?
            && EndsAt(View(w), LastDir(View(w), StartOf(View(w), path, Some(current)), Parts(path)).value,
                      Last(Parts(path)), c)
  {
    if Parts(path) != [] {
      ResolveLast(View(w), StartOf(View(w), path, Some(current)), Parts(path));
    }
  }

  lemma EndsAtCases(k: Catalog, d: nat, part: Text, c: u32)
    ensures part == DOT_NAME ==> !EndsAt(k, d, part, c)
    ensures part == DOT_DOT_NAME ==> (EndsAt(k, d, part, c) <==> ParentCluster(k, d) == Some(c))
    ensures IsName(part) ==>
              (EndsAt(k, d, part, c) <==> Reaches(k.list(d), part, c) && Find(k.list(d), part).value.isDirectory)
  {
    assert [part][0] == part && [part][1..] == [];
    assert Resolve(k, d, []) == None;
  }

  /** Looking a name up leads to the new directory only in its parent. */
  lemma NewDirNamed(v: Volume, t: Tree, w: Volume, p: u32, name: Text, c: u32, d: nat, part: Text)
    requires Holds(v, t) && p in t.depth && InRange(v, c) && Link(v, c) == 0 && FormatTo83(name).Some?
    requires EntryAdded(v, t, w, p, name, true, c) && (d in t.depth || d == c) && IsName(part)
    ensures InsertAt(v, p) <= |List(v, p)|
    ensures Reaches(List(w, d), part, c)
       <==> d == p && part == Print(FormatTo83(name).value) && Find(List(v, p)[..InsertAt(v, p)], part).None?
    ensures Reaches(List(w, d), part, c) ==> Find(List(w, d), part).value.isDirectory
  {
    if d == p {
      var f := FileInfo(Print(FormatTo83(name).value), true, 0, c);
      ReachesInserted(v, t, p, List(w, p), InsertAt(v, p), f, part);
    } else if d in t.depth {
      NotReached(v, t, d, List(w, d), part, c);
    } else {
      DotsOnly(List(w, c), part);
    }
  }

  /** The new directory is entered only from its parent, only by its listed name, and only if no entry before
      it has that name. */
  lemma NewDirEntered(v: Volume, t: Tree, w: Volume, p: u32, name: Text, c: u32, d: nat, part: Text)
    requires Holds(v, t) && p in t.depth && InRange(v, c) && Link(v, c) == 0 && FormatTo83(name).Some?
    requires w.root == v.root
    requires EntryAdded(v, t, w, p, name, true, c) && (d in t.depth || d == c)
    ensures InsertAt(v, p) <= |List(v, p)|
    ensures EndsAt(View(w), d, part, c)
       <==> && d == p && IsName(part) && part == Print(FormatTo83(name).value)
            && Find(List(v, p)[..InsertAt(v, p)], part).None?
  {
    EndsAtCases(View(w), d, part, c);
    FreeIsUnowned(v, t, c);
    if IsName(part) {
      NewDirNamed(v, t, w, p, name, c, d, part);
    } else {
      NotParent(v, t, w, p, c, d);
    }
  }

  lemma DotsOnly(files: seq<FileInfo>, name: Text)
    requires |files| == 2 && files[0].name == DOT_NAME && files[1].name == DOT_DOT_NAME && IsName(name)
    ensures Find(files, name).None?
  {
    assert files[1..] == [files[1]] && [files[1]][1..] == [];
    assert Find([files[1]], name).None?;
  }

  /** A new directory is nobody's parent. */
  lemma NotParent(v: Volume, t: Tree, w: Volume, p: u32, c: u32, d: nat)
    requires Holds(v, t) && p in t.depth && c !in t.depth && w.root == v.root && Holds(w, GrowTree(t, p, c, true))
    requires d in t.depth || d == c
    ensures ParentCluster(View(w), d) != Some(c)
  {
    ParentFound(w, GrowTree(t, p, c, true), d);
    if d in t.depth && d != v.root {
      ParentFound(v, t, d);
    }
  }

  /** After `mkdir`, a path from any directory leads to the new one exactly if the entry reads as one, the path
      ends in its listed name, the walk to there ends in the parent, and no entry before it has that name. */
  lemma NewDirReachedIff(v: Volume, t: Tree, parentPath: Text, name: Text, w: Volume, current: u32, path: Text)
    requires Holds(v, t) && ParentIsDirectory(v, parentPath) && Mkdir(v, parentPath, name) == Outcome(None, w)
    requires NotEnding(name) && current in t.depth
    ensures TargetDir(View(v), parentPath).Some? && FormatTo83(name).Some? && Candidate(v).Some?
    ensures var p, c, parts := TargetDir(View(v), parentPath).value, Candidate(v).value, Parts(path);
            && InsertAt(v, p) <= |List(v, p)|
            && (Cd(w, current, path) == Ok(c)
                <==> && NameOk(name) && path != [] && parts != []
                     && LastDir(View(w), if path[0] == SLASH then v.root else current, parts) == Some(p)
                     && IsName(Last(parts)) && Last(parts) == Print(FormatTo83(name).value)
                     && Find(List(v, p)[..InsertAt(v, p)], Last(parts)).None?)
  {
    MkdirReady(v, t, parentPath, name);
    TargetInTree(v, t, parentPath);
    InsertInside(v, t, TargetDir(View(v), parentPath).value);
    RootsKept(v, parentPath, name);
    var p, c := TargetDir(View(v), parentPath).value, Candidate(v).value;
    if NameOk(name) {
      MkdirAdds(v, t, parentPath, name);
      AddedReachedIff(v, t, w, p, name, c, current, path);
    } else {
      DeletedNameVanishes(v, t, parentPath, name);
      FreeIsUnowned(v, t, c);
      if Cd(w, current, path).Ok? {
        CdInTree(w, t, current, path);
      }
    }
  }

  lemma AddedReachedIff(v: Volume, t: Tree, w: Volume, p: u32, name: Text, c: u32, current: u32, path: Text)
    requires Holds(v, t) && p in t.depth && InRange(v, c) && Link(v, c) == 0 && FormatTo83(name).Some?
    requires w.root == v.root
    requires EntryAdded(v, t, w, p, name, true, c) && current in t.depth
    ensures InsertAt(v, p) <= |List(v, p)|
    ensures var parts := Parts(path);
            Cd(w, current, path) == Ok(c)
            <==> && path != [] && parts != []
                 && LastDir(View(w), if path[0] == SLASH then v.root else current, parts) == Some(p)
                 && IsName(Last(parts)) && Last(parts) == Print(FormatTo83(name).value)
                 && Find(List(v, p)[..InsertAt(v, p)], Last(parts)).None?
  {
    PartsEmpty();
    CdEndsAt(w, current, path, c);
    var parts, start := Parts(path), StartOf(View(w), path, Some(current));
    if parts != [] && LastDir(View(w), start, parts).Some? {
      var u := GrowTree(t, p, c, true);
      TreeClosed(w, u);
      LastDirInside(View(w), u.depth.Keys, start, parts);
      NewDirEntered(v, t, w, p, name, c, LastDir(View(w), start, parts).value, Last(parts));
    }
  }

  // ----- create, write, read -----

  /** With a fresh name, whatever resolved before resolves to the same after the insertion. */
  lemma ResolveInserted(v: Volume, t: Tree, w: Volume, p: nat, k: nat, f: FileInfo, parts: seq<Text>)
    requires Holds(v, t) && p in t.depth && w.root == v.root
    requires Inserted(List(v, p), List(w, p), k, f) && Find(List(v, p), f.name).None?
    requires forall d :: d in t.depth && d != p ==> List(w, d) == List(v, d)
    requires Resolve(View(v), v.root, parts).Some?
    ensures Resolve(View(w), v.root, parts) == Resolve(View(v), v.root, parts)
  {
    TreeClosed(v, t);
    forall d, name | d in t.depth.Keys && Find(View(v).list(d), name).Some?
      ensures Find(View(w).list(d), name) == Find(View(v).list(d), name)
    {
      if d == p {
        FindInserted(List(v, p), List(w, p), k, f, name);
      }
    }
    ResolveGrown(View(v), View(w), t.depth.Keys, v.root, parts);
  }

  /** The target of the new entry is the same directory afterwards. */
  lemma TargetInserted(v: Volume, t: Tree, w: Volume, parentPath: Text, k: nat, f: FileInfo)
    requires Holds(v, t) && w.root == v.root && ParentIsDirectory(v, parentPath) && TargetDir(View(v), parentPath).Some?
    requires var p := TargetDir(View(v), parentPath).value;
             && Inserted(List(v, p), List(w, p), k, f) && Find(List(v, p), f.name).None?
             && forall d :: d in t.depth && d != p ==> List(w, d) == List(v, d)
    ensures TargetDir(View(w), parentPath) == TargetDir(View(v), parentPath)
    ensures IsName(f.name) ==>
              Resolve(View(w), w.root, Parts(parentPath) + [f.name])
                == Find(List(w, TargetDir(View(v), parentPath).value), f.name)
  {
    TargetInTree(v, t, parentPath);
    PartsEmpty();
    PartsSlash();
    if parentPath == [] || parentPath == [SLASH] {
      assert Parts(parentPath) + [f.name] == [f.name];
    } else {
      ResolveInserted(v, t, w, TargetDir(View(v), parentPath).value, k, f, Parts(parentPath));
      ResolveJoin(View(w), w.root, Parts(parentPath), [f.name]);
    }
  }

  /** The slot of a new entry is the first match if no other slot starts with its name. */
  lemma NewSlotMatches(slots: seq<Slot>, i: nat, s: Slot, short: seq<byte>)
    requires i < |slots| && s[..11] == short && forall j :: 0 <= j < |slots| ==> slots[j][..11] != short
    ensures ShortSlot(slots[i := s], short, 0) == i
  {
    var now := slots[i := s];
    assert now[i][..11] == short;
    assert forall j :: 0 <= j < |now| && j != i ==> now[j] == slots[j];
  }

  /** No entry is listed under the name, and no slot starts with its short form. */
  predicate NameUnused(v: Volume, p: nat, name: Text)
    requires FormatTo83(name).Some?
  {
    && Find(List(v, p), name).None?
    && forall j :: 0 <= j < |Dir(v, p)| ==> Dir(v, p)[j][..11] != FormatTo83(name).value
  }

  /** In the volume that `create_file` leaves, the path leads to the new file and its own slot matches. */
  lemma CreatedLeadsTo(v: Volume, t: Tree, parentPath: Text, name: Text, w: Volume)
    requires Holds(v, t) && ParentIsDirectory(v, parentPath) && NameOk(name)
    requires CreateFile(v, parentPath, name) == Outcome(None, w)
    requires PrintsBack(name) && SLASH !in name
    requires TargetDir(View(v), parentPath).Some? ==> NameUnused(v, TargetDir(View(v), parentPath).value, name)
    ensures Candidate(v).Some?
    ensures var path, f := parentPath + [SLASH] + name, FileInfo(name, false, 0, Candidate(v).value);
            LeadsTo(w, path, f) && OwnSlot(w, path, f)
  {
    CreateFileAdds(v, t, parentPath, name);
    CreateFileGrows(v, t, parentPath, name);
    FormattedIsName(name);
    AddedLeadsTo(v, t, w, parentPath, name, Candidate(v).value);
  }

  /** The new entry went to the first free slot, and an entry for it is listed, both under a fresh name. */
  ghost predicate AddedFresh(v: Volume, t: Tree, w: Volume, parentPath: Text, name: Text, c: u32) {
    && Holds(v, t) && w.root == v.root && ParentIsDirectory(v, parentPath) && TargetDir(View(v), parentPath).Some?
    && PrintsBack(name)
    && name != [] && SLASH !in name && IsName(name)
    && var p := TargetDir(View(v), parentPath).value;
       && p in t.depth && NameUnused(v, p, name) && EntryAdded(v, t, w, p, name, false, c)
       && Grown(v, w, p, FreeSlot(Dir(v, p), 0), NewSlot(FormatTo83(name).value, ATTR_ARCHIVE, c), c)
  }

  lemma AddedIsFound(was: seq<FileInfo>, now: seq<FileInfo>, k: nat, f: FileInfo)
    requires Inserted(was, now, k, f) && Find(was, f.name).None?
    ensures Find(now, f.name) == Some(f)
  {
    FindInserted(was, now, k, f, f.name);
    assert was == was[..k] + was[k..];
    FindJoin(was[..k], was[k..], f.name);
  }

  /** How `parse_path` and `update_file_size` see a name appended to a path. */
  lemma AppendedParses(k: Catalog, parentPath: Text, name: Text)
    requires name != [] && SLASH !in name && TargetDir(k, parentPath).Some?
    ensures var path := parentPath + [SLASH] + name;
            && ParsePath(k, path, None) == Resolve(k, k.root, Parts(parentPath) + [name])
            && SizeDir(k, path) == TargetDir(k, parentPath).value && FileName(path) == name
  {
    PartsJoin(parentPath, name);
    PartsOfName(name);
    SplitAppended(parentPath, name);
  }

  lemma AddedParses(v: Volume, t: Tree, w: Volume, parentPath: Text, name: Text, c: u32)
    requires AddedFresh(v, t, w, parentPath, name, c)
    ensures var path := parentPath + [SLASH] + name;
            && ParsePath(View(w), path, None) == Some(FileInfo(name, false, 0, c))
            && SizeDir(View(w), path) == TargetDir(View(v), parentPath).value && FileName(path) == name
  {
    var p, f := TargetDir(View(v), parentPath).value, FileInfo(name, false, 0, c);
    TargetInserted(v, t, w, parentPath, InsertAt(v, p), f);
    AddedIsFound(List(v, p), List(w, p), InsertAt(v, p), f);
    AppendedParses(View(w), parentPath, name);
  }

  lemma AddedOwnSlot(v: Volume, t: Tree, w: Volume, p: nat, i: nat, short: seq<byte>, c: u32)
    requires Holds(v, t) && p in t.depth && |short| == 11 && i == FreeSlot(Dir(v, p), 0)
    requires Grown(v, w, p, i, NewSlot(short, ATTR_ARCHIVE, c), c)
    requires forall j :: 0 <= j < |Dir(v, p)| ==> Dir(v, p)[j][..11] != short
    ensures var j := ShortSlot(Dir(w, p), short, 0);
            j < |Dir(w, p)| && Live(Dir(w, p), j) && Start(Dir(w, p)[j]) == c
  {
    var s := NewSlot(short, ATTR_ARCHIVE, c);
    NewSlotFields(short, ATTR_ARCHIVE, c);
    NewSlotMatches(Dir(v, p), i, s, short);
    GrownPrefix(v, t, w, p, i, s, c);
    LiveInsert(Dir(v, p), i, s, i);
  }

  lemma AddedLeadsTo(v: Volume, t: Tree, w: Volume, parentPath: Text, name: Text, c: u32)
    requires AddedFresh(v, t, w, parentPath, name, c)
    ensures var path, f := parentPath + [SLASH] + name, FileInfo(name, false, 0, c);
            LeadsTo(w, path, f) && OwnSlot(w, path, f)
  {
    var p := TargetDir(View(v), parentPath).value;
    AddedParses(v, t, w, parentPath, name, c);
    AddedOwnSlot(v, t, w, p, FreeSlot(Dir(v, p), 0), FormatTo83(name).value, c);
  }

  /** Creating a file under an unused name that prints back unchanged, writing to it and reading it gives back the first
      cluster's worth of what was written. */
  lemma CreateWriteRead(v: Volume, t: Tree, parentPath: Text, name: Text, bytes: seq<byte>, w: Volume)
    requires Holds(v, t) && ParentIsDirectory(v, parentPath) && NameOk(name)
    requires CreateFile(v, parentPath, name) == Outcome(None, w)
    requires PrintsBack(name) && SLASH !in name
    requires TargetDir(View(v), parentPath).Some? ==> NameUnused(v, TargetDir(View(v), parentPath).value, name)
    ensures var path := parentPath + [SLASH] + name;
            && CanWrite(w, path)
            && var o := WriteFile(w, path, bytes);
               o.error.None? && CanRead(o.after, path, None)
               && ReadBytes(o.after, path, None) == Ok(bytes[..Min(|bytes|, v.clusterSize)])
  {
    CreatedLeadsTo(v, t, parentPath, name, w);
    RootsKept(v, parentPath, name);
    var u := CreatedTree(v, t, parentPath, name, w);
    WriteOwnReads(w, u, parentPath + [SLASH] + name, FileInfo(name, false, 0, Candidate(v).value), bytes);
  }

  lemma CreatedTree(v: Volume, t: Tree, parentPath: Text, name: Text, w: Volume) returns (u: Tree)
    requires Holds(v, t) && ParentIsDirectory(v, parentPath) && NameOk(name)
    requires CreateFile(v, parentPath, name) == Outcome(None, w)
    ensures Holds(w, u)
  {
    CreateFileAdds(v, t, parentPath, name);
    u := GrowTree(t, TargetDir(View(v), parentPath).value, Candidate(v).value, false);
  }
}
