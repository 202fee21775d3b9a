/** Volumes on which expected properties of the file system fail. */
module Examples {
  import opened Bytes
  import opened Text
  import opened ShortName
  import opened Directory
  import opened Scanning
  import opened Paths
  import opened FatVolume
  import opened Edits
  import opened Tree
  import opened Growth
  import opened Creation
  import opened Writing
  import opened ReadBack
  import opened Resolution
  import opened Runs
  import opened Session
  import opened Misuse

  /** A blank disk: sectors of zeros, and a root directory at cluster 2. */
  function Blank(): Volume {
    Volume(512, 2, seq(SCAN_LIMIT, c => if c == 2 then EOC else 0), seq(SCAN_LIMIT, _ => Zeros(512)))
  }

  /** A formatted volume whose clusters hold at least four slots. */
  predicate Wide(v: Volume) { Formatted(v) && v.clusterSize >= 128 }

  function RootTree(v: Volume): Tree { Tree(map[v.root as nat := 0], map[], map[v.root as nat := [v.root]]) }

  lemma BlankDir(c: nat)
    ensures c < SCAN_LIMIT ==> |Dir(Blank(), c)| == 16 && forall i :: 0 <= i < 16 ==> IsEnd(Dir(Blank(), c)[i])
  {
  }

  lemma BlankHolds()
    ensures Formatted(Blank()) && Holds(Blank(), RootTree(Blank()))
  {
    BlankDir(2);
    FormattedHoldsRoot(Blank());
  }

  /** A volume that still has free clusters above `c`. */
  predicate FreeFrom(v: Volume, c: nat) {
    VolumeOk(v) && forall k :: c <= k < SCAN_LIMIT ==> Link(v, k) == 0
  }

  lemma FreeCandidate(v: Volume, c: nat)
    requires FreeFrom(v, c) && 2 <= c < SCAN_LIMIT
    ensures Candidate(v).Some? && Candidate(v).value <= c && FreeClusters(v) != {}
  {
    AllocateLeast(v);
    assert Link(v, c) == 0 && c in FreeClusters(v);
  }

  lemma TakenFree(v: Volume, w: Volume, c: nat, k: nat)
    requires FreeFrom(v, k) && Taken(v, w, c) && c <= k
    ensures FreeFrom(w, k + 1)
  {
  }

  // ----- names of one capital letter -----

  predicate IsLetter(c: u16) { 0x41 <= c <= 0x5A }

  lemma LetterName(c: u16)
    requires IsLetter(c)
    ensures PrintsBack([c]) && NameOk([c]) && SLASH !in [c] && IsName([c])
  {
    SplitWithout([c], DOT);
    assert UpperText([c]) == [c];
    assert Canonical([c]);
    CanonicalPrints([c]);
    AsciiNameOk([c]);
  }

  lemma LetterPath(k: Catalog, c: u16, f: FileInfo)
    requires IsLetter(c) && Find(k.list(k.root), [c]) == Some(f)
    ensures ParsePath(k, [c], None) == Some(f) && TargetDir(k, [c]) == Some(f.startCluster) && Parts([c]) == [[c]]
  {
    LetterName(c);
    PartsOfName([c]);
  }

  predicate IsSmallLetter(c: u16) { 0x61 <= c <= 0x7A }

  lemma SmallLetterName(c: u16)
    requires IsSmallLetter(c)
    ensures FormatTo83([c]).Some? && !PrintsBack([c]) && SLASH !in [c]
  {
    SplitWithout([c], DOT);
    assert UpperText([c])[0] != [c][0];
    PrintFormat([c]);
  }

  // ----- one entry in the root of a formatted volume -----

  /** An empty root directory lists exactly the entry that was added. */
  lemma FirstListed(was: seq<FileInfo>, now: seq<FileInfo>, k: nat, f: FileInfo)
    requires was == [] && Inserted(was, now, k, f)
    ensures now == [f]
  {
  }

  lemma EmptyRoot(v: Volume)
    requires Formatted(v)
    ensures List(v, v.root) == [] && HasRoom(v, v.root) && FreeSlot(Dir(v, v.root), 0) == 0
  {
    assert IsEnd(Dir(v, v.root)[0]);
  }

  /** Making a directory in a formatted volume. */
  lemma FirstMkdir(v: Volume, c: u16) returns (w: Volume, t: Tree, d: u32)
    requires Wide(v) && IsLetter(c) && FreeFrom(v, 3)
    ensures Mkdir(v, [], [c]) == Outcome(None, w) && Candidate(v) == Some(d) && d <= 3
    ensures Holds(w, t) && w.root == v.root && v.root in t.depth && d in t.depth
    ensures List(w, v.root) == [FileInfo([c], true, 0, d)]
    ensures |List(w, d)| == 2 && List(w, d)[0].name == DOT_NAME && List(w, d)[1].name == DOT_DOT_NAME
    ensures FreeFrom(w, 4) && HasRoom(w, d) && OneEntry(Dir(w, v.root), FormatTo83([c]))
  {
    FormattedHoldsRoot(v);
    FreeCandidate(v, 3);
    EmptyRoot(v);
    LetterName(c);
    var t0, name := RootTree(v), [c];
    CreateSucceedsIff(v, t0, [], name);
    w, d := Mkdir(v, [], name).after, Candidate(v).value;
    MkdirAdds(v, t0, [], name);
    RootsKept(v, [], name);
    FirstListed(List(v, v.root), List(w, v.root), InsertAt(v, v.root), FileInfo(name, true, 0, d));
    t := GrowTree(t0, v.root, d, true);
    FirstMkdirRoom(v, name, w, d);
  }

  lemma FirstMkdirRoom(v: Volume, name: Text, w: Volume, d: u32)
    requires Wide(v) && FreeFrom(v, 3) && NameOk(name) && Mkdir(v, [], name) == Outcome(None, w)
    requires Candidate(v) == Some(d) && d <= 3
    ensures FreeFrom(w, 4) && HasRoom(w, d) && OneEntry(Dir(w, v.root), FormatTo83(name))
  {
    FormattedHoldsRoot(v);
    EmptyRoot(v);
    MkdirPrepared(v, RootTree(v), v.root);
    PreparedGrows(v, RootTree(v), WithDirectory(v, d, v.root), v.root, d, ATTR_DIRECTORY, name);
    NewSlotFields(FormatTo83(name).value, ATTR_DIRECTORY, d);
    RoomAfter(v, w, NewSlot(FormatTo83(name).value, ATTR_DIRECTORY, d), d);
  }

  /** A slot under the short name, and end marks behind it. */
  predicate OneEntry(slots: seq<Slot>, short: Option<seq<byte>>) {
    && |slots| >= 3 && Plain(slots[0]) && short == Some(slots[0][..11])
    && forall i :: 1 <= i < |slots| ==> IsEnd(slots[i])
  }

  lemma RoomAfter(v: Volume, w: Volume, s: Slot, c: nat)
    requires Wide(v) && FreeFrom(v, 3) && Grown(v, w, v.root, 0, s, c) && c <= 3 && w.clusterSize == v.clusterSize
    ensures FreeFrom(w, 4) && OneEntry(Dir(w, v.root), Some(s[..11])) && (IsDirectory(s) ==> HasRoom(w, c))
  {
    TakenFree(v, w, c, 3);
    assert forall i :: 1 <= i < |Dir(w, v.root)| ==> Dir(w, v.root)[i] == Dir(v, v.root)[i];
    if IsDirectory(s) {
      assert IsEnd(Dir(w, c)[2]);
    }
  }

  lemma OneEntryPlace(v: Volume, p: nat)
    requires exists short :: OneEntry(Dir(v, p), short)
    ensures HasRoom(v, p) && InsertAt(v, p) == 1
  {
    var slots := Dir(v, p);
    assert FreeSlot(slots, 0) == FreeSlot(slots, 1) == 1;
    PlainSlot(slots[0], IDLE);
    assert slots[..1] == [slots[0]] + [];
    ScanCons(SCAN, slots[0], [], IDLE);
  }

  // ----- a size that goes to the wrong directory -----

  /** The root lists one directory, which lists only its dot entries and has room. */
  ghost predicate OneDirectory(v: Volume, t: Tree, d: u16, c: u32) {
    && Holds(v, t) && FreeFrom(v, 4) && IsLetter(d) && c in t.depth && List(v, v.root) == [FileInfo([d], true, 0, c)]
    && |List(v, c)| == 2 && List(v, c)[0].name == DOT_NAME && List(v, c)[1].name == DOT_DOT_NAME && HasRoom(v, c)
  }

  lemma SecondSucceeds(v: Volume, t: Tree, d: u16, c: u32, f: u16)
    requires OneDirectory(v, t, d, c) && IsLetter(f)
    ensures TargetDir(View(v), [d]) == Some(c) && ParentIsDirectory(v, [d]) && NameOk([f])
    ensures CreateFile(v, [d], [f]).error.None? && Candidate(v).Some?
  {
    LetterName(f);
    LetterPath(View(v), d, FileInfo([d], true, 0, c));
    assert NodeOk(v, t, c);
    FreeCandidate(v, 4);
    CreateSucceedsIff(v, t, [d], [f]);
  }

  lemma SecondFile(v: Volume, t: Tree, d: u16, c: u32, f: u16) returns (w: Volume, u: Tree, e: FileInfo)
    requires OneDirectory(v, t, d, c) && IsLetter(f) && c != v.root
    ensures CreateFile(v, [d], [f]) == Outcome(None, w) && Holds(w, u) && w.root == v.root
    ensures e.name == [f] && !e.isDirectory && e.size == 0 && HasCluster(w, e.startCluster) && c in u.depth
    ensures List(w, w.root) == [FileInfo([d], true, 0, c)] && Find(List(w, c), [f]) == Some(e)
    ensures FreeFrom(w, 5) && Dir(w, v.root) == Dir(v, v.root)
  {
    SecondSucceeds(v, t, d, c, f);
    LetterName(f);
    w := CreateFile(v, [d], [f]).after;
    CreateFileAdds(v, t, [d], [f]);
    RootsKept(v, [d], [f]);
    e := FileInfo([f], false, 0, Candidate(v).value);
    u := GrowTree(t, c, Candidate(v).value, false);
    AddedSecond(v, t, w, d, c, [f], Candidate(v).value);
    SecondRest(v, t, d, c, f, w);
  }

  lemma SecondRest(v: Volume, t: Tree, d: u16, c: u32, f: u16, w: Volume)
    requires OneDirectory(v, t, d, c) && IsLetter(f) && c != v.root && CreateFile(v, [d], [f]) == Outcome(None, w)
    ensures FreeFrom(w, 5) && Dir(w, v.root) == Dir(v, v.root)
  {
    SecondSucceeds(v, t, d, c, f);
    CreateFileGrows(v, t, [d], [f]);
    FreeCandidate(v, 4);
    TakenFree(v, w, Candidate(v).value, 4);
    FreeIsUnowned(v, t, Candidate(v).value);
  }

  lemma AddedSecond(v: Volume, t: Tree, w: Volume, d: u16, c: u32, name: Text, x: u32)
    requires OneDirectory(v, t, d, c) && c != v.root && PrintsBack(name) && IsName(name)
    requires EntryAdded(v, t, w, c, name, false, x)
    requires 2 <= x < SCAN_LIMIT
    ensures List(w, v.root) == List(v, v.root) && Find(List(w, c), name) == Some(FileInfo(name, false, 0, x))
    ensures HasCluster(w, x)
  {
    DotsOnly(List(v, c), name);
    AddedIsFound(List(v, c), List(w, c), InsertAt(v, c), FileInfo(name, false, 0, x));
    assert v.root in t.depth;
    assert VolumeOk(w);
  }

  /** The directory `D` of a formatted volume, and the file `D/F`. */
  lemma FileInDirectory(v: Volume, d: u16, f: u16) returns (v1: Volume, w: Volume, t: Tree, c: u32, e: FileInfo)
    requires Wide(v) && FreeFrom(v, 3) && IsLetter(d) && IsLetter(f)
    ensures Mkdir(v, [], [d]) == Outcome(None, v1) && VolumeOk(v1) && CreateFile(v1, [d], [f]) == Outcome(None, w)
    ensures Holds(w, t) && w.root == v.root && c != v.root && c in t.depth
    ensures e.name == [f] && !e.isDirectory && e.size == 0 && HasCluster(w, e.startCluster)
    ensures List(w, w.root) == [FileInfo([d], true, 0, c)] && Find(List(w, c), [f]) == Some(e)
    ensures FreeFrom(w, 5) && OneEntry(Dir(w, w.root), FormatTo83([d]))
  {
    var t1, c1;
    v1, t1, c1 := FirstMkdir(v, d);
    c := c1;
    w, t, e := SecondFile(v1, t1, d, c, f);
  }

  /** On every such volume, and so on the blank one, the path `D/./F` leads to the file, but its size would
      be updated in the root. */
  lemma DotExample(v: Volume) returns (v1: Volume, w: Volume, t: Tree, e: FileInfo)
    requires Wide(v) && FreeFrom(v, 3)
    ensures Mkdir(v, [], [68]) == Outcome(None, v1) && VolumeOk(v1) && CreateFile(v1, [68], [70]) == Outcome(None, w)
    ensures Holds(w, t) && LeadsTo(w, DotPath([68], [70]), e) && Misdirected(View(w), DotPath([68], [70]))
  {
    var c;
    v1, w, t, c, e := FileInDirectory(v, 68, 70);
    LetterName(68);
    LetterName(70);
    DotMisdirects(View(w), [68], [70]);
  }

  // ----- a write that is not read back -----

  /** The root lists one directory with a file, and has room for another file of that name. */
  ghost predicate OneFile(v: Volume, t: Tree, d: u16, c: u32, e: FileInfo) {
    && Holds(v, t) && c in t.depth && c != v.root && FreeFrom(v, 5) && IsLetter(d)
    && List(v, v.root) == [FileInfo([d], true, 0, c)] && OneEntry(Dir(v, v.root), FormatTo83([d]))
    && IsName(e.name) && Find(List(v, c), e.name) == Some(e) && !e.isDirectory && HasCluster(v, e.startCluster)
  }

  /** The short names of two letters differ in their first byte. */
  lemma LettersApart(d: u16, f: u16)
    requires IsLetter(d) && IsLetter(f) && d != f
    ensures FormatTo83([d]).Some? && FormatTo83([f]).Some? && FormatTo83([d]).value[0] != FormatTo83([f]).value[0]
    ensures FormatTo83([f]).value[0] != 0
  {
    LetterName(d);
    LetterName(f);
    FormatIsShortName([d]);
    FormatIsShortName([f]);
  }

  lemma NoSlotUnder(slots: seq<Slot>, d: u16, f: u16)
    requires OneEntry(slots, FormatTo83([d])) && IsLetter(d) && IsLetter(f) && d != f && FormatTo83([f]).Some?
    ensures forall j :: 0 <= j < |slots| ==> slots[j][..11] != FormatTo83([f]).value
  {
    LettersApart(d, f);
    forall j | 0 <= j < |slots|
      ensures slots[j][..11] != FormatTo83([f]).value
    {
      assert slots[j][..11][0] == slots[j][0];
      assert j == 0 ==> slots[0][..11] == FormatTo83([d]).value;
    }
  }

  /** Creating a file in the root under the name of the file in the directory. */
  lemma SameName(v: Volume, t: Tree, d: u16, c: u32, e: FileInfo, f: u16) returns (w: Volume, u: Tree)
    requires OneFile(v, t, d, c, e) && e.name == [f] && IsLetter(f) && d != f
    ensures CreateFile(v, [], [f]) == Outcome(None, w) && Holds(w, u) && w.root == v.root
    ensures Find(List(w, w.root), [d]) == Some(FileInfo([d], true, 0, c)) && Find(List(w, c), [f]) == Some(e)
    ensures HasCluster(w, e.startCluster) && FormatTo83([f]).Some?
    ensures var j := ShortSlot(Dir(w, w.root), FormatTo83([f]).value, 0);
            j < |Dir(w, w.root)| && Live(Dir(w, w.root), j) && Start(Dir(w, w.root)[j]) != e.startCluster
  {
    SameNameSucceeds(v, t, d, c, e, f);
    LetterName(f);
    w := CreateFile(v, [], [f]).after;
    CreateFileAdds(v, t, [], [f]);
    RootsKept(v, [], [f]);
    u := GrowTree(t, v.root, Candidate(v).value, false);
    SameNameFound(v, t, d, c, e, w);
    SameNameSlot(v, t, d, f, w);
  }

  lemma SameNameSucceeds(v: Volume, t: Tree, d: u16, c: u32, e: FileInfo, f: u16)
    requires OneFile(v, t, d, c, e) && IsLetter(f)
    ensures CreateFile(v, [], [f]).error.None? && Candidate(v).Some?
  {
    LetterName(f);
    OneEntryPlace(v, v.root);
    FreeCandidate(v, 5);
    CreateSucceedsIff(v, t, [], [f]);
  }

  lemma SameNameFound(v: Volume, t: Tree, d: u16, c: u32, e: FileInfo, w: Volume)
    requires OneFile(v, t, d, c, e) && e.name != [d] && PrintsBack(e.name)
    requires Candidate(v).Some? && EntryAdded(v, t, w, v.root, e.name, false, Candidate(v).value)
    ensures Find(List(w, v.root), [d]) == Some(FileInfo([d], true, 0, c)) && Find(List(w, c), e.name) == Some(e)
    ensures e.startCluster != Candidate(v).value
  {
    var x := Candidate(v).value;
    FindInserted(List(v, v.root), List(w, v.root), InsertAt(v, v.root), FileInfo(e.name, false, 0, x), [d]);
    FindAtIndex(List(v, c), e.name);
    ListedElsewhere(v, t, c, e, x);
  }

  lemma SameNameSlot(v: Volume, t: Tree, d: u16, f: u16, w: Volume)
    requires Holds(v, t) && OneEntry(Dir(v, v.root), FormatTo83([d])) && IsLetter(d) && IsLetter(f) && d != f
    requires CreateFile(v, [], [f]) == Outcome(None, w)
    ensures Candidate(v).Some? && FormatTo83([f]).Some?
    ensures var j := ShortSlot(Dir(w, v.root), FormatTo83([f]).value, 0);
            j < |Dir(w, v.root)| && Live(Dir(w, v.root), j) && Start(Dir(w, v.root)[j]) == Candidate(v).value
  {
    LetterName(f);
    CreateFileGrows(v, t, [], [f]);
    NoSlotUnder(Dir(v, v.root), d, f);
    AddedOwnSlot(v, t, w, v.root, FreeSlot(Dir(v, v.root), 0), FormatTo83([f]).value, Candidate(v).value);
  }

  /** Making `D`, creating `D/F` and then `F`, and writing one byte to `D/./F` succeeds, but reading `D/./F`
      does not give the byte back: the size went to the other `F`. */
  lemma WriteNotReadBack(v: Volume, b: byte) returns (v1: Volume, v2: Volume, v3: Volume, w: Volume)
    requires Wide(v) && FreeFrom(v, 3)
    ensures Mkdir(v, [], [68]) == Outcome(None, v1) && VolumeOk(v1) && CreateFile(v1, [68], [70]) == Outcome(None, v2)
    ensures VolumeOk(v2) && CreateFile(v2, [], [70]) == Outcome(None, v3)
    ensures CanWrite(v3, DotPath([68], [70])) && WriteFile(v3, DotPath([68], [70]), [b]) == Outcome(None, w)
    ensures CanRead(w, DotPath([68], [70]), None) && ReadBytes(w, DotPath([68], [70]), None) != Ok([b])
  {
    var t, c, e, u;
    v1, v2, t, c, e := FileInDirectory(v, 68, 70);
    LetterName(70);
    v3, u := SameName(v2, t, 68, c, e, 70);
    w := WriteMisses(v3, u, 68, c, e, 70, b);
  }

  lemma WriteMisses(v: Volume, t: Tree, d: u16, c: u32, e: FileInfo, f: u16, b: byte) returns (w: Volume)
    requires Holds(v, t) && IsLetter(d) && IsLetter(f) && FormatTo83([f]).Some?
    requires Find(List(v, v.root), [d]) == Some(FileInfo([d], true, 0, c)) && Find(List(v, c), [f]) == Some(e)
    requires !e.isDirectory && e.size == 0 && HasCluster(v, e.startCluster)
    requires var j := ShortSlot(Dir(v, v.root), FormatTo83([f]).value, 0);
             j < |Dir(v, v.root)| && Live(Dir(v, v.root), j) && Start(Dir(v, v.root)[j]) != e.startCluster
    ensures var path := DotPath([d], [f]);
            && CanWrite(v, path) && WriteFile(v, path, [b]) == Outcome(None, w)
            && CanRead(w, path, None) && ReadBytes(w, path, None) != Ok([b])
  {
    DotMatches(v, t, d, c, e, f);
    w := EmptyNotReadBack(v, t, DotPath([d], [f]), e, b);
  }

  /** The path `d/./f` leads to one file, and the slot it matches is that of another. */
  lemma DotMatches(v: Volume, t: Tree, d: u16, c: u32, e: FileInfo, f: u16)
    requires Holds(v, t) && IsLetter(d) && IsLetter(f) && FormatTo83([f]).Some?
    requires Find(List(v, v.root), [d]) == Some(FileInfo([d], true, 0, c)) && Find(List(v, c), [f]) == Some(e)
    requires !e.isDirectory && HasCluster(v, e.startCluster)
    requires var j := ShortSlot(Dir(v, v.root), FormatTo83([f]).value, 0);
             j < |Dir(v, v.root)| && Live(Dir(v, v.root), j) && Start(Dir(v, v.root)[j]) != e.startCluster
    ensures var path := DotPath([d], [f]); LeadsTo(v, path, e) && MatchesEntry(v, path) && !OwnSlot(v, path, e)
  {
    LetterName(d);
    LetterName(f);
    DotMisdirects(View(v), [d], [f]);
    SplitAppended([d] + [SLASH] + DOT_NAME, [f]);
  }

  /** A byte written to an empty file is not read back if another entry gets the size. */
  lemma EmptyNotReadBack(v: Volume, t: Tree, path: Text, e: FileInfo, b: byte) returns (w: Volume)
    requires Holds(v, t) && LeadsTo(v, path, e) && MatchesEntry(v, path) && !OwnSlot(v, path, e) && e.size == 0
    ensures CanWrite(v, path) && WriteFile(v, path, [b]) == Outcome(None, w)
    ensures CanRead(w, path, None) && ReadBytes(w, path, None) != Ok([b])
  {
    WriteShape(v, t, path, e, [b]);
    w := WriteFile(v, path, [b]).after;
    WriteReadsBackIff(v, t, path, e, [b], w);
    assert [b][..1] == [b];
  }

  lemma BlankIsWide()
    ensures Wide(Blank()) && FreeFrom(Blank(), 3)
  {
    BlankHolds();
  }

  // ----- a directory that cannot be entered -----

  /** After making two directories of one name, `cd` reaches the first, not the one made last. */
  lemma MkdirTwice(v: Volume, d: u16) returns (v1: Volume, w: Volume)
    requires Wide(v) && FreeFrom(v, 3) && IsLetter(d)
    ensures Mkdir(v, [], [d]) == Outcome(None, v1) && VolumeOk(v1) && Mkdir(v1, [], [d]) == Outcome(None, w)
    ensures Candidate(v1).Some? && Cd(w, v.root, [d]) != Ok(Candidate(v1).value)
  {
    var t1, c1;
    v1, t1, c1 := FirstMkdir(v, d);
    LetterName(d);
    OneEntryPlace(v1, v.root);
    FreeCandidate(v1, 4);
    CreateSucceedsIff(v1, t1, [], [d]);
    w := Mkdir(v1, [], [d]).after;
    MkdirThenCd(v1, t1, [], [d], w);
    assert List(v1, v.root)[..1] == [FileInfo([d], true, 0, c1)];
  }

  /** After making a directory whose name is a small letter, `cd` to that name finds nothing: the directory is
      listed under the capital letter. */
  lemma MkdirLowerCase(v: Volume, d: u16) returns (w: Volume)
    requires Wide(v) && FreeFrom(v, 3) && IsSmallLetter(d)
    ensures Mkdir(v, [], [d]) == Outcome(None, w) && List(v, v.root) == [] && Cd(w, v.root, [d]) == Err(NoEntry)
  {
    FormattedHoldsRoot(v);
    FreeCandidate(v, 3);
    EmptyRoot(v);
    SmallLetterName(d);
    AsciiNameOk([d]);
    CreateSucceedsIff(v, RootTree(v), [], [d]);
    w := Mkdir(v, [], [d]).after;
    MkdirAdds(v, RootTree(v), [], [d]);
    CdName(w, v.root, [d]);
    var f := FileInfo(Print(FormatTo83([d]).value), true, 0, Candidate(v).value);
    FindInserted(List(v, v.root), List(w, v.root), InsertAt(v, v.root), f, [d]);
  }

  // ----- an entry in a file -----

  /** Creating a file in a formatted volume. */
  lemma FirstFile(v: Volume, a: u16) returns (w: Volume, t: Tree, c: u32)
    requires Wide(v) && FreeFrom(v, 3) && IsLetter(a)
    ensures CreateFile(v, [], [a]) == Outcome(None, w) && Candidate(v) == Some(c)
    ensures Holds(w, t) && w.root == v.root && FreeFrom(w, 4) && List(w, v.root) == [FileInfo([a], false, 0, c)]
    ensures Dir(w, c) == Dir(v, c)
  {
    FormattedHoldsRoot(v);
    FreeCandidate(v, 3);
    EmptyRoot(v);
    LetterName(a);
    var t0, name := RootTree(v), [a];
    CreateSucceedsIff(v, t0, [], name);
    w, c := CreateFile(v, [], name).after, Candidate(v).value;
    CreateFileAdds(v, t0, [], name);
    CreateFileGrows(v, t0, [], name);
    RootsKept(v, [], name);
    FirstListed(List(v, v.root), List(w, v.root), InsertAt(v, v.root), FileInfo(name, false, 0, c));
    t := GrowTree(t0, v.root, c, false);
    TakenFree(v, w, c, 3);
    CreateKeepsData(v, name, c);
  }

  lemma CreateKeepsData(v: Volume, name: Text, c: nat)
    requires VolumeOk(v) && c != v.root
    ensures Dir(CreateFile(v, [], name).after, c) == Dir(v, c)
  {
    assert CreateFile(v, [], name) == CreateIn(v, v.root, name);
    if FormatTo83(name).Some? && Candidate(v).Some? {
      var x := Candidate(v).value;
      AddKeepsData(SetLink(v, x, EOC), v.root, NewSlot(FormatTo83(name).value, ATTR_ARCHIVE, x), c);
    }
  }

  lemma AddKeepsData(v: Volume, p: nat, s: Slot, c: nat)
    requires c != p
    ensures Dir(AddEntry(v, p, s).after, c) == Dir(v, c)
  {
  }

  /** Creating the file `A` and then an entry `B` with the parent path `A` succeeds and changes `A`, if a
      slot of its cluster reads as free, as on the blank volume. */
  lemma CreateInFileExample(v: Volume) returns (v1: Volume, t: Tree, w: Volume)
    requires Wide(v) && FreeFrom(v, 3) && Candidate(v).Some? && HasRoom(v, Candidate(v).value)
    ensures CreateFile(v, [], [65]) == Outcome(None, v1) && VolumeOk(v1)
    ensures CreateFile(v1, [65], [66]) == Outcome(None, w)
    ensures Holds(v1, t) && !FilesKept(v1, t, w)
  {
    var c;
    v1, t, c := FirstFile(v, 65);
    LetterName(66);
    LetterPath(View(v1), 65, FileInfo([65], false, 0, c));
    FreeCandidate(v1, 4);
    var d, i := FileTarget(v1, t, v1.root, Parts([65]), FileInfo([65], false, 0, c));
    assert HasRoom(v1, c);
    CreateSucceedsIff(v1, t, [65], [66]);
    w := CreateFile(v1, [65], [66]).after;
    CreateSparesFilesIff(v1, t, [65], [66], w);
  }

  lemma BlankHasRoom()
    ensures VolumeOk(Blank()) && Candidate(Blank()).Some? && HasRoom(Blank(), Candidate(Blank()).value)
  {
    BlankHolds();
    BlankIsWide();
    FreeCandidate(Blank(), 3);
    BlankDir(Candidate(Blank()).value);
    assert IsEnd(Dir(Blank(), Candidate(Blank()).value)[0]);
  }
}
