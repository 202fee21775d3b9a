/** Reading a file, and what a read returns after a write. */
module ReadBack {
  import opened Arithmetic
  import opened Bytes
  import opened Text
  import opened Unicode
  import opened Scanning
  import opened Directory
  import opened Paths
  import opened FatVolume
  import opened Edits
  import opened Tree
  import opened Keeping
  import opened Resolution
  import opened Writing

  /** The chain the read follows ends; otherwise the code would not terminate. */
  ghost predicate CanRead(v: Volume, path: Text, current: Option<u32>) {
    match ParsePath(View(v), path, current)
    case None => true
    case Some(f) => f.isDirectory || exists ch :: IsChain(v, f.startCluster, ch)
  }

  /** The bytes that `read_file` decodes. */
  ghost function ReadBytes(v: Volume, path: Text, current: Option<u32>): Result<seq<byte>, Error>
    requires CanRead(v, path, current)
  {
    match ParsePath(View(v), path, current)
    case None => Err(FileNotFound)
    case Some(f) =>
      if f.isDirectory then Err(NotAFile)
      else
        var ch :| IsChain(v, f.startCluster, ch);
        Ok(Truncate(ChainBytes(v, ch), f.size))
  }

  /** `read_file`. */
  ghost function ReadFile(v: Volume, path: Text, current: Option<u32>): Result<Text, Error>
    requires CanRead(v, path, current)
  {
    match ReadBytes(v, path, current)
    case Err(e) => Err(e)
    case Ok(bytes) => DecodeContent(bytes)
  }

  function DecodeContent(bytes: seq<byte>): Result<Text, Error> {
    match FromUtf8(bytes)
    case None => Err(InvalidUtf8)
    case Some(text) => Ok(text)
  }

  /** Which chain does not matter: there is only one. */
  lemma ReadChain(v: Volume, path: Text, current: Option<u32>, f: FileInfo, ch: seq<nat>)
    requires VolumeOk(v) && ParsePath(View(v), path, current) == Some(f) && !f.isDirectory
    requires IsChain(v, f.startCluster, ch)
    ensures CanRead(v, path, current) && ReadBytes(v, path, current) == Ok(Truncate(ChainBytes(v, ch), f.size))
  {
    forall other | IsChain(v, f.startCluster, other)
      ensures other == ch
    {
      ChainUnique(v, f.startCluster, ch, other);
    }
  }

  /** The error of `read_file` by its cause. */
  lemma ReadErrors(v: Volume, path: Text, current: Option<u32>)
    requires CanRead(v, path, current)
    ensures var r, found := ReadFile(v, path, current), ParsePath(View(v), path, current);
            && (r == Err(FileNotFound) <==> found.None?)
            && (r == Err(NotAFile) <==> found.Some? && found.value.isDirectory)
            && (r == Err(InvalidUtf8) <==>
                  ReadBytes(v, path, current).Ok? && FromUtf8(ReadBytes(v, path, current).value).None?)
            && (r.Ok? || r.error == FileNotFound || r.error == NotAFile || r.error == InvalidUtf8)
  {
  }

  /** `ch` is the chain of a file in the words of the FAT: the low 28 bits of each lead to the next, and those of
      the last are one of the eight end marks. */
  predicate StoredChain(fat: seq<u32>, start: nat, ch: seq<nat>) {
    && ch != [] && ch[0] == start && (forall i :: 0 <= i < |ch| ==> 2 <= ch[i] < |fat|)
    && (forall i :: 0 <= i < |ch| - 1 ==> fat[ch[i]] as int % 0x1000_0000 == ch[i + 1])
    && 0x0FFF_FFF8 <= fat[ch[|ch| - 1]] as int % 0x1000_0000
  }

  /** The bytes of the clusters, one after the other. */
  function Contents(data: seq<seq<byte>>, ch: seq<nat>): seq<byte>
    requires forall i :: 0 <= i < |ch| ==> ch[i] < |data|
  {
    if ch == [] then [] else data[ch[0]] + Contents(data, ch[1..])
  }

  lemma {:induction false} ContentsSnoc(data: seq<seq<byte>>, ch: seq<nat>, c: nat)
    requires c < |data| && forall i :: 0 <= i < |ch| ==> ch[i] < |data|
    ensures Contents(data, ch + [c]) == Contents(data, ch) + data[c]
  {
    if ch == [] {
      assert ch + [c] == [c] && [c][1..] == [];
    } else {
      assert (ch + [c])[1..] == ch[1..] + [c];
      ContentsSnoc(data, ch[1..], c);
    }
  }

  lemma {:induction false} ContentsIs(v: Volume, ch: seq<nat>)
    requires forall i :: 0 <= i < |ch| ==> ch[i] < |v.data|
    ensures ChainBytes(v, ch) == Contents(v.data, ch)
  {
    if ch != [] {
      var n := |ch| - 1;
      ContentsIs(v, ch[..n]);
      ContentsSnoc(v.data, ch[..n], ch[n]);
      assert ch == ch[..n] + [ch[n]];
    }
  }

  /** Reading a file gives the bytes of its clusters in the order of its chain, up to its size. */
  lemma StoredFileRead(v: Volume, path: Text, current: Option<u32>, f: FileInfo, ch: seq<nat>)
    requires VolumeOk(v) && ParsePath(View(v), path, current) == Some(f) && !f.isDirectory
    requires StoredChain(v.fat, f.startCluster, ch)
    ensures CanRead(v, path, current) && ReadBytes(v, path, current).Ok?
    ensures var all, r := Contents(v.data, ch), ReadBytes(v, path, current).value;
            r <= all && (|r| == f.size || (r == all && |all| < f.size))
  {
    ReadChain(v, path, current, f, ch);
    ContentsIs(v, ch);
  }

  /** The bytes of a chain start with those of its first cluster. */
  lemma {:induction false} ChainStartsWith(v: Volume, ch: seq<nat>)
    requires ch != [] && ch[0] < |v.data|
    ensures v.data[ch[0]] <= ChainBytes(v, ch)
  {
    if |ch| > 1 {
      ChainStartsWith(v, ch[..|ch| - 1]);
    } else {
      assert ChainBytes(v, ch[..0]) == [];
    }
  }

  // ----- the entry after a write -----

  /** The slot whose size is updated is the file's own entry. */
  predicate OwnSlot(v: Volume, path: Text, f: FileInfo) {
    Matches(v, path) && SlotOf(Dir(v, SizeDir(View(v), path)), SizeSlot(v, path), f)
  }

  /** Slot `j` is listed and starts where the file does. */
  predicate SlotOf(slots: seq<Slot>, j: nat, f: FileInfo) {
    Live(slots, j) && Start(slots[j]) == f.startCluster
  }

  /** The matched slot is not a long-name fragment. */
  predicate MatchesEntry(v: Volume, path: Text) {
    Matches(v, path) && !IsLfn(Dir(v, SizeDir(View(v), path))[SizeSlot(v, path)])
  }

  /** Live slots are listed in slot order. */
  lemma ListedInOrder(slots: seq<Slot>, i: nat, j: nat)
    requires Live(slots, i) && Live(slots, j) && i < j
    ensures |Listing(slots[..i])| < |Listing(slots[..j])|
  {
    var pre := slots[..j];
    assert pre[..i] == slots[..i] && Live(pre, i);
    LiveAround(pre, i);
  }

  lemma LiveAround(slots: seq<Slot>, i: nat)
    requires Live(slots, i)
    ensures |Listing(slots[..i])| < |Listing(slots)|
  {
    PlainSlot(slots[i], Before(slots, i));
    ScanAround(SCAN, slots, i, IDLE);
  }

  /** After a size update of slot `j`, a name finds the same entry, with the new size exactly if the
      entry came from that slot. */
  lemma FindAfterResize(slots: seq<Slot>, i: nat, j: nat, size: u32, name: Text)
    requires Live(slots, i) && j < |slots| && !IsLfn(slots[j])
    requires Find(Listing(slots), name) == Some(InfoAt(slots, i))
    requires |Listing(slots[..i])| == FindIndex(Listing(slots), name)
    ensures Find(Listing(slots[j := Resized(slots[j], size)]), name)
         == Some(if i == j then InfoAt(slots, i).(size := size) else InfoAt(slots, i))
  {
    ResizedFields(slots[j], size);
    ListingResize(slots, j, Resized(slots[j], size));
    if Live(slots, j) {
      FindResized(Listing(slots), name, |Listing(slots[..j])|, size);
      if i < j {
        ListedInOrder(slots, i, j);
      } else if j < i {
        ListedInOrder(slots, j, i);
      }
    }
  }

  /** A live slot with the first cluster of a child is that child's slot. */
  lemma OwnSlotIff(v: Volume, t: Tree, d: nat, i: nat, dir: nat, j: nat)
    requires Holds(v, t) && Child(v, t, d, i) && !IsDirectory(Dir(v, d)[i]) && dir in t.depth && j < |Dir(v, dir)|
    ensures Live(Dir(v, dir), j) && Start(Dir(v, dir)[j]) == ChildStart(v, d, i) <==> d == dir && i == j
  {
    if Live(Dir(v, dir), j) && Start(Dir(v, dir)[j]) == ChildStart(v, d, i) {
      assert ChildStart(v, d, i) !in t.depth;
      if dir != v.root && j < 2 {
        DotsStartAtDirs(v, t, dir, j);
      }
      assert Child(v, t, dir, j) && ChildStart(v, dir, j) == ChildStart(v, d, i);
    }
  }

  /** The dot entries start at directories, or at 0. */
  lemma DotsStartAtDirs(v: Volume, t: Tree, d: nat, j: nat)
    requires Holds(v, t) && d in t.depth && d != v.root && j < 2
    ensures j < |Dir(v, d)| && (Start(Dir(v, d)[j]) in t.depth || Start(Dir(v, d)[j]) == 0)
  {
    assert NodeOk(v, t, d);
    assert ParentOk(v, t, d);
  }

  /** `w` is `v` after a write to the file at `s` that matched slot `j` of directory `dir`. */
  ghost predicate Written(v: Volume, t: Tree, w: Volume, s: nat, bytes: seq<byte>, dir: nat, j: nat) {
    && VolumeOk(v) && VolumeOk(w) && w.root == v.root && w.clusterSize == v.clusterSize && |w.data| == |v.data|
    && s in t.chain && s !in t.depth && InRange(v, s)
    && dir in t.depth && j < |Dir(v, dir)|
    && w.data[s] == Splice(v.data[s], 0, bytes[..Min(|bytes|, v.clusterSize)])
    && (forall d :: 0 <= d < |v.data| && d != s && d != dir ==> w.data[d] == v.data[d])
    && Dir(w, dir) == Dir(v, dir)[j := Resized(Dir(v, dir)[j], Min(|bytes|, v.clusterSize))]
    && (forall d :: d in t.depth && d != dir ==> Dir(w, d) == Dir(v, d))
    && Holds(v, t) && Holds(w, t)
  }

  lemma SizedBytes(v1: Volume, w: Volume, dir: nat, j: nat, size: u32)
    requires Sized(v1, w, dir, j, size)
    ensures |w.data| == |v1.data| && w.clusterSize == v1.clusterSize && dir < |v1.data|
    ensures forall d :: 0 <= d < |v1.data| && d != dir ==> w.data[d] == v1.data[d]
  {
  }

  /** Storing the bytes and setting the size makes a written volume. */
  lemma StoredThenSized(v: Volume, t: Tree, v1: Volume, w: Volume, s: nat, bytes: seq<byte>, dir: nat, j: nat)
    requires Holds(v, t) && s in t.chain && s !in t.depth && dir in t.depth
    requires Stored(v, v1, s, bytes) && Sized(v1, w, dir, j, Min(|bytes|, v.clusterSize))
    ensures Written(v, t, w, s, bytes, dir, j)
  {
    StoredKeeps(v, t, v1, s, bytes);
    assert NodeOk(v, t, dir);
    SizedDirs(v1, w, dir, j, Min(|bytes|, v.clusterSize));
    SizedKeeps(v1, t, w, dir, j, Min(|bytes|, v.clusterSize));
    SizedBytes(v1, w, dir, j, Min(|bytes|, v.clusterSize));
  }

  lemma WriteGives(v: Volume, t: Tree, path: Text, f: FileInfo, bytes: seq<byte>)
    requires Holds(v, t) && LeadsTo(v, path, f) && Matches(v, path)
    ensures Written(v, t, WriteTo(v, path, f, bytes).after, f.startCluster, bytes, SizeDir(View(v), path),
              SizeSlot(v, path))
  {
    WriteShape(v, t, path, f, bytes);
    WriteTargetInTree(v, t, path, f);
    WriteBytesStored(v, f.startCluster, bytes);
    StoredThenSized(v, t, WriteBytes(v, f.startCluster, bytes), WriteTo(v, path, f, bytes).after, f.startCluster,
      bytes, SizeDir(View(v), path), SizeSlot(v, path));
  }

  lemma ResizedLists(slots: seq<Slot>, j: nat, size: u32)
    requires j < |slots| && !IsLfn(slots[j])
    ensures SameEntries(Listing(slots), Listing(slots[j := Resized(slots[j], size)]))
  {
    ResizedFields(slots[j], size);
    ListingResize(slots, j, Resized(slots[j], size));
  }

  /** `w` differs from `v` in the directories of the tree only by the size field of slot `j` in `dir`. */
  ghost predicate OneSize(v: Volume, dirs: set<nat>, w: Volume, dir: nat, j: nat, size: u32) {
    && dir in dirs && j < |Dir(v, dir)| && !IsLfn(Dir(v, dir)[j]) && w.root == v.root
    && Dir(w, dir) == Dir(v, dir)[j := Resized(Dir(v, dir)[j], size)]
    && forall d :: d in dirs && d != dir ==> Dir(w, d) == Dir(v, d)
  }

  lemma OneSizeLists(v: Volume, dirs: set<nat>, w: Volume, dir: nat, j: nat, size: u32)
    requires OneSize(v, dirs, w, dir, j, size)
    ensures forall d :: d in dirs ==> SameEntries(View(v).list(d), View(w).list(d))
  {
    ResizedLists(Dir(v, dir), j, size);
  }

  /** Walks end in the same directory before and after. */
  lemma WalkAfterResize(v: Volume, dirs: set<nat>, w: Volume, dir: nat, j: nat, size: u32, parts: seq<Text>)
    requires OneSize(v, dirs, w, dir, j, size) && Closed(View(v), dirs) && v.root in dirs
    ensures LastDir(View(w), v.root, parts) == LastDir(View(v), v.root, parts)
  {
    OneSizeLists(v, dirs, w, dir, j, size);
    LastDirSame(View(v), View(w), dirs, v.root, parts);
  }

  /** What a name finds before and after. */
  lemma FindAfterWrite(v: Volume, t: Tree, w: Volume, dir: nat, j: nat, size: u32, d: nat, i: nat, name: Text)
    requires Holds(v, t) && OneSize(v, t.depth.Keys, w, dir, j, size)
    requires Child(v, t, d, i) && !IsDirectory(Dir(v, d)[i])
    requires Find(List(v, d), name) == Some(InfoAt(Dir(v, d), i))
    requires |Listing(Dir(v, d)[..i])| == FindIndex(List(v, d), name)
    ensures var f := InfoAt(Dir(v, d), i);
            Find(List(w, d), name) == Some(if SlotOf(Dir(v, dir), j, f) then f.(size := size) else f)
  {
    OwnSlotIff(v, t, d, i, dir, j);
    if d == dir {
      FindAfterResize(Dir(v, d), i, j, size, name);
    }
  }

  /** In a written volume the path leads to the same entry, with the new size exactly when the matched
      slot, not being a long-name fragment, is the file's own. */
  lemma WrittenResolves(v: Volume, t: Tree, w: Volume, path: Text, f: FileInfo, bytes: seq<byte>, dir: nat, j: nat)
    requires LeadsTo(v, path, f) && Written(v, t, w, f.startCluster, bytes, dir, j) && !IsLfn(Dir(v, dir)[j])
    ensures ParsePath(View(w), path, None)
         == Some(if SlotOf(Dir(v, dir), j, f) then f.(size := Min(|bytes|, v.clusterSize)) else f)
  {
    var n := Min(|bytes|, v.clusterSize);
    var d, i := WriteTarget(v, t, path, f);
    TreeClosed(v, t);
    WalkAfterResize(v, t.depth.Keys, w, dir, j, n, Parts(path));
    ResolveIsLookup(View(w), v.root, Parts(path));
    FindAfterWrite(v, t, w, dir, j, n, d, i, Last(Parts(path)));
  }

  // ----- the bytes after a write -----

  lemma {:induction false} ChainBytesLength(v: Volume, w: Volume, ch: seq<nat>)
    requires |w.data| == |v.data| && forall i :: 0 <= i < |ch| && ch[i] < |v.data| ==>
               |w.data[ch[i]]| == |v.data[ch[i]]|
    ensures |ChainBytes(w, ch)| == |ChainBytes(v, ch)|
  {
    if ch != [] {
      ChainBytesLength(v, w, ch[..|ch| - 1]);
    }
  }

  /** The chain after the write: same length, starting with the written bytes. */
  lemma WrittenChain(v: Volume, t: Tree, w: Volume, s: nat, bytes: seq<byte>, dir: nat, j: nat)
    requires Written(v, t, w, s, bytes, dir, j)
    ensures ChainOk(w, t.chain, s)
    ensures |ChainBytes(w, t.chain[s])| == |ChainBytes(v, t.chain[s])| >= v.clusterSize
    ensures bytes[..Min(|bytes|, v.clusterSize)] <= ChainBytes(w, t.chain[s])
  {
    var ch, n := t.chain[s], Min(|bytes|, v.clusterSize);
    assert ChainOk(v, t.chain, s) && ChainOk(w, t.chain, s);
    ChainBytesLength(v, w, ch);
    ChainStartsWith(w, ch);
    assert bytes[..n] <= w.data[s];
  }

  /** The bytes that are read in a written volume. */
  lemma WrittenReads(v: Volume, t: Tree, w: Volume, path: Text, f: FileInfo, bytes: seq<byte>, dir: nat, j: nat)
    requires LeadsTo(v, path, f) && Written(v, t, w, f.startCluster, bytes, dir, j) && !IsLfn(Dir(v, dir)[j])
    ensures CanRead(w, path, None)
    ensures ReadBytes(w, path, None)
         == Ok(Truncate(ChainBytes(w, t.chain[f.startCluster]),
           if SlotOf(Dir(v, dir), j, f) then Min(|bytes|, v.clusterSize) else f.size))
  {
    WrittenResolves(v, t, w, path, f, bytes, dir, j);
    WrittenChain(v, t, w, f.startCluster, bytes, dir, j);
    ReadChain(w, path, None, ParsePath(View(w), path, None).value, t.chain[f.startCluster]);
  }

  /** Reading gives back what was written exactly when the matched slot is the file's own, or the size
      the file already had shows the same number of bytes. */
  lemma WrittenReadsBackIff(v: Volume, t: Tree, w: Volume, path: Text, f: FileInfo, bytes: seq<byte>, dir: nat, j: nat)
    requires LeadsTo(v, path, f) && Written(v, t, w, f.startCluster, bytes, dir, j) && !IsLfn(Dir(v, dir)[j])
    ensures CanRead(w, path, None)
    ensures var n := Min(|bytes|, v.clusterSize);
            ReadBytes(w, path, None) == Ok(bytes[..n])
            <==> SlotOf(Dir(v, dir), j, f) || Min(f.size, |ChainBytes(v, t.chain[f.startCluster])|) == n
  {
    var n, all := Min(|bytes|, v.clusterSize), ChainBytes(w, t.chain[f.startCluster]);
    WrittenReads(v, t, w, path, f, bytes, dir, j);
    WrittenChain(v, t, w, f.startCluster, bytes, dir, j);
    TruncateIff(all, f.size, bytes[..n]);
    TruncateIff(all, n, bytes[..n]);
  }

  lemma TruncateIff(all: seq<byte>, size: nat, want: seq<byte>)
    requires want <= all
    ensures Truncate(all, size) == want <==> Min(size, |all|) == |want|
  {
  }

  // ----- the theorems -----

  /** Reading gives back what was written exactly when the matched slot is the file's own, or the size
      the file already had shows the same number of bytes. */
  lemma WriteReadsBackIff(v: Volume, t: Tree, path: Text, f: FileInfo, bytes: seq<byte>, w: Volume)
    requires Holds(v, t) && LeadsTo(v, path, f) && MatchesEntry(v, path)
    requires WriteFile(v, path, bytes) == Outcome(None, w)
    ensures f.startCluster in t.chain && CanRead(w, path, None)
    ensures var n := Min(|bytes|, v.clusterSize);
            ReadBytes(w, path, None) == Ok(bytes[..n])
            <==> OwnSlot(v, path, f) || Min(f.size, |ChainBytes(v, t.chain[f.startCluster])|) == n
  {
    WriteGives(v, t, path, f, bytes);
    WrittenReadsBackIff(v, t, w, path, f, bytes, SizeDir(View(v), path), SizeSlot(v, path));
  }

  /** If the matched slot is the file's own, reading gives back the first cluster's worth of what was
      written, for a chain of any length. */
  lemma WriteThenRead(v: Volume, t: Tree, path: Text, f: FileInfo, bytes: seq<byte>, w: Volume)
    requires Holds(v, t) && LeadsTo(v, path, f) && OwnSlot(v, path, f)
    requires WriteFile(v, path, bytes) == Outcome(None, w)
    ensures CanRead(w, path, None) && ReadBytes(w, path, None) == Ok(bytes[..Min(|bytes|, v.clusterSize)])
  {
    WriteReadsBackIff(v, t, path, f, bytes, w);
  }

  /** Writing to such a file succeeds, and reading gives the bytes back. */
  lemma WriteOwnReads(v: Volume, t: Tree, path: Text, f: FileInfo, bytes: seq<byte>)
    requires Holds(v, t) && LeadsTo(v, path, f) && OwnSlot(v, path, f)
    ensures CanWrite(v, path) && WriteFile(v, path, bytes).error.None?
    ensures var w := WriteFile(v, path, bytes).after;
            CanRead(w, path, None) && ReadBytes(w, path, None) == Ok(bytes[..Min(|bytes|, v.clusterSize)])
  {
    WriteShape(v, t, path, f, bytes);
    WriteThenRead(v, t, path, f, bytes, WriteFile(v, path, bytes).after);
  }

  /** What reading the first `n` bytes of a text gives: text exactly if all of it fits or it is not cut inside a
      character; then a prefix of the text, and all of it if it fits. */
  predicate ReadsCut(r: Result<Text, Error>, bytes: seq<byte>, n: nat)
    requires FromUtf8(bytes).Some?
  {
    && (r.Ok? <==> |bytes| <= n || !Continuation(bytes[n]))
    && (r.Ok? ==> r.value <= FromUtf8(bytes).value)
    && (|bytes| <= n ==> r == Ok(FromUtf8(bytes).value))
    && (r.Err? ==> r.error == InvalidUtf8)
  }

  lemma CutContent(bytes: seq<byte>, n: nat)
    requires FromUtf8(bytes).Some?
    ensures ReadsCut(DecodeContent(bytes[..Min(|bytes|, n)]), bytes, n)
  {
    Utf8Cut(bytes, Min(|bytes|, n));
    assert |bytes| <= n ==> bytes[..Min(|bytes|, n)] == bytes;
  }

  /** A text that was written to a file can be read exactly if it fits into a cluster or is not cut inside a
      character. */
  lemma TextReadsBackIff(v: Volume, t: Tree, path: Text, f: FileInfo, bytes: seq<byte>, w: Volume)
    requires Holds(v, t) && LeadsTo(v, path, f) && OwnSlot(v, path, f) && FromUtf8(bytes).Some?
    requires WriteFile(v, path, bytes) == Outcome(None, w)
    ensures CanRead(w, path, None) && ReadsCut(ReadFile(w, path, None), bytes, v.clusterSize)
  {
    WriteThenRead(v, t, path, f, bytes, w);
    CutContent(bytes, v.clusterSize);
  }

  /** Characters that were written, and fit into a cluster, are read back. */
  lemma CharactersReadBack(v: Volume, t: Tree, path: Text, f: FileInfo, cs: seq<nat>, w: Volume)
    requires Holds(v, t) && LeadsTo(v, path, f) && OwnSlot(v, path, f)
    requires AllChars(cs) && |ToUtf8(cs)| <= v.clusterSize && WriteFile(v, path, ToUtf8(cs)) == Outcome(None, w)
    ensures CanRead(w, path, None) && ReadFile(w, path, None) == Ok(ToUtf16(cs))
  {
    Utf8RoundTrip(cs);
    TextReadsBackIff(v, t, path, f, ToUtf8(cs), w);
  }

  /** ASCII up to the last byte of a cluster of `n` bytes, which starts a character of two bytes. */
  function LongText(n: nat): seq<byte>
    requires n > 0
  {
    seq(n - 1, _ => 0x41) + [0xC3, 0xA9]
  }

  lemma {:induction false} LongTextDecodes(n: nat)
    requires n > 0
    ensures FromUtf8(LongText(n)).Some?
  {
    var b := LongText(n);
    if n == 1 {
      assert b[2..] == [];
      assert DecodeOne(b).0 == 2;
    } else {
      LongTextDecodes(n - 1);
      assert b[1..] == LongText(n - 1);
    }
  }

  /** Writing such a text to any file succeeds, and then the file cannot be read. */
  lemma LongTextUnreadable(v: Volume, t: Tree, path: Text, f: FileInfo)
    requires Holds(v, t) && LeadsTo(v, path, f) && OwnSlot(v, path, f)
    ensures FromUtf8(LongText(v.clusterSize)).Some? && CanWrite(v, path)
    ensures var o := WriteFile(v, path, LongText(v.clusterSize));
            o.error.None? && CanRead(o.after, path, None) && ReadFile(o.after, path, None) == Err(InvalidUtf8)
  {
    var bytes := LongText(v.clusterSize);
    LongTextDecodes(v.clusterSize);
    WriteOwnReads(v, t, path, f, bytes);
    TextReadsBackIff(v, t, path, f, bytes, WriteFile(v, path, bytes).after);
  }

  /** All chains but those of `s` and `dir` keep their bytes. */
  ghost predicate OthersKept(v: Volume, t: Tree, w: Volume, s: nat, dir: nat) {
    forall r :: r in t.chain && r != s && r != dir ==> ChainBytes(w, t.chain[r]) == ChainBytes(v, t.chain[r])
  }

  lemma WrittenElsewhere(v: Volume, t: Tree, w: Volume, s: nat, bytes: seq<byte>, dir: nat, j: nat)
    requires Written(v, t, w, s, bytes, dir, j)
    ensures OthersKept(v, t, w, s, dir)
  {
    forall r | r in t.chain && r != s && r != dir
      ensures ChainBytes(w, t.chain[r]) == ChainBytes(v, t.chain[r])
    {
      ForeignClusters(v, t, r, s);
      ForeignClusters(v, t, r, dir);
      ChainBytesKept(v, w, t.chain[r]);
    }
  }

  /** No chain but its own contains an object's first cluster. */
  lemma ForeignClusters(v: Volume, t: Tree, r: nat, s: nat)
    requires ChainsOk(v, t) && r in t.chain && s in t.chain && r != s
    ensures s !in t.chain[r]
  {
    assert ChainOk(v, t.chain, s);
    assert Disjoint(t.chain, r, s);
    assert forall i :: 0 <= i < |t.chain[r]| ==> t.chain[r][i] != t.chain[s][0];
  }

  lemma StoredElsewhere(v: Volume, t: Tree, w: Volume, s: nat, bytes: seq<byte>)
    requires Holds(v, t) && s in t.chain && Stored(v, w, s, bytes)
    ensures OthersKept(v, t, w, s, s)
  {
    forall r | r in t.chain && r != s
      ensures ChainBytes(w, t.chain[r]) == ChainBytes(v, t.chain[r])
    {
      ForeignClusters(v, t, r, s);
      ChainBytesKept(v, w, t.chain[r]);
    }
  }

  /** Every write, successful or not, leaves the bytes of every other file alone. */
  lemma WriteToSpares(v: Volume, t: Tree, path: Text, f: FileInfo, bytes: seq<byte>)
    requires Holds(v, t) && LeadsTo(v, path, f)
    ensures forall r :: r in t.chain && r !in t.depth && r != f.startCluster ==>
              ChainBytes(WriteTo(v, path, f, bytes).after, t.chain[r]) == ChainBytes(v, t.chain[r])
  {
    var w, s := WriteTo(v, path, f, bytes).after, f.startCluster;
    WriteTargetInTree(v, t, path, f);
    WriteShape(v, t, path, f, bytes);
    if Matches(v, path) {
      WriteGives(v, t, path, f, bytes);
      WrittenElsewhere(v, t, w, s, bytes, SizeDir(View(v), path), SizeSlot(v, path));
    } else {
      WriteBytesStored(v, s, bytes);
      StoredElsewhere(v, t, w, s, bytes);
    }
  }

  /** All listings agree except for the size of the entry in slot `j` of `dir`. */
  ghost predicate OneListedSize(v: Volume, dirs: set<nat>, w: Volume, dir: nat, j: nat, size: u32) {
    && (forall d :: d in dirs && d != dir ==> List(w, d) == List(v, d))
    && j < |Dir(v, dir)|
    && var k := |Listing(Dir(v, dir)[..j])|;
       && k < |List(v, dir)| && List(v, dir)[k].startCluster == Start(Dir(v, dir)[j])
       && List(w, dir) == List(v, dir)[k := List(v, dir)[k].(size := size)]
  }

  lemma ListsAfterResize(v: Volume, dirs: set<nat>, w: Volume, dir: nat, j: nat, size: u32)
    requires OneSize(v, dirs, w, dir, j, size) && Live(Dir(v, dir), j)
    ensures OneListedSize(v, dirs, w, dir, j, size)
  {
    ResizedFields(Dir(v, dir)[j], size);
    ListingResize(Dir(v, dir), j, Resized(Dir(v, dir)[j], size));
  }

  /** A successful write leaves the bytes of every other file alone, and changes no listing but for
      the size of the file's own entry. */
  lemma WriteLeavesRest(v: Volume, t: Tree, path: Text, f: FileInfo, bytes: seq<byte>, w: Volume)
    requires Holds(v, t) && LeadsTo(v, path, f) && OwnSlot(v, path, f)
    requires WriteFile(v, path, bytes) == Outcome(None, w)
    ensures OthersKept(v, t, w, f.startCluster, SizeDir(View(v), path))
    ensures OneListedSize(v, t.depth.Keys, w, SizeDir(View(v), path), SizeSlot(v, path), Min(|bytes|, v.clusterSize))
  {
    var dir, j := SizeDir(View(v), path), SizeSlot(v, path);
    WriteGives(v, t, path, f, bytes);
    WrittenElsewhere(v, t, w, f.startCluster, bytes, dir, j);
    ListsAfterResize(v, t.depth.Keys, w, dir, j, Min(|bytes|, v.clusterSize));
  }

  /** A write that matches a long-name fragment sets no size: every directory lists the same entries, and
      only in the directory of the fragment some names may differ. */
  lemma WriteHitsFragment(v: Volume, t: Tree, path: Text, f: FileInfo, bytes: seq<byte>, w: Volume)
    requires Holds(v, t) && LeadsTo(v, path, f) && Matches(v, path) && !MatchesEntry(v, path)
    requires WriteFile(v, path, bytes) == Outcome(None, w)
    ensures var dir := SizeDir(View(v), path);
            && SameButNames(List(v, dir), List(w, dir))
            && forall d :: d in t.depth && d != dir ==> List(w, d) == List(v, d)
  {
    var dir, j := SizeDir(View(v), path), SizeSlot(v, path);
    WriteGives(v, t, path, f, bytes);
    ResizedFields(Dir(v, dir)[j], Min(|bytes|, v.clusterSize));
    FragmentResize(Dir(v, dir), j, Resized(Dir(v, dir)[j], Min(|bytes|, v.clusterSize)));
  }
}
