/** The volume as the code sees it: a table of 32-bit FAT words and the bytes of every cluster,
    with the file-system operations as functions from volume to volume. */
module FatVolume {
  import opened Arithmetic
  import opened Bytes
  import opened Text
  import opened ShortName
  import opened Directory
  import opened Paths

  const END_OF_CHAIN := 0x0FFF_FFF8
  const EOC := 0x0FFF_FFFF
  const SCAN_LIMIT := 50000
  const ATTR_ARCHIVE: byte := 0x20
  const ATTR_DIRECTORY: byte := 0x10

  /** `fat[c]` is the raw FAT word of cluster `c`; `data[c]` its bytes, meaningful from cluster 2 on. */
  datatype Volume = Volume(clusterSize: nat, root: u32, fat: seq<u32>, data: seq<seq<byte>>)

  predicate InRange(v: Volume, c: int) { 2 <= c < |v.fat| }

  /** Clusters are whole slots and at least two; the tables cover every cluster the allocator scans;
      cluster numbers fit below the reserved FAT values. */
  predicate VolumeOk(v: Volume) {
    && v.clusterSize % 32 == 0 && v.clusterSize >= 64
    && SCAN_LIMIT <= |v.fat| == |v.data| <= 0x0FFF_FFF0
    && v.clusterSize < 0x1_0000_0000
    && InRange(v, v.root)
    && forall c :: 2 <= c < |v.data| ==> |v.data[c]| == v.clusterSize
  }

  // ----- the FAT -----

  /** `read_fat_entry`: the low 28 bits. */
  function Link(v: Volume, c: nat): nat
    requires c < |v.fat|
  {
    v.fat[c] as int % 0x1000_0000
  }

  /** The word `write_fat_entry` stores: the top four bits stay. */
  function Relink(word: u32, value: nat): u32 {
    word as int / 0x1000_0000 * 0x1000_0000 + value % 0x1000_0000
  }

  function SetLink(v: Volume, c: nat, value: nat): Volume
    requires c < |v.fat|
  {
    v.(fat := v.fat[c := Relink(v.fat[c], value)])
  }

  /** The least cluster from `c` on whose entry is free, or the scan limit. */
  function FirstFree(fat: seq<u32>, c: nat): (r: nat)
    requires c <= SCAN_LIMIT <= |fat|
    ensures c <= r <= SCAN_LIMIT
    ensures forall k :: c <= k < r ==> fat[k] as int % 0x1000_0000 != 0
    ensures r < SCAN_LIMIT ==> fat[r] as int % 0x1000_0000 == 0
    decreases SCAN_LIMIT - c
  {
    if c == SCAN_LIMIT || fat[c] as int % 0x1000_0000 == 0 then c else FirstFree(fat, c + 1)
  }

  /** The cluster `allocate_cluster` would take. */
  function Candidate(v: Volume): Option<nat>
    requires VolumeOk(v)
  {
    var c := FirstFree(v.fat, 2);
    if c == SCAN_LIMIT then None else Some(c)
  }

  // ----- directories -----

  /** The slots of a cluster; none if there is no such cluster. */
  function Dir(v: Volume, c: nat): seq<Slot> {
    if c < |v.data| then Slots(v.data[c]) else []
  }

  function List(v: Volume, c: nat): seq<FileInfo> { Listing(Dir(v, c)) }

  /** The volume as path resolution sees it. */
  function View(v: Volume): Catalog {
    Catalog(v.root, (c: nat) => List(v, c))
  }

  // ----- edits -----

  /** A new short entry: name, attribute, the two halves of the cluster, size 0. */
  function NewSlot(short: seq<byte>, attr: byte, c: u32): Slot
    requires |short| == 11
  {
    short + [attr] + Zeros(8) + Le16(c / 0x1_0000) + Zeros(4) + Le16(c % 0x1_0000) + Zeros(4)
  }

  function Zeros(n: nat): (r: seq<byte>)
    ensures |r| == n
  {
    seq(n, _ => 0)
  }

  const DOT_SHORT: seq<byte> := [0x2E] + Blanks(10)
  const DOT_DOT_SHORT: seq<byte> := [0x2E, 0x2E] + Blanks(9)

  function Blanks(n: nat): (r: seq<byte>)
    ensures |r| == n
  {
    seq(n, _ => 0x20)
  }

  function SetData(v: Volume, c: nat, bytes: seq<byte>): Volume
    requires c < |v.data|
  {
    v.(data := v.data[c := bytes])
  }

  /** `write_directory_entry`. */
  function PutSlot(v: Volume, c: nat, i: nat, s: Slot): Volume
    requires c < |v.data| && 32 * i + 32 <= |v.data[c]|
  {
    SetData(v, c, Splice(v.data[c], 32 * i, s))
  }

  /** The bytes `init_directory_cluster` writes. */
  function FreshDirectory(v: Volume, c: u32, parent: u32): (r: seq<byte>)
    requires v.clusterSize >= 64
    ensures |r| == v.clusterSize
  {
    var up := if parent == v.root then 0 else parent;
    NewSlot(DOT_SHORT, ATTR_DIRECTORY, c) + NewSlot(DOT_DOT_SHORT, ATTR_DIRECTORY, up) + Zeros(v.clusterSize - 64)
  }

  // ----- operations -----

  datatype Error =
    | ParentNotFound
    | InvalidName
    | DiskFull
    | NoSpace
    | FileNotFound
    | NotAFile
    | EntryNotFound
    | InvalidUtf8

  /** The outcome of an operation and the volume it leaves behind, also on failure. */
  datatype Outcome = Outcome(error: Option<Error>, after: Volume)

  /** Index of the first free slot from `i` on. */
  function FreeSlot(slots: seq<Slot>, i: nat): (r: nat)
    requires i <= |slots|
    ensures i <= r <= |slots|
    ensures forall k :: i <= k < r ==> !IsFree(slots[k])
    ensures r < |slots| ==> IsFree(slots[r])
    decreases |slots| - i
  {
    if i == |slots| || IsFree(slots[i]) then i else FreeSlot(slots, i + 1)
  }

  /** Index of the first slot from `i` on that starts with the short name. */
  function ShortSlot(slots: seq<Slot>, short: seq<byte>, i: nat): (r: nat)
    requires i <= |slots|
    ensures i <= r <= |slots|
    ensures forall k :: i <= k < r ==> slots[k][..11] != short
    ensures r < |slots| ==> slots[r][..11] == short
    decreases |slots| - i
  {
    if i == |slots| || slots[i][..11] == short then i else ShortSlot(slots, short, i + 1)
  }

  /** The last step of `create_file` and `mkdir`: the entry goes into the first free slot. */
  function AddEntry(v: Volume, dir: nat, s: Slot): Outcome
  {
    var slots := Dir(v, dir);
    var i := FreeSlot(slots, 0);
    if i == |slots| then Outcome(Some(NoSpace), v) else Outcome(None, PutSlot(v, dir, i, s))
  }

  /** `create_file` once the directory is known. */
  function CreateIn(v: Volume, dir: u32, name: Text): Outcome
    requires VolumeOk(v)
  {
    match FormatTo83(name)
    case None => Outcome(Some(InvalidName), v)
    case Some(short) =>
      match Candidate(v)
      case None => Outcome(Some(DiskFull), v)
      case Some(c) => AddEntry(SetLink(v, c, EOC), dir, NewSlot(short, ATTR_ARCHIVE, c))
  }

  /** `mkdir` once the parent directory is known. */
  function MkdirIn(v: Volume, dir: u32, name: Text): Outcome
    requires VolumeOk(v)
  {
    match Candidate(v)
    case None => Outcome(Some(DiskFull), v)
    case Some(c) =>
      var v1 := SetData(SetLink(v, c, EOC), c, FreshDirectory(v, c, dir));
      match FormatTo83(name)
      case None => Outcome(Some(InvalidName), v1)
      case Some(short) => AddEntry(v1, dir, NewSlot(short, ATTR_DIRECTORY, c))
  }

  /** `create_file`. */
  function CreateFile(v: Volume, parentPath: Text, name: Text): Outcome
    requires VolumeOk(v)
  {
    match TargetDir(View(v), parentPath)
    case None => Outcome(Some(ParentNotFound), v)
    case Some(dir) => CreateIn(v, dir, name)
  }

  /** `mkdir`. */
  function Mkdir(v: Volume, parentPath: Text, name: Text): Outcome
    requires VolumeOk(v)
  {
    match TargetDir(View(v), parentPath)
    case None => Outcome(Some(ParentNotFound), v)
    case Some(dir) => MkdirIn(v, dir, name)
  }

  function Resized(s: Slot, size: u32): Slot { s[..28] + Le32(size) }

  /** `update_file_size`. */
  function UpdateFileSize(v: Volume, path: Text, size: u32): Outcome {
    match FormatTo83(FileName(path))
    case None => Outcome(Some(InvalidName), v)
    case Some(short) => SetSize(v, SizeDir(View(v), path), short, size)
  }

  /** Sets the size of the first slot of `dir` that starts with the short name. */
  function SetSize(v: Volume, dir: nat, short: seq<byte>, size: u32): Outcome {
    var slots := Dir(v, dir);
    var i := ShortSlot(slots, short, 0);
    if i == |slots| then Outcome(Some(EntryNotFound), v)
    else Outcome(None, PutSlot(v, dir, i, Resized(slots[i], size)))
  }

  /** Cluster `c` exists. */
  predicate HasCluster(v: Volume, c: nat) {
    2 <= c < |v.data| && |v.data[c]| == v.clusterSize < 0x1_0000_0000
  }

  /** `write_file` up to the size update: the bytes go over the front of the first cluster. */
  function WriteBytes(v: Volume, c: nat, bytes: seq<byte>): Volume
    requires HasCluster(v, c)
  {
    SetData(v, c, Splice(v.data[c], 0, bytes[..Min(|bytes|, v.clusterSize)]))
  }

  /** The path leads to the file `f`, which owns a cluster. */
  predicate LeadsTo(v: Volume, path: Text, f: FileInfo) {
    && ParsePath(View(v), path, None) == Some(f) && !f.isDirectory && HasCluster(v, f.startCluster)
  }

  /** The part of `write_file` after the checks. */
  function WriteTo(v: Volume, path: Text, f: FileInfo, bytes: seq<byte>): Outcome
    requires HasCluster(v, f.startCluster)
  {
    UpdateFileSize(WriteBytes(v, f.startCluster, bytes), path, Min(|bytes|, v.clusterSize))
  }

  /** `write_file`. The code computes the offset of the first cluster without checking it, so a file
      must own one. */
  function WriteFile(v: Volume, path: Text, bytes: seq<byte>): Outcome
    requires CanWrite(v, path)
  {
    match ParsePath(View(v), path, None)
    case None => Outcome(Some(FileNotFound), v)
    case Some(f) => if f.isDirectory then Outcome(Some(NotAFile), v) else WriteTo(v, path, f, bytes)
  }

  predicate CanWrite(v: Volume, path: Text) {
    match ParsePath(View(v), path, None)
    case None => true
    case Some(f) => f.isDirectory || HasCluster(v, f.startCluster)
  }

  // ----- reading -----

  /** `ch` is the cluster chain that starts at `c`: every link is followed and the last one ends it. */
  predicate IsChain(v: Volume, c: nat, ch: seq<nat>) {
    && |ch| >= 1 && ch[0] == c
    && (forall i :: 0 <= i < |ch| ==> InRange(v, ch[i]))
    && (forall i :: 0 <= i < |ch| - 1 ==> Link(v, ch[i]) == ch[i + 1])
    && Link(v, ch[|ch| - 1]) >= END_OF_CHAIN
  }

  /** The bytes of the chain's clusters, in order. */
  function ChainBytes(v: Volume, ch: seq<nat>): seq<byte> {
    if ch == [] then []
    else
      var last := ch[|ch| - 1];
      ChainBytes(v, ch[..|ch| - 1]) + (if last < |v.data| then v.data[last] else [])
  }

  function Truncate(bytes: seq<byte>, size: nat): seq<byte> {
    if size < |bytes| then bytes[..size] else bytes
  }
}
