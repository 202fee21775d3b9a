/** The file system over the raw bytes of the disk. Every method is proved against the operation on
    volumes that it implements. */
module Disk {
  import opened Arithmetic
  import opened Bytes
  import opened Text
  import opened ShortName
  import opened Directory
  import opened Paths
  import opened FatVolume
  import opened Tree
  import opened Resolution
  import opened Creation
  import opened Writing
  import opened ReadBack
  import opened DiskGeometry
  import opened DirectoryReader

  /** Copies `part` over the bytes starting at `at`. */
  method CopyInto(a: array<byte>, at: nat, part: seq<byte>)
    requires at + |part| <= a.Length
    modifies a
    ensures a[..] == Splice(old(a[..]), at, part)
  {
    for i := 0 to |part|
      invariant forall k :: at <= k < at + i ==> a[k] == part[k - at]
      invariant forall k :: 0 <= k < a.Length && !(at <= k < at + i) ==> a[k] == old(a[k])
    {
      a[at + i] := part[i];
    }
  }

  lemma Joined(s: seq<byte>, a: nat, b: nat, c: nat)
    requires a <= b <= c <= |s|
    ensures s[a..b] + s[b..c] == s[a..c]
  {
  }

  /** A product of the code, which fits 32 bits. */
  method Product(a: u32, b: u32) returns (r: u32)
    requires Times(a, b) < 0x1_0000_0000
    ensures r == Times(a, b)
  {
    TimesIs(a, b);
    r := a as int * b as int;
  }

  /** The sector of a byte offset behind sector `base`, and the rest, for a word that ends before `limit`. */
  method SplitOffset(base: u32, offset: nat, bps: nat, ghost limit: u32) returns (sector: u32, index: nat)
    requires bps > 0 && bps % 4 == 0 && offset % 4 == 0 && Times(base, bps) + offset + 4 <= Times(limit, bps)
    ensures Times(sector, bps) + index == Times(base, bps) + offset && index + 4 <= bps
    ensures Times(sector, bps) + bps <= Times(limit, bps)
  {
    SectorInside(base, offset, bps, limit);
    QuotIs(offset, bps);
    sector := base as int + offset / bps;
    index := offset % bps;
  }

  /** The sector of byte `offset` behind the start of sector `start`, and the rest. */
  method SplitByte(start: u32, offset: nat, bps: nat, ghost base: nat, ghost len: u32) returns (sector: u32, index: nat)
    requires bps > 0 && Times(start, bps) == base && base + offset < len
    ensures Times(sector, bps) < len && Times(sector, bps) + index == base + offset
  {
    ByteOffset(start, offset, bps, base, len);
    QuotIs(offset, bps);
    sector := start as int + offset / bps;
    index := offset % bps;
  }

  class Fat32FileSystem {
    const g: Geometry
    const disk: array<byte>
    /** The number of clusters, counted from 0. */
    ghost const n: nat

    ghost predicate Valid() {
      Fits(g, disk.Length, n)
    }

    /** The volume on the disk. */
    ghost function Vol(): Volume
      requires Valid()
      reads disk
    {
      VolumeIn(g, n, disk[..])
    }

    /** Mounts a disk: the geometry comes from its boot sector. */
    constructor (image: array<byte>, ghost clusters: nat)
      requires Mountable(image[..], clusters)
      ensures Valid() && disk == image && n == clusters && Vol() == Mounted(image[..], clusters)
    {
      disk := image;
      g := BootGeometry(image[..]);
      n := clusters;
    }

    // ----- reading -----

    /** Reads one sector; `offset` is where it starts. */
    method ReadSector(address: u32, ghost offset: nat) returns (r: seq<byte>)
      requires offset == Times(address, g.bytesPerSector)
      requires offset + g.bytesPerSector <= disk.Length < 0x1_0000_0000
      ensures r == disk[offset..offset + g.bytesPerSector]
    {
      var start := Product(address, g.bytesPerSector);
      r := disk[start..start + g.bytesPerSector];
    }

    /** Reads consecutive sectors. */
    method ReadSectors(start: u32, count: u32, ghost offset: nat) returns (data: seq<byte>)
      requires g.bytesPerSector > 0 && Times(start, g.bytesPerSector) == offset
      requires offset + Times(count, g.bytesPerSector) <= disk.Length < 0x1_0000_0000
      ensures data == disk[..][offset..offset + Times(count, g.bytesPerSector)]
    {
      data := [];
      ghost var end := offset;
      for i := 0 to count
        invariant end == offset + Times(i, g.bytesPerSector) <= disk.Length
        invariant data == disk[..][offset..end]
      {
        SectorAt(start, i, count, g.bytesPerSector, offset, disk.Length);
        data := AppendSector(data, start as int + i, offset, end);
        end := end + g.bytesPerSector;
      }
    }

    /** Appends the sector that starts at `at` to the bytes from `offset` on. */
    method AppendSector(data: seq<byte>, address: u32, ghost offset: nat, ghost at: nat) returns (r: seq<byte>)
      requires at == Times(address, g.bytesPerSector) && offset <= at
      requires at + g.bytesPerSector <= disk.Length < 0x1_0000_0000
      requires data == disk[..][offset..at]
      ensures r == disk[..][offset..at + g.bytesPerSector]
    {
      var sector := ReadSector(address, at);
      assert sector == disk[..][at..at + g.bytesPerSector];
      r := data + sector;
      Joined(disk[..], offset, at, at + g.bytesPerSector);
    }

    /** The first sector of a cluster. */
    method StartSector(c: u32) returns (sector: u32)
      requires 2 <= c && FirstSector(g, c) < 0x1_0000_0000
      ensures sector == FirstSector(g, c)
    {
      var before := Product(c as int - 2, g.sectorsPerCluster);
      sector := g.dataSector as int + before as int;
    }

    /** `read_cluster`: all sectors of a cluster. */
    method ReadCluster(c: u32) returns (data: seq<byte>)
      requires Valid() && 2 <= c < n
      ensures data == Vol().data[c]
    {
      ClusterSectors(g, disk.Length, n, c);
      var start := StartSector(c);
      data := ReadSectors(start, g.sectorsPerCluster, ClusterOffset(g, c));
    }

    /** Reads four bytes of the sector that starts at `offset`. */
    method ReadWord(sector: u32, index: nat, ghost offset: nat) returns (word: u32)
      requires offset == Times(sector, g.bytesPerSector) && index + 4 <= g.bytesPerSector
      requires offset + g.bytesPerSector <= disk.Length < 0x1_0000_0000
      ensures word == FromLe32(disk[offset + index..offset + index + 4])
    {
      var bytes := ReadSector(sector, offset);
      assert bytes[index..index + 4] == disk[offset + index..offset + index + 4];
      word := FromLe32(bytes[index..index + 4]);
    }

    /** The FAT word of cluster `c` lies before the data area. */
    ghost predicate HasEntry(c: u32) {
      && g.bytesPerSector > 0 && g.bytesPerSector % 4 == 0 && 4 * c as int < 0x1_0000_0000
      && FatOffset(g, c) + 4 <= DataStart(g) <= disk.Length < 0x1_0000_0000
    }

    lemma EntryInside(c: u32)
      requires Valid() && c < n
      ensures HasEntry(c)
    {
      EntryFits(g, disk.Length, n, c);
    }

    /** Reads a FAT word through its sector. */
    method ReadFatWord(c: u32) returns (word: u32)
      requires HasEntry(c)
      ensures word == FromLe32(disk[FatOffset(g, c)..FatOffset(g, c) + 4])
    {
      var fatOffset: u32 := 4 * c as int;
      var fatSector, fatIndex := SplitOffset(g.fatSector, fatOffset, g.bytesPerSector, g.dataSector);
      word := ReadWord(fatSector, fatIndex, FatOffset(g, c) - fatIndex);
    }

    /** `read_fat_entry`: the FAT entry of a cluster without its top four bits. */
    method ReadFatEntry(c: u32) returns (entry: u32)
      requires Valid() && c < n
      ensures entry == Link(Vol(), c)
    {
      EntryInside(c);
      var word := ReadFatWord(c);
      assert disk[FatOffset(g, c)..FatOffset(g, c) + 4] == disk[..][FatOffset(g, c)..FatOffset(g, c) + 4];
      entry := word as int % 0x1000_0000;
    }

    // ----- writing -----

    /** The offset on the disk of a FAT entry, as the code computes it for writing. */
    method FatEntryOffset(c: u32) returns (at: nat)
      requires HasEntry(c)
      ensures at == FatOffset(g, c)
    {
      var fatOffset: u32 := 4 * c as int;
      var sectorNum, offsetInSector := SplitOffset(g.fatSector, fatOffset, g.bytesPerSector, g.dataSector);
      var base := Product(sectorNum, g.bytesPerSector);
      at := base as int + offsetInSector;
    }

    /** `write_fat_entry`: stores 28 bits and keeps the top four. */
    method WriteFatEntry(c: u32, value: u32)
      requires Valid() && c < n
      modifies disk
      ensures Vol() == SetLink(old(Vol()), c, value)
      ensures SameOutside(g, n, old(disk[..]), disk[..])
    {
      EntryInside(c);
      ghost var before := disk[..];
      var at := FatEntryOffset(c);
      assert disk[at..at + 4] == before[at..at + 4];
      var word := Relink(FromLe32(disk[at..at + 4]), value);
      CopyInto(disk, at, Le32(word));
      FatWritten(g, n, before, disk[..], c, word);
    }

    /** The offset on the disk of byte `offset` of a cluster, as the code computes it. */
    method OffsetIn(c: u32, offset: nat) returns (at: nat)
      requires Valid() && 2 <= c < n && offset < ClusterSize(g)
      ensures at == ClusterOffset(g, c) + offset
    {
      ClusterSectors(g, disk.Length, n, c);
      var startSector := StartSector(c);
      var sector, index := SplitByte(startSector, offset, g.bytesPerSector, ClusterOffset(g, c), disk.Length);
      var base := Product(sector, g.bytesPerSector);
      at := base as int + index;
    }

    /** Overwrites bytes inside one cluster. */
    method WriteInside(c: u32, offset: nat, bytes: seq<byte>)
      requires Valid() && 2 <= c < n && offset < ClusterSize(g) && offset + |bytes| <= ClusterSize(g)
      modifies disk
      ensures |old(Vol()).data[c]| == ClusterSize(g)
      ensures Vol() == SetData(old(Vol()), c, Splice(old(Vol()).data[c], offset, bytes))
      ensures SameOutside(g, n, old(disk[..]), disk[..])
    {
      ghost var before := disk[..];
      var at := OffsetIn(c, offset);
      ClusterInside(g, disk.Length, n, c);
      CopyInto(disk, at, bytes);
      DataWritten(g, n, before, disk[..], c, offset, bytes);
    }
  
    /** `allocate_cluster`: reserves the first free cluster, if there is one below the scan limit. */
    method AllocateCluster() returns (r: Result<u32, Error>)
      requires Valid()
      modifies disk
      ensures VolumeOk(old(Vol())) && SameOutside(g, n, old(disk[..]), disk[..])
      ensures match Candidate(old(Vol()))
              case None => r == Err(DiskFull) && Vol() == old(Vol())
              case Some(c) => r == Ok(c) && Vol() == Allocated(old(Vol()), c)
    {
      DecodeOk(g, n, disk[..]);
      var c := FindFreeCluster();
      if c == SCAN_LIMIT {
        return Err(DiskFull);
      }
      WriteFatEntry(c, EOC);
      return Ok(c);
    }

    /** The scan of `allocate_cluster`. */
    method FindFreeCluster() returns (c: nat)
      requires Valid() && VolumeOk(Vol())
      ensures c == FirstFree(Vol().fat, 2)
    {
      ghost var fat := Vol().fat;
      c := 2;
      while c < SCAN_LIMIT
        invariant 2 <= c <= SCAN_LIMIT
        invariant FirstFree(fat, 2) == FirstFree(fat, c)
      {
        var entry := ReadFatEntry(c);
        if entry == 0 {
          return;
        }
        c := c + 1;
      }
    }

    /** `write_directory_entry`. */
    method WriteDirectoryEntry(c: u32, i: nat, entry: Slot)
      requires Valid() && 2 <= c < n && i < |Dir(Vol(), c)|
      modifies disk
      ensures i < |Dir(old(Vol()), c)| && Vol() == PutSlot(old(Vol()), c, i, entry)
      ensures SameOutside(g, n, old(disk[..]), disk[..])
    {
      DecodeOk(g, n, disk[..]);
      WriteInside(c, 32 * i, entry);
    }

    /** `init_directory_cluster`: the dot entries, and zeros. */
    method InitDirectoryCluster(c: u32, parent: u32)
      requires Valid() && 2 <= c < n
      modifies disk
      ensures VolumeOk(old(Vol())) && Vol() == SetData(old(Vol()), c, FreshDirectory(old(Vol()), c, parent))
      ensures SameOutside(g, n, old(disk[..]), disk[..])
    {
      DecodeOk(g, n, disk[..]);
      var size := Product(g.sectorsPerCluster, g.bytesPerSector);
      var data := BuildDirectory(size, c, if parent == g.rootCluster then 0 else parent);
      ghost var v := Vol();
      WriteInside(c, 0, data);
      assert Splice(v.data[c], 0, data) == data;
    }

    // ----- directories and paths -----

    /** `list_directory_entries`. */
    method ListDirectoryEntries(c: u32) returns (files: seq<FileInfo>)
      requires Valid() && 2 <= c < n
      ensures files == List(Vol(), c)
    {
      var data := ReadCluster(c);
      files := ListEntries(data);
    }

    /** `find_parent_cluster`. */
    method FindParentCluster(c: u32) returns (parent: Option<u32>)
      requires Valid() && 2 <= c < n
      ensures parent == ParentCluster(View(Vol()), c)
    {
      if c == g.rootCluster {
        return None;
      }
      var files := ListDirectoryEntries(c);
      var up := Find(files, DOT_DOT_NAME);
      parent :=
        if up.None? then None
        else Some(if up.value.startCluster == 0 then g.rootCluster else up.value.startCluster);
    }

    /** The loop of `parse_path`, inside a set of directories it does not leave. */
    method Walk(start: u32, parts: seq<Text>, ghost k: Catalog, ghost dirs: set<nat>) returns (r: Option<FileInfo>)
      requires Valid() && k == View(Vol()) && Closed(k, dirs) && start in dirs
      requires forall d :: d in dirs ==> 2 <= d < n
      ensures r == Resolve(k, start, parts)
    {
      var cluster: u32 := start;
      var i := 0;
      while i < |parts|
        invariant 0 <= i <= |parts|
        invariant cluster in dirs
        invariant Resolve(k, start, parts) == Resolve(k, cluster, parts[i..])
      {
        ghost var rest := parts[i..];
        assert rest[0] == parts[i] && rest[1..] == parts[i + 1..];
        var last := i == |parts| - 1;
        if last {
          assert rest == [parts[i]];
        } else {
          ResolveStep(k, cluster, rest);
        }
        var done, next;
        done, r, next := WalkOne(cluster, parts[i], last, k, dirs);
        if done {
          return;
        }
        cluster := next;
        i := i + 1;
      }
      return None;
    }

    /** The body of that loop, for one component: the result, if it is known, or the next directory. */
    method WalkOne(cluster: u32, part: Text, last: bool, ghost k: Catalog, ghost dirs: set<nat>)
      returns (done: bool, r: Option<FileInfo>, next: u32)
      requires Valid() && k == View(Vol()) && Closed(k, dirs) && cluster in dirs && 2 <= cluster < n
      ensures last && done ==> r == Resolve(k, cluster, [part])
      ensures last && !done ==> Resolve(k, cluster, [part]).None? && next in dirs
      ensures !last && done ==> r.None? && Enter(k, cluster, part).None?
      ensures !last && !done ==> Enter(k, cluster, part) == Some(next) && next in dirs
    {
      done, r, next := true, None, cluster;
      assert [part][1..] == [];
      var files := ListDirectoryEntries(cluster);
      if part == DOT_NAME {
        done := false;
        return;
      }
      if part == DOT_DOT_NAME {
        var parent := FindParentCluster(cluster);
        if parent.None? {
          return;
        }
        if last {
          return true, Some(FileInfo(DOT_DOT_NAME, true, 0, parent.value)), cluster;
        }
        assert Enter(k, cluster, part) == Some(parent.value);
        return false, None, parent.value;
      }
      var file := Find(files, part);
      if file.None? || last {
        return true, file, cluster;
      }
      if !file.value.isDirectory {
        return;
      }
      assert Enter(k, cluster, part) == Some(file.value.startCluster);
      return false, None, file.value.startCluster;
    }

    /** `parse_path`. The walk lists every cluster it passes, so the volume must hold a tree. */
    method ParsePath(path: Text, current: Option<u32>, ghost t: Tree) returns (r: Option<FileInfo>)
      requires Valid() && Holds(Vol(), t) && (current.Some? ==> current.value in t.depth)
      ensures r == Paths.ParsePath(View(Vol()), path, current)
    {
      TreeClosed(Vol(), t);
      forall d | d in t.depth
        ensures 2 <= d < n
      {
        assert NodeOk(Vol(), t, d);
      }
      var start :=
        if path == [] || path[0] == SLASH then g.rootCluster
        else if current.Some? then current.value else g.rootCluster;
      r := Walk(start, Parts(path), View(Vol()), t.depth.Keys);
    }

    /** The directory a new entry goes to. */
    method FindTarget(parentPath: Text, ghost t: Tree) returns (r: Option<u32>)
      requires Valid() && Holds(Vol(), t)
      ensures r == TargetDir(View(Vol()), parentPath)
    {
      if parentPath == [] || parentPath == [SLASH] {
        return Some(g.rootCluster);
      }
      var f := ParsePath(parentPath, None, t);
      r := if f.None? then None else Some(f.value.startCluster);
    }

    // ----- operations -----

    /** The last step of `create_file` and `mkdir`. */
    method PutEntry(dir: u32, entry: Slot) returns (error: Option<Error>)
      requires Valid() && 2 <= dir < n
      modifies disk
      ensures Outcome(error, Vol()) == AddEntry(old(Vol()), dir, entry)
      ensures SameOutside(g, n, old(disk[..]), disk[..])
    {
      var data := ReadCluster(dir);
      var i := FindFreeSlot(data);
      if i == |Slots(data)| {
        return Some(NoSpace);
      }
      WriteDirectoryEntry(dir, i, entry);
      return None;
    }

    /** `create_file` once the directory is known. */
    method CreateIn(dir: u32, name: Text) returns (error: Option<Error>)
      requires Valid() && 2 <= dir < n
      modifies disk
      ensures VolumeOk(old(Vol())) && Outcome(error, Vol()) == FatVolume.CreateIn(old(Vol()), dir, name)
      ensures SameOutside(g, n, old(disk[..]), disk[..])
    {
      DecodeOk(g, n, disk[..]);
      var short := FormatTo83(name);
      if short.None? {
        return Some(InvalidName);
      }
      ghost var before := disk[..];
      var c := AllocateCluster();
      if c.Err? {
        return Some(c.error);
      }
      ghost var between := disk[..];
      var entry := BuildEntry(short.value, ATTR_ARCHIVE, c.value);
      error := PutEntry(dir, entry);
      SameOutsideTransitive(g, n, before, between, disk[..]);
    }

    /** The first half of `mkdir`: a cluster that holds only the dot entries. */
    method ReserveDirectory(dir: u32) returns (r: Result<u32, Error>)
      requires Valid() && 2 <= dir < n
      modifies disk
      ensures VolumeOk(old(Vol())) && SameOutside(g, n, old(disk[..]), disk[..])
      ensures match Candidate(old(Vol()))
              case None => r == Err(DiskFull) && Vol() == old(Vol())
              case Some(c) => r == Ok(c) && Vol() == WithDirectory(old(Vol()), c, dir)
    {
      ghost var before := disk[..];
      r := AllocateCluster();
      if r.Ok? {
        ghost var taken := disk[..];
        InitDirectoryCluster(r.value, dir);
        SameOutsideTransitive(g, n, before, taken, disk[..]);
      }
    }

    /** `mkdir` once the parent directory is known. */
    method MkdirIn(dir: u32, name: Text) returns (error: Option<Error>)
      requires Valid() && 2 <= dir < n
      modifies disk
      ensures VolumeOk(old(Vol())) && Outcome(error, Vol()) == FatVolume.MkdirIn(old(Vol()), dir, name)
      ensures SameOutside(g, n, old(disk[..]), disk[..])
    {
      ghost var before := disk[..];
      var c := ReserveDirectory(dir);
      if c.Err? {
        return Some(c.error);
      }
      ghost var filled := disk[..];
      var short := FormatTo83(name);
      if short.None? {
        return Some(InvalidName);
      }
      var entry := BuildEntry(short.value, ATTR_DIRECTORY, c.value);
      error := PutEntry(dir, entry);
      SameOutsideTransitive(g, n, before, filled, disk[..]);
    }

    /** `create_file`. */
    method CreateFile(parentPath: Text, name: Text, ghost t: Tree) returns (error: Option<Error>)
      requires Valid() && Holds(Vol(), t) && ParentHasCluster(Vol(), parentPath)
      modifies disk
      ensures VolumeOk(old(Vol())) && Outcome(error, Vol()) == FatVolume.CreateFile(old(Vol()), parentPath, name)
      ensures SameOutside(g, n, old(disk[..]), disk[..])
    {
      var dir := FindTarget(parentPath, t);
      if dir.None? {
        return Some(ParentNotFound);
      }
      TargetInRange(Vol(), t, parentPath);
      error := CreateIn(dir.value, name);
    }

    /** `mkdir`. */
    method Mkdir(parentPath: Text, name: Text, ghost t: Tree) returns (error: Option<Error>)
      requires Valid() && Holds(Vol(), t) && ParentHasCluster(Vol(), parentPath)
      modifies disk
      ensures VolumeOk(old(Vol())) && Outcome(error, Vol()) == FatVolume.Mkdir(old(Vol()), parentPath, name)
      ensures SameOutside(g, n, old(disk[..]), disk[..])
    {
      var dir := FindTarget(parentPath, t);
      if dir.None? {
        return Some(ParentNotFound);
      }
      TargetInRange(Vol(), t, parentPath);
      error := MkdirIn(dir.value, name);
    }

    /** `update_file_size`. */
    method UpdateFileSize(path: Text, size: u32, ghost t: Tree) returns (error: Option<Error>)
      requires Valid() && Holds(Vol(), t)
      requires FormatTo83(FileName(path)).Some? ==> SizeDir(View(Vol()), path) in t.depth
      modifies disk
      ensures Outcome(error, Vol()) == FatVolume.UpdateFileSize(old(Vol()), path, size)
      ensures SameOutside(g, n, old(disk[..]), disk[..])
    {
      var pos := LastSlash(path);
      var parentPath, filename := if pos < 0 then [] else path[..pos], path[pos + 1..];
      var found := FindTarget(parentPath, t);
      var dir := if found.None? then g.rootCluster else found.value;
      var short := FormatTo83(filename);
      if short.None? {
        return Some(InvalidName);
      }
      assert NodeOk(Vol(), t, dir);
      error := SetSizeIn(dir, short.value, size);
    }

    /** The search and the write of `update_file_size`. */
    method SetSizeIn(dir: u32, short: seq<byte>, size: u32) returns (error: Option<Error>)
      requires Valid() && 2 <= dir < n
      modifies disk
      ensures Outcome(error, Vol()) == SetSize(old(Vol()), dir, short, size)
      ensures SameOutside(g, n, old(disk[..]), disk[..])
    {
      var data := ReadCluster(dir);
      var i := FindShortSlot(data, short);
      if i == |Slots(data)| {
        return Some(EntryNotFound);
      }
      ghost var v := Vol();
      DecodeOk(g, n, disk[..]);
      SizeWritten(v, dir, i, size);
      WriteInside(dir, 32 * i + 28, Le32(size));
      return None;
    }

    /** `write_file`. */
    method WriteFile(path: Text, bytes: seq<byte>, ghost t: Tree) returns (error: Option<Error>)
      requires Valid() && Holds(Vol(), t) && CanWrite(Vol(), path)
      modifies disk
      ensures Outcome(error, Vol()) == FatVolume.WriteFile(old(Vol()), path, bytes)
      ensures SameOutside(g, n, old(disk[..]), disk[..])
    {
      var f := ParsePath(path, None, t);
      if f.None? {
        return Some(FileNotFound);
      }
      if f.value.isDirectory {
        return Some(NotAFile);
      }
      DecodeOk(g, n, disk[..]);
      var clusterSize := Product(g.sectorsPerCluster, g.bytesPerSector);
      var size: u32 := Min(|bytes|, clusterSize);
      ghost var v, c, before := Vol(), f.value.startCluster, disk[..];
      WriteTargetInTree(v, t, path, f.value);
      WriteInside(f.value.startCluster, 0, bytes[..size]);
      ghost var between := disk[..];
      assert Vol() == WriteBytes(v, c, bytes);
      WriteBytesStored(v, c, bytes);
      StoredKeeps(v, t, Vol(), c, bytes);
      StoredSizeDir(v, t, Vol(), c, bytes, path);
      error := UpdateFileSize(path, size, t);
      SameOutsideTransitive(g, n, before, between, disk[..]);
    }

    /** `read_file`. The file must own a cluster. */
    method ReadFile(path: Text, current: Option<u32>, ghost t: Tree) returns (r: Result<Text, Error>)
      requires Valid() && Holds(Vol(), t) && (current.Some? ==> current.value in t.depth)
      requires var f := Paths.ParsePath(View(Vol()), path, current);
               f.Some? && !f.value.isDirectory ==> f.value.startCluster != 0
      ensures CanRead(Vol(), path, current) && r == ReadBack.ReadFile(Vol(), path, current)
    {
      var data := ReadBytes(path, current, t);
      match data
      case Err(e) => r := Err(e);
      case Ok(bytes) => r := DecodeContent(bytes);
    }

    /** The part of `read_file` before the bytes are decoded. */
    method ReadBytes(path: Text, current: Option<u32>, ghost t: Tree) returns (r: Result<seq<byte>, Error>)
      requires Valid() && Holds(Vol(), t) && (current.Some? ==> current.value in t.depth)
      requires var f := Paths.ParsePath(View(Vol()), path, current);
               f.Some? && !f.value.isDirectory ==> f.value.startCluster != 0
      ensures CanRead(Vol(), path, current) && r == ReadBack.ReadBytes(Vol(), path, current)
    {
      var f := ParsePath(path, current, t);
      if f.None? {
        return Err(FileNotFound);
      }
      if f.value.isDirectory {
        return Err(NotAFile);
      }
      ghost var d, i := FileTarget(Vol(), t, StartOf(View(Vol()), path, current), Parts(path), f.value);
      assert ChainOk(Vol(), t.chain, f.value.startCluster);
      ReadChain(Vol(), path, current, f.value, t.chain[f.value.startCluster]);
      var data := FollowChain(f.value.startCluster, t.chain[f.value.startCluster]);
      r := Ok(Truncate(data, f.value.size));
    }

    /** The loop of `read_file`: reads clusters until the chain ends. */
    method FollowChain(start: u32, ghost ch: seq<nat>) returns (data: seq<byte>)
      requires Valid() && VolumeOk(Vol()) && IsChain(Vol(), start, ch)
      ensures data == ChainBytes(Vol(), ch)
    {
      data := [];
      var cluster := start;
      ghost var k := 0;
      while true
        invariant 0 <= k < |ch| && cluster == ch[k]
        invariant data == ChainBytes(Vol(), ch[..k])
        decreases |ch| - k
      {
        InnerLink(Vol(), start, ch, k);
        assert InRange(Vol(), ch[k]);
        assert ch[..k + 1][..k] == ch[..k];
        var bytes := ReadCluster(cluster);
        data := data + bytes;
        var next := ReadFatEntry(cluster);
        if next >= 0x0FFF_FFF8 {
          assert ch[..k + 1] == ch;
          break;
        }
        cluster := next;
        k := k + 1;
      }
    }
  }

  /** Overwriting the size bytes of a slot is writing the resized slot. */
  lemma SpliceSize(data: seq<byte>, i: nat, size: u32)
    requires i < |Slots(data)|
    ensures 32 * i + 32 <= |data|
    ensures Splice(data, 32 * i + 28, Le32(size)) == Splice(data, 32 * i, Resized(Slots(data)[i], size))
  {
    var s := Slots(data)[i];
    assert s == data[32 * i..32 * i + 32];
  }

  lemma SizeWritten(v: Volume, dir: nat, i: nat, size: u32)
    requires dir < |v.data| && i < |Dir(v, dir)|
    ensures 32 * i + 32 <= |v.data[dir]|
    ensures SetData(v, dir, Splice(v.data[dir], 32 * i + 28, Le32(size)))
              == PutSlot(v, dir, i, Resized(Dir(v, dir)[i], size))
  {
    SpliceSize(v.data[dir], i, size);
  }

  /** A directory entry built field by field, as the code does. */
  method BuildEntry(short: seq<byte>, attr: byte, c: u32) returns (entry: Slot)
    requires |short| == 11
    ensures entry == NewSlot(short, attr, c)
  {
    var e := Zeros(32);
    e := Splice(e, 0, short);
    e := e[11 := attr];
    e := Splice(e, 20, Le16(c / 0x1_0000));
    e := Splice(e, 26, Le16(c % 0x1_0000));
    e := Splice(e, 28, Le32(0));
    assert e == NewSlot(short, attr, c);
    entry := e;
  }

  /** The bytes of a new directory, built field by field. */
  method BuildDirectory(size: nat, c: u32, up: u32) returns (data: seq<byte>)
    requires size >= 64
    ensures data == NewSlot(DOT_SHORT, ATTR_DIRECTORY, c) + NewSlot(DOT_DOT_SHORT, ATTR_DIRECTORY, up)
              + Zeros(size - 64)
  {
    data := Zeros(size);
    var dot := BuildEntry(DOT_SHORT, ATTR_DIRECTORY, c);
    data := Splice(data, 0, dot);
    var dots := BuildEntry(DOT_DOT_SHORT, ATTR_DIRECTORY, up);
    data := Splice(data, 32, dots);
  }

  /** Index of the first free slot, or the number of slots. */
  method FindFreeSlot(data: seq<byte>) returns (i: nat)
    ensures i == FreeSlot(Slots(data), 0)
  {
    var slots := Slots(data);
    i := 0;
    while i < |slots| && slots[i][0] != 0x00 && slots[i][0] != 0xE5
      invariant 0 <= i <= |slots|
      invariant FreeSlot(slots, 0) == FreeSlot(slots, i)
    {
      i := i + 1;
    }
  }

  /** Index of the first slot that starts with the short name, or the number of slots. */
  method FindShortSlot(data: seq<byte>, short: seq<byte>) returns (i: nat)
    ensures i == ShortSlot(Slots(data), short, 0)
  {
    var slots := Slots(data);
    i := 0;
    while i < |slots| && slots[i][..11] != short
      invariant 0 <= i <= |slots|
      invariant ShortSlot(slots, short, 0) == ShortSlot(slots, short, i)
    {
      i := i + 1;
    }
  }
}
