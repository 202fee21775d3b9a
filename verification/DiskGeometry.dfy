/** Where the FAT and the clusters lie in the bytes of the disk. */
module DiskGeometry {
  import opened Arithmetic
  import opened Bytes
  import opened FatVolume

  /** The fields of the boot sector that the code keeps. */
  datatype Geometry = Geometry(bytesPerSector: u32, sectorsPerCluster: u32, fatSector: u32, dataSector: u32,
      rootCluster: u32)

  function ClusterSize(g: Geometry): nat { Times(g.sectorsPerCluster, g.bytesPerSector) }

  function FatStart(g: Geometry): nat { Times(g.fatSector, g.bytesPerSector) }

  function DataStart(g: Geometry): nat { Times(g.dataSector, g.bytesPerSector) }

  function FatOffset(g: Geometry, c: nat): nat { FatStart(g) + 4 * c }

  function ClusterOffset(g: Geometry, c: nat): nat
    requires c >= 2
  {
    DataStart(g) + Times(c - 2, ClusterSize(g))
  }

  /** `n` clusters, counted from 0, have their FAT entry before the data area and their bytes on the disk. */
  predicate Covers(g: Geometry, len: nat, n: nat) {
    n >= 2 && FatOffset(g, n) <= DataStart(g) && ClusterOffset(g, n) <= len
  }

  /** The disk is addressed with 32 bits; sectors and clusters are whole slots; the tables cover at least
      the clusters the allocator scans. `n` is the number of clusters. */
  predicate Fits(g: Geometry, len: nat, n: nat) {
    && len < 0x1_0000_0000
    && g.bytesPerSector > 0 && g.bytesPerSector % 32 == 0 && g.sectorsPerCluster > 0 && ClusterSize(g) >= 64
    && Covers(g, len, n) && SCAN_LIMIT <= n
    && 2 <= g.rootCluster < n
  }

  /** The volume in the bytes of the disk. */
  function VolumeIn(g: Geometry, n: nat, d: seq<byte>): Volume
    requires Fits(g, |d|, n)
  {
    Volume(
      ClusterSize(g),
      g.rootCluster,
      seq(n, c requires 0 <= c < n => Word(g, n, d, c)),
      seq(n, c requires 0 <= c < n => ClusterBytes(g, n, d, c)))
  }

  /** The FAT word of cluster `c`. */
  function Word(g: Geometry, n: nat, d: seq<byte>, c: nat): u32
    requires Fits(g, |d|, n) && c < n
  {
    FatInside(g, |d|, n, c);
    FromLe32(d[FatOffset(g, c)..FatOffset(g, c) + 4])
  }

  /** The bytes of cluster `c`; clusters 0 and 1 have none. */
  function ClusterBytes(g: Geometry, n: nat, d: seq<byte>, c: nat): seq<byte>
    requires Fits(g, |d|, n) && c < n
  {
    if c < 2 then []
    else
      ClusterInside(g, |d|, n, c);
      d[ClusterOffset(g, c)..ClusterOffset(g, c) + ClusterSize(g)]
  }

  /** The first sector behind the reserved ones and the FAT copies. */
  function DataSector(d: seq<byte>): nat
    requires |d| >= 48
  {
    FromLe16(d[14..16]) as int + Times(d[16], FromLe32(d[36..40]))
  }

  /** The geometry in a boot sector. */
  function BootGeometry(d: seq<byte>): Geometry
    requires |d| >= 48 && DataSector(d) < 0x1_0000_0000
  {
    Geometry(FromLe16(d[11..13]), d[13], FromLe16(d[14..16]), DataSector(d), FromLe32(d[44..48]))
  }

  /** The disk has a boot sector whose geometry fits it, with `n` clusters. */
  predicate Mountable(d: seq<byte>, n: nat) {
    |d| >= 48 && DataSector(d) < 0x1_0000_0000 && Fits(BootGeometry(d), |d|, n)
  }

  /** `new`: the volume on a disk. */
  function Mounted(d: seq<byte>, n: nat): Volume
    requires Mountable(d, n)
  {
    VolumeIn(BootGeometry(d), n, d)
  }

  // ----- where things lie -----

  /** Different clusters do not overlap. */
  lemma ClusterApart(g: Geometry, c: nat, e: nat)
    requires 2 <= c < e
    ensures ClusterOffset(g, c) + ClusterSize(g) <= ClusterOffset(g, e)
  {
    TimesMonotone(c - 2, e - 2, ClusterSize(g));
  }

  lemma ClusterInside(g: Geometry, len: nat, n: nat, c: nat)
    requires Fits(g, len, n) && 2 <= c < n
    ensures DataStart(g) <= ClusterOffset(g, c)
    ensures ClusterOffset(g, c) + ClusterSize(g) <= ClusterOffset(g, n) <= len
  {
    ClusterApart(g, c, n);
  }

  lemma FatInside(g: Geometry, len: nat, n: nat, c: nat)
    requires Fits(g, len, n) && c < n
    ensures FatOffset(g, c) + 4 <= DataStart(g) <= len
  {
  }

  /** Cluster numbers stay below the reserved FAT values. */
  lemma CountBound(g: Geometry, len: nat, n: nat)
    requires Fits(g, len, n)
    ensures n <= 0x0FFF_FFF0
  {
    TimesAtLeast(n - 2, ClusterSize(g), 64);
    TimesIs(n - 2, 64);
  }

  lemma ModFour(x: nat)
    requires x % 32 == 0
    ensures x % 4 == 0
  {
  }

  /** A FAT entry lies before the data area, at an offset that fits 32 bits. */
  lemma EntryFits(g: Geometry, len: nat, n: nat, c: nat)
    requires Fits(g, len, n) && c < n
    ensures g.bytesPerSector % 4 == 0 && 4 * c < 0x1_0000_0000 && FatOffset(g, c) + 4 <= DataStart(g) <= len
  {
    ModFour(g.bytesPerSector);
    CountBound(g, len, n);
    FatInside(g, len, n, c);
  }

  lemma SlotsPerCluster(g: Geometry)
    requires g.bytesPerSector % 32 == 0
    ensures ClusterSize(g) % 32 == 0
  {
    TimesMod32(g.sectorsPerCluster, g.bytesPerSector);
  }

  lemma DecodeOk(g: Geometry, n: nat, d: seq<byte>)
    requires Fits(g, |d|, n)
    ensures VolumeOk(VolumeIn(g, n, d))
  {
    CountBound(g, |d|, n);
    SlotsPerCluster(g);
    var v := VolumeIn(g, n, d);
    forall c | 2 <= c < n
      ensures |v.data[c]| == ClusterSize(g)
    {
      ClusterInside(g, |d|, n, c);
    }
    ClusterInside(g, |d|, n, 2);
  }

  lemma MountedOk(d: seq<byte>, n: nat)
    requires Mountable(d, n)
    ensures VolumeOk(Mounted(d, n))
  {
    DecodeOk(BootGeometry(d), n, d);
  }

  // ----- the code's offsets -----

  /** Sector arithmetic: a byte offset split into sector and rest addresses the same byte. */
  lemma SectorSplit(base: nat, offset: nat, bps: nat)
    requires bps > 0
    ensures Times(base + Quot(offset, bps), bps) + Rest(offset, bps) == Times(base, bps) + offset
  {
    TimesAdd(base, Quot(offset, bps), bps);
    QuotRest(offset, bps);
  }

  /** The first sector of a cluster, as the code computes it. */
  function FirstSector(g: Geometry, c: nat): nat
    requires c >= 2
  {
    g.dataSector as int + Times(c - 2, g.sectorsPerCluster)
  }

  lemma FirstSectorOffset(g: Geometry, c: nat)
    requires c >= 2
    ensures Times(FirstSector(g, c), g.bytesPerSector) == ClusterOffset(g, c)
  {
    TimesAdd(g.dataSector, Times(c - 2, g.sectorsPerCluster), g.bytesPerSector);
    TimesTimes(c - 2, g.sectorsPerCluster, g.bytesPerSector);
  }

  /** The first sector of a cluster starts where the cluster does, and all its sectors are on the disk. */
  lemma ClusterSectors(g: Geometry, len: nat, n: nat, c: nat)
    requires Fits(g, len, n) && 2 <= c < n
    ensures FirstSector(g, c) < 0x1_0000_0000 && Times(FirstSector(g, c), g.bytesPerSector) == ClusterOffset(g, c)
    ensures ClusterOffset(g, c) + ClusterSize(g) <= len
  {
    FirstSectorOffset(g, c);
    ClusterInside(g, len, n, c);
    NotAbove(FirstSector(g, c), g.bytesPerSector);
  }

  lemma NotAbove(a: nat, m: nat)
    requires m > 0
    ensures a <= Times(a, m)
  {
    TimesAtLeast(a, m, 1);
    TimesOne(a);
  }

  /** Sector `i` of `count` sectors that start at byte `offset`. */
  lemma SectorAt(start: nat, i: nat, count: nat, bps: nat, offset: nat, len: nat)
    requires i < count && bps > 0 && Times(start, bps) == offset && offset + Times(count, bps) <= len
    ensures Times(start + i, bps) == offset + Times(i, bps) && offset + Times(i, bps) + bps <= len
    ensures Times(i + 1, bps) == Times(i, bps) + bps && start + i <= len
  {
    TimesAdd(start, i, bps);
    TimesMonotone(i, count, bps);
    NotAbove(start + i, bps);
  }

  /** A word that ends before sector `limit` lies inside one sector before `limit`. */
  lemma SectorInside(base: nat, offset: nat, bps: nat, limit: nat)
    requires bps > 0 && bps % 4 == 0 && offset % 4 == 0 && Times(base, bps) + offset + 4 <= Times(limit, bps)
    ensures var sector, index := base + Quot(offset, bps), Rest(offset, bps);
            && Times(sector, bps) + index == Times(base, bps) + offset && index + 4 <= bps
            && sector < limit && Times(sector, bps) + bps <= Times(limit, bps)
  {
    SectorSplit(base, offset, bps);
    MultipleOfFour(offset, bps);
    SectorBelow(base + Quot(offset, bps), Rest(offset, bps), bps, limit);
  }

  lemma SectorBelow(sector: nat, index: nat, bps: nat, limit: nat)
    requires Times(sector, bps) + index + 4 <= Times(limit, bps)
    ensures sector < limit && Times(sector, bps) + bps <= Times(limit, bps)
  {
    if sector >= limit {
      TimesAtMost(limit, sector, bps);
    } else {
      TimesMonotone(sector, limit, bps);
    }
  }

  /** The code's offset of byte `offset` behind the start of sector `start`: the sector the byte lies in,
      times the sector size, plus the rest. No step exceeds the length of the disk. */
  lemma ByteOffset(start: nat, offset: nat, bps: nat, base: nat, len: nat)
    requires bps > 0 && Times(start, bps) == base && base + offset < len
    ensures var sector := start + Quot(offset, bps);
            sector < len && Times(sector, bps) < len && Times(sector, bps) + Rest(offset, bps) == base + offset
  {
    SectorSplit(start, offset, bps);
    NotAbove(start + Quot(offset, bps), bps);
  }

  lemma MultipleOfFour(x: nat, m: nat)
    requires x % 4 == 0 && m % 4 == 0 && m > 0
    ensures Rest(x, m) + 4 <= m
  {
    QuotRest(x, m);
    TimesMod4(Quot(x, m), m);
    FourBelow(x, Times(Quot(x, m), m), Rest(x, m), m);
  }

  lemma FourBelow(x: nat, y: nat, r: nat, m: nat)
    requires x == y + r && x % 4 == 0 && y % 4 == 0 && m % 4 == 0 && r < m
    ensures r + 4 <= m
  {
  }

  // ----- writing -----

  /** Overwriting the four bytes of an entry changes that FAT word and nothing else of the volume. */
  lemma DecodeFatWrite(g: Geometry, n: nat, d: seq<byte>, c: nat, word: u32)
    requires Fits(g, |d|, n) && c < n
    ensures FatOffset(g, c) + 4 <= |d|
    ensures var v := VolumeIn(g, n, d);
            VolumeIn(g, n, Splice(d, FatOffset(g, c), Le32(word))) == v.(fat := v.fat[c := word])
  {
    FatInside(g, |d|, n, c);
    var v, now := VolumeIn(g, n, d), Splice(d, FatOffset(g, c), Le32(word));
    var w := VolumeIn(g, n, now);
    forall k | 0 <= k < n
      ensures w.fat[k] == v.fat[c := word][k]
    {
      WordAfterFatWrite(g, n, d, c, word, k);
    }
    forall k | 0 <= k < n
      ensures w.data[k] == v.data[k]
    {
      if k >= 2 {
        ClusterInside(g, |d|, n, k);
      }
      OtherBytes(g, n, d, FatOffset(g, c), Le32(word), k);
    }
    assert w.fat == v.fat[c := word];
    assert w.data == v.data;
  }

  lemma WordAfterFatWrite(g: Geometry, n: nat, d: seq<byte>, c: nat, word: u32, k: nat)
    requires Fits(g, |d|, n) && c < n && k < n && FatOffset(g, c) + 4 <= |d|
    ensures Word(g, n, Splice(d, FatOffset(g, c), Le32(word)), k) == if k == c then word else Word(g, n, d, k)
  {
    FatInside(g, |d|, n, k);
    var now := Splice(d, FatOffset(g, c), Le32(word));
    if k == c {
      assert now[FatOffset(g, c)..FatOffset(g, c) + 4] == Le32(word);
      Le32RoundTrip(word);
    } else {
      SpliceAway(d, FatOffset(g, c), Le32(word), FatOffset(g, k), FatOffset(g, k) + 4);
    }
  }

  /** Overwriting bytes inside a cluster changes those bytes of that cluster and nothing else. */
  lemma DecodeDataWrite(g: Geometry, n: nat, d: seq<byte>, c: nat, offset: nat, part: seq<byte>)
    requires Fits(g, |d|, n) && 2 <= c < n && offset + |part| <= ClusterSize(g)
    ensures ClusterOffset(g, c) + offset + |part| <= |d|
    ensures var v := VolumeIn(g, n, d);
            && |v.data[c]| == ClusterSize(g)
            && VolumeIn(g, n, Splice(d, ClusterOffset(g, c) + offset, part))
                 == SetData(v, c, Splice(v.data[c], offset, part))
  {
    ClusterInside(g, |d|, n, c);
    var v, now := VolumeIn(g, n, d), Splice(d, ClusterOffset(g, c) + offset, part);
    var w := VolumeIn(g, n, now);
    forall k | 0 <= k < n
      ensures w.fat[k] == v.fat[k]
    {
      FatInside(g, |d|, n, k);
      SpliceAway(d, ClusterOffset(g, c) + offset, part, FatOffset(g, k), FatOffset(g, k) + 4);
    }
    forall k | 0 <= k < n
      ensures w.data[k] == v.data[c := Splice(v.data[c], offset, part)][k]
    {
      BytesAfterDataWrite(g, n, d, c, offset, part, k);
    }
    assert w.fat == v.fat;
    assert w.data == v.data[c := Splice(v.data[c], offset, part)];
  }

  lemma BytesAfterDataWrite(g: Geometry, n: nat, d: seq<byte>, c: nat, offset: nat, part: seq<byte>, k: nat)
    requires Fits(g, |d|, n) && 2 <= c < n && k < n && offset + |part| <= ClusterSize(g)
    requires ClusterOffset(g, c) + offset + |part| <= |d| && |ClusterBytes(g, n, d, c)| == ClusterSize(g)
    ensures ClusterBytes(g, n, Splice(d, ClusterOffset(g, c) + offset, part), k)
         == if k == c then Splice(ClusterBytes(g, n, d, c), offset, part) else ClusterBytes(g, n, d, k)
  {
    if k == c {
      OwnBytes(g, n, d, c, offset, part);
    } else {
      if k >= 2 {
        OtherCluster(g, c, k);
      }
      OtherBytes(g, n, d, ClusterOffset(g, c) + offset, part, k);
    }
  }

  /** A cluster that contains the whole splice. */
  lemma OwnBytes(g: Geometry, n: nat, d: seq<byte>, c: nat, offset: nat, part: seq<byte>)
    requires Fits(g, |d|, n) && 2 <= c < n && offset + |part| <= ClusterSize(g)
    requires ClusterOffset(g, c) + offset + |part| <= |d| && |ClusterBytes(g, n, d, c)| == ClusterSize(g)
    ensures ClusterBytes(g, n, Splice(d, ClusterOffset(g, c) + offset, part), c)
              == Splice(ClusterBytes(g, n, d, c), offset, part)
  {
    var lo, size, now := ClusterOffset(g, c), ClusterSize(g), Splice(d, ClusterOffset(g, c) + offset, part);
    ClusterIs(g, n, d, c, lo, size);
    ClusterIs(g, n, now, c, lo, size);
    SpliceWithin(d, lo + offset, part, lo, lo + size);
  }

  lemma ClusterIs(g: Geometry, n: nat, d: seq<byte>, c: nat, lo: nat, size: nat)
    requires Fits(g, |d|, n) && 2 <= c < n && lo == ClusterOffset(g, c) && size == ClusterSize(g)
    ensures lo + size <= |d| && ClusterBytes(g, n, d, c) == d[lo..lo + size]
  {
    ClusterInside(g, |d|, n, c);
  }

  /** A cluster that the splice does not touch. */
  lemma OtherBytes(g: Geometry, n: nat, d: seq<byte>, at: nat, part: seq<byte>, k: nat)
    requires Fits(g, |d|, n) && k < n && at + |part| <= |d|
    requires k >= 2 ==> ClusterOffset(g, k) + ClusterSize(g) <= at || at + |part| <= ClusterOffset(g, k)
    ensures ClusterBytes(g, n, Splice(d, at, part), k) == ClusterBytes(g, n, d, k)
  {
    if k >= 2 {
      ClusterInside(g, |d|, n, k);
      SpliceAway(d, at, part, ClusterOffset(g, k), ClusterOffset(g, k) + ClusterSize(g));
    }
  }

  lemma OtherCluster(g: Geometry, c: nat, k: nat)
    requires 2 <= c && 2 <= k && c != k
    ensures ClusterOffset(g, k) + ClusterSize(g) <= ClusterOffset(g, c)
              || ClusterOffset(g, c) + ClusterSize(g) <= ClusterOffset(g, k)
  {
    if k < c {
      ClusterApart(g, k, c);
    } else {
      ClusterApart(g, c, k);
    }
  }

  /** Bytes that belong neither to the FAT entries nor to the clusters. */
  predicate Outside(g: Geometry, n: nat, i: int)
    requires n >= 2
  {
    !(FatStart(g) <= i < FatOffset(g, n)) && !(DataStart(g) <= i < ClusterOffset(g, n))
  }

  /** The boot sector, the other FAT copies and the tail of the disk are the same. */
  predicate SameOutside(g: Geometry, n: nat, d: seq<byte>, e: seq<byte>)
    requires n >= 2
  {
    |e| == |d| && forall i :: 0 <= i < |d| && Outside(g, n, i) ==> e[i] == d[i]
  }

  lemma FatWriteOutside(g: Geometry, n: nat, d: seq<byte>, c: nat, word: u32)
    requires Fits(g, |d|, n) && c < n && FatOffset(g, c) + 4 <= |d|
    ensures SameOutside(g, n, d, Splice(d, FatOffset(g, c), Le32(word)))
  {
  }

  lemma DataWriteOutside(g: Geometry, n: nat, d: seq<byte>, c: nat, offset: nat, part: seq<byte>)
    requires Fits(g, |d|, n) && 2 <= c < n && offset + |part| <= ClusterSize(g)
    ensures ClusterOffset(g, c) + offset + |part| <= |d|
    ensures SameOutside(g, n, d, Splice(d, ClusterOffset(g, c) + offset, part))
  {
    ClusterInside(g, |d|, n, c);
  }

  lemma SameOutsideTransitive(g: Geometry, n: nat, a: seq<byte>, b: seq<byte>, c: seq<byte>)
    requires n >= 2 && SameOutside(g, n, a, b) && SameOutside(g, n, b, c)
    ensures SameOutside(g, n, a, c)
  {
  }

  /** Both effects of overwriting bytes inside a cluster. */
  lemma DataWritten(g: Geometry, n: nat, d: seq<byte>, e: seq<byte>, c: nat, offset: nat, part: seq<byte>)
    requires Fits(g, |d|, n) && 2 <= c < n && offset + |part| <= ClusterSize(g)
    requires ClusterOffset(g, c) + offset + |part| <= |d|
    requires e == Splice(d, ClusterOffset(g, c) + offset, part)
    ensures |VolumeIn(g, n, d).data[c]| == ClusterSize(g) && SameOutside(g, n, d, e)
    ensures VolumeIn(g, n, e) == SetData(VolumeIn(g, n, d), c, Splice(VolumeIn(g, n, d).data[c], offset, part))
  {
    DecodeDataWrite(g, n, d, c, offset, part);
    DataWriteOutside(g, n, d, c, offset, part);
  }

  /** Both effects of overwriting a FAT entry. */
  lemma FatWritten(g: Geometry, n: nat, d: seq<byte>, e: seq<byte>, c: nat, word: u32)
    requires Fits(g, |d|, n) && c < n && FatOffset(g, c) + 4 <= |d| && e == Splice(d, FatOffset(g, c), Le32(word))
    ensures SameOutside(g, n, d, e)
    ensures VolumeIn(g, n, e) == VolumeIn(g, n, d).(fat := VolumeIn(g, n, d).fat[c := word])
  {
    DecodeFatWrite(g, n, d, c, word);
    FatWriteOutside(g, n, d, c, word);
  }
}
