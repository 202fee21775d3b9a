/** Disk images, part by part as the FAT specification orders them, and that mounting one gives what it was made
    from. */
module Image {
  import opened Arithmetic
  import opened Bytes
  import opened Text
  import opened Directory
  import opened Paths
  import opened FatVolume
  import opened ReadBack
  import opened DiskGeometry
  import opened Entries

  /** The fields of a boot sector. */
  datatype Boot = Boot(bytesPerSector: u16, sectorsPerCluster: byte, reserved: u16, fats: byte, fatSectors: u32,
      root: u32)

  /** The boot sector at the start of `area` has these fields at their byte positions. */
  predicate HasBoot(area: seq<byte>, b: Boot) {
    && |area| >= 48
    && LittleEndian([area[11], area[12]]) == b.bytesPerSector
    && area[13] == b.sectorsPerCluster
    && LittleEndian([area[14], area[15]]) == b.reserved
    && area[16] == b.fats
    && LittleEndian([area[36], area[37], area[38], area[39]]) == b.fatSectors
    && LittleEndian([area[44], area[45], area[46], area[47]]) == b.root
  }

  /** An image in parts: the reserved sectors, the copies of the FAT, the clusters from 2 on, and more. */
  datatype Image = Image(reserved: seq<byte>, copies: seq<seq<byte>>, clusters: seq<seq<byte>>, more: seq<byte>)

  function Joined(p: Image): seq<byte> { p.reserved + (Flatten(p.copies) + (Flatten(p.clusters) + p.more)) }

  predicate AllOfSize(parts: seq<seq<byte>>, size: nat) {
    forall i :: 0 <= i < |parts| ==> |parts[i]| == size
  }

  /** The parts have the sizes that the boot sector says. */
  predicate HasSizes(p: Image, b: Boot) {
    && HasBoot(p.reserved, b) && |p.reserved| == Times(b.reserved, b.bytesPerSector)
    && |p.copies| == b.fats as int > 0 && AllOfSize(p.copies, Times(b.fatSectors, b.bytesPerSector))
    && AllOfSize(p.clusters, Times(b.sectorsPerCluster, b.bytesPerSector))
  }

  /** The first copy holds the words of the FAT, four bytes each. */
  predicate HoldsFat(copy: seq<byte>, fat: seq<u32>) {
    && 4 * |fat| <= |copy|
    && forall c {:trigger HoldsWord(copy, fat, c)} :: 0 <= c < |fat| ==> HoldsWord(copy, fat, c)
  }

  predicate HoldsWord(copy: seq<byte>, fat: seq<u32>, c: nat)
    requires c < |fat| && 4 * |fat| <= |copy|
  {
    LittleEndian([copy[4 * c], copy[4 * c + 1], copy[4 * c + 2], copy[4 * c + 3]]) == fat[c]
  }

  /** What the code needs of a disk: fewer than 2^32 bytes, whole slots in a sector, at least two in a cluster, at
      least 50000 FAT words, and a root. */
  predicate Usable(p: Image, b: Boot, fat: seq<u32>) {
    && |Joined(p)| < 0x1_0000_0000 && b.bytesPerSector > 0 && b.bytesPerSector % 32 == 0 && b.sectorsPerCluster > 0
    && Times(b.sectorsPerCluster, b.bytesPerSector) >= 64
    && 50000 <= |fat| == |p.clusters| + 2 && 2 <= b.root < |fat|
  }

  // ----- equal parts -----

  lemma {:induction false} FlattenAt(parts: seq<seq<byte>>, size: nat, i: nat)
    requires AllOfSize(parts, size) && i < |parts|
    ensures |Flatten(parts)| == Times(|parts|, size) && Times(i, size) + size <= Times(|parts|, size)
    ensures Flatten(parts)[Times(i, size)..Times(i, size) + size] == parts[i]
  {
    FlattenSize(parts, size);
    TimesMonotone(i, |parts|, size);
    var rest := parts[1..];
    assert AllOfSize(rest, size);
    if i == 0 {
      assert Flatten(parts)[..size] == parts[0];
    } else {
      FlattenAt(rest, size, i - 1);
      SliceBehind(parts[0], Flatten(rest), Times(i - 1, size), size);
    }
  }

  lemma SliceBehind(a: seq<byte>, b: seq<byte>, at: nat, size: nat)
    requires at + size <= |b|
    ensures (a + b)[|a| + at..|a| + at + size] == b[at..at + size]
  {
  }

  lemma {:induction false} FlattenSize(parts: seq<seq<byte>>, size: nat)
    requires AllOfSize(parts, size)
    ensures |Flatten(parts)| == Times(|parts|, size)
  {
    if parts != [] {
      assert AllOfSize(parts[1..], size);
      FlattenSize(parts[1..], size);
    }
  }

  // ----- the boot sector -----

  lemma TwoBytes(a: byte, b: byte)
    ensures LittleEndian([a, b]) == a as int + 0x100 * b as int == FromLe16([a, b]) as int
  {
    assert [a, b][1..] == [b] && [b][1..] == [];
    assert LittleEndian([b]) == b as int;
  }

  lemma FourBytesAt(d: seq<byte>, at: nat)
    requires at + 4 <= |d|
    ensures LittleEndian([d[at], d[at + 1], d[at + 2], d[at + 3]]) == FromLe32(d[at..at + 4]) as int
  {
    FourBytes(d[at], d[at + 1], d[at + 2], d[at + 3]);
    assert d[at..at + 4] == [d[at], d[at + 1], d[at + 2], d[at + 3]];
  }

  lemma TwoBytesAt(d: seq<byte>, at: nat)
    requires at + 2 <= |d|
    ensures LittleEndian([d[at], d[at + 1]]) == FromLe16(d[at..at + 2]) as int
  {
    TwoBytes(d[at], d[at + 1]);
    assert d[at..at + 2] == [d[at], d[at + 1]];
  }

  lemma BootRead(d: seq<byte>, b: Boot)
    requires HasBoot(d, b)
    ensures DataSector(d) == b.reserved as int + Times(b.fats, b.fatSectors)
    ensures DataSector(d) < 0x1_0000_0000 ==>
              BootGeometry(d) == Geometry(b.bytesPerSector, b.sectorsPerCluster, b.reserved, DataSector(d), b.root)
  {
    TwoBytesAt(d, 11);
    TwoBytesAt(d, 14);
    FourBytesAt(d, 36);
    FourBytesAt(d, 44);
  }

  // ----- where the parts are -----

  /** The data area starts behind the reserved sectors and all copies of the FAT. */
  lemma DataAt(p: Image, b: Boot)
    requires HasSizes(p, b) && |Joined(p)| < 0x1_0000_0000 && b.bytesPerSector > 0
    ensures var sectors := b.reserved as int + Times(b.fats, b.fatSectors);
            |p.reserved| + |Flatten(p.copies)| == Times(sectors, b.bytesPerSector) && sectors < 0x1_0000_0000
  {
    var size := Times(b.fatSectors, b.bytesPerSector);
    FlattenSize(p.copies, size);
    TimesTimes(b.fats, b.fatSectors, b.bytesPerSector);
    TimesAdd(b.reserved, Times(b.fats, b.fatSectors), b.bytesPerSector);
    var sectors := b.reserved as int + Times(b.fats, b.fatSectors);
    TimesAtLeast(sectors, b.bytesPerSector, 1);
    TimesOne(sectors);
  }

  lemma JoinedBoot(p: Image, b: Boot)
    requires HasBoot(p.reserved, b)
    ensures HasBoot(Joined(p), b)
  {
    assert forall i :: 0 <= i < 48 ==> Joined(p)[i] == p.reserved[i];
  }

  /** The image can be mounted, with this geometry. */
  lemma ImageGeometry(p: Image, b: Boot, fat: seq<u32>) returns (g: Geometry)
    requires HasSizes(p, b) && Usable(p, b, fat) && HoldsFat(p.copies[0], fat)
    ensures Mountable(Joined(p), |fat|) && g == BootGeometry(Joined(p))
    ensures ClusterSize(g) == Times(b.sectorsPerCluster, b.bytesPerSector) && g.rootCluster == b.root
    ensures FatStart(g) == |p.reserved| && DataStart(g) == |p.reserved| + |Flatten(p.copies)|
  {
    JoinedBoot(p, b);
    DataAt(p, b);
    BootRead(Joined(p), b);
    g := BootGeometry(Joined(p));
    FlattenSize(p.clusters, ClusterSize(g));
    FirstCopy(p.copies, Times(b.fatSectors, b.bytesPerSector));
  }

  lemma FirstCopy(copies: seq<seq<byte>>, size: nat)
    requires AllOfSize(copies, size) && copies != []
    ensures size <= |Flatten(copies)| && Flatten(copies)[..size] == copies[0]
  {
    FlattenAt(copies, size, 0);
  }

  // ----- what is mounted -----

  lemma WordAt(p: Image, b: Boot, fat: seq<u32>, g: Geometry, c: nat)
    requires HasSizes(p, b) && HoldsFat(p.copies[0], fat) && c < |fat|
    requires Mountable(Joined(p), |fat|) && g == BootGeometry(Joined(p)) && FatStart(g) == |p.reserved|
    ensures Word(g, |fat|, Joined(p), c) == fat[c]
  {
    var d, copy := Joined(p), p.copies[0];
    assert HoldsWord(copy, fat, c);
    FirstCopy(p.copies, |copy|);
    FatInside(g, |d|, |fat|, c);
    var at := |p.reserved| + 4 * c;
    FourBytesAt(d, at);
    FourBehind(p.reserved, Flatten(p.copies), Flatten(p.clusters) + p.more, copy, 4 * c);
  }

  lemma FourBehind(a: seq<byte>, b: seq<byte>, more: seq<byte>, copy: seq<byte>, at: nat)
    requires at + 4 <= |copy| <= |b| && b[..|copy|] == copy
    ensures var d := a + (b + more);
            && d[|a| + at] == copy[at] && d[|a| + at + 1] == copy[at + 1]
            && d[|a| + at + 2] == copy[at + 2] && d[|a| + at + 3] == copy[at + 3]
  {
    assert forall i :: 0 <= i < |copy| ==> b[i] == copy[i];
  }

  lemma ClusterAt(p: Image, b: Boot, n: nat, g: Geometry, c: nat)
    requires HasSizes(p, b) && 2 <= c < n == |p.clusters| + 2
    requires Mountable(Joined(p), n) && g == BootGeometry(Joined(p))
    requires ClusterSize(g) == Times(b.sectorsPerCluster, b.bytesPerSector)
    requires DataStart(g) == |p.reserved| + |Flatten(p.copies)|
    ensures ClusterBytes(g, n, Joined(p), c) == p.clusters[c - 2]
  {
    var d, size := Joined(p), ClusterSize(g);
    FlattenAt(p.clusters, size, c - 2);
    ClusterInside(g, |d|, n, c);
    SliceInside(p.reserved, Flatten(p.copies), Flatten(p.clusters), p.more, Times(c - 2, size), size);
  }

  lemma SliceInside(a: seq<byte>, b: seq<byte>, e: seq<byte>, more: seq<byte>, at: nat, size: nat)
    requires at + size <= |e|
    ensures var lo := |a| + |b| + at; (a + (b + (e + more)))[lo..lo + size] == e[at..at + size]
  {
    var d := a + (b + (e + more));
    assert d == (a + b) + (e + more);
    SliceBehind(a + b, e + more, at, size);
    assert (e + more)[at..at + size] == e[at..at + size];
  }

  /** The volume an image is made from: its cluster size, its root, its FAT, and its clusters from 2 on. */
  function Source(p: Image, b: Boot, fat: seq<u32>): Volume {
    Volume(Times(b.sectorsPerCluster, b.bytesPerSector), b.root, fat, [[], []] + p.clusters)
  }

  /** Mounting an image gives the volume it is made from. */
  lemma MountedImage(p: Image, b: Boot, fat: seq<u32>)
    requires HasSizes(p, b) && Usable(p, b, fat) && HoldsFat(p.copies[0], fat)
    ensures Mountable(Joined(p), |fat|) && Mounted(Joined(p), |fat|) == Source(p, b, fat)
  {
    var g := ImageGeometry(p, b, fat);
    FatIs(p, b, fat, g);
    DataIs(p, b, |fat|, g);
  }

  lemma FatIs(p: Image, b: Boot, fat: seq<u32>, g: Geometry)
    requires HasSizes(p, b) && HoldsFat(p.copies[0], fat)
    requires Mountable(Joined(p), |fat|) && g == BootGeometry(Joined(p)) && FatStart(g) == |p.reserved|
    ensures Mounted(Joined(p), |fat|).fat == fat
  {
    forall c | 0 <= c < |fat|
      ensures Mounted(Joined(p), |fat|).fat[c] == fat[c]
    {
      WordAt(p, b, fat, g, c);
    }
  }

  lemma DataIs(p: Image, b: Boot, n: nat, g: Geometry)
    requires HasSizes(p, b) && n == |p.clusters| + 2
    requires Mountable(Joined(p), n) && g == BootGeometry(Joined(p))
    requires ClusterSize(g) == Times(b.sectorsPerCluster, b.bytesPerSector)
    requires DataStart(g) == |p.reserved| + |Flatten(p.copies)|
    ensures Mounted(Joined(p), n).data == [[], []] + p.clusters
  {
    forall c | 0 <= c < n
      ensures Mounted(Joined(p), n).data[c] == ([[], []] + p.clusters)[c]
    {
      if c >= 2 {
        ClusterAt(p, b, n, g, c);
      }
    }
  }

  // ----- writing an image -----

  /** Byte `k` of a number, the lowest being byte 0. */
  function Digit(x: nat, k: nat): byte { if k == 0 then x % 0x100 else Digit(x / 0x100, k - 1) }

  /** The reserved sectors: zeros but for the fields of the boot sector. */
  function BootArea(b: Boot, n: nat): (r: seq<byte>)
    ensures |r| == n
  {
    seq<byte>(n, i requires 0 <= i < n => BootByte(b, i))
  }

  function BootByte(b: Boot, i: nat): byte {
    if 11 <= i < 13 then Digit(b.bytesPerSector, i - 11)
    else if i == 13 then b.sectorsPerCluster
    else if 14 <= i < 16 then Digit(b.reserved, i - 14)
    else if i == 16 then b.fats
    else if 36 <= i < 40 then Digit(b.fatSectors, i - 36)
    else if 44 <= i < 48 then Digit(b.root, i - 44)
    else 0
  }

  /** A copy of the FAT: its words, and zeros behind them. */
  function FatCopy(fat: seq<u32>, n: nat): (r: seq<byte>)
    ensures |r| == n
  {
    seq<byte>(n, i requires 0 <= i < n => if i / 4 < |fat| then Digit(fat[i / 4], i % 4) as byte else 0 as byte)
  }

  /** The image of a FAT and clusters. */
  function Write(b: Boot, fat: seq<u32>, clusters: seq<seq<byte>>): Image {
    Image(BootArea(b, Times(b.reserved, b.bytesPerSector)),
          seq(b.fats as int, _ => FatCopy(fat, Times(b.fatSectors, b.bytesPerSector))),
          clusters, [])
  }

  lemma FourDigits(x: u32)
    ensures LittleEndian([Digit(x, 0), Digit(x, 1), Digit(x, 2), Digit(x, 3)]) == x as int
  {
    FourBytes(Digit(x, 0), Digit(x, 1), Digit(x, 2), Digit(x, 3));
    assert Digit(x, 1) == x as int / 0x100 % 0x100;
    assert x as int / 0x100 / 0x100 == x as int / 0x1_0000 && x as int / 0x1_0000 / 0x100 == x as int / 0x100_0000;
    assert Digit(x, 2) == Digit(x as int / 0x100, 1) == x as int / 0x1_0000 % 0x100;
    assert Digit(x, 3) == Digit(x as int / 0x100, 2) == Digit(x as int / 0x1_0000, 1) == x as int / 0x100_0000;
  }

  lemma TwoDigits(x: u16)
    ensures LittleEndian([Digit(x, 0), Digit(x, 1)]) == x as int
  {
    TwoBytes(Digit(x, 0), Digit(x, 1));
    assert Digit(x, 1) == x as int / 0x100 % 0x100 == x as int / 0x100;
  }

  lemma BootWritten(b: Boot, n: nat)
    requires n >= 48
    ensures HasBoot(BootArea(b, n), b)
  {
    TwoDigits(b.bytesPerSector);
    TwoDigits(b.reserved);
    FourDigits(b.fatSectors);
    FourDigits(b.root);
  }

  lemma FatWritten(fat: seq<u32>, n: nat)
    requires 4 * |fat| <= n
    ensures HoldsFat(FatCopy(fat, n), fat)
  {
    forall c: nat | c < |fat|
      ensures HoldsWord(FatCopy(fat, n), fat, c)
    {
      FourDigits(fat[c]);
      assert (4 * c) / 4 == (4 * c + 1) / 4 == (4 * c + 2) / 4 == (4 * c + 3) / 4 == c;
    }
  }

  /** Mounting what was written gives what it was written from. */
  lemma WriteThenMount(b: Boot, fat: seq<u32>, clusters: seq<seq<byte>>)
    requires b.fats > 0 && Times(b.reserved, b.bytesPerSector) >= 48
    requires 4 * |fat| <= Times(b.fatSectors, b.bytesPerSector)
    requires AllOfSize(clusters, Times(b.sectorsPerCluster, b.bytesPerSector))
    requires Usable(Write(b, fat, clusters), b, fat)
    ensures var d, size := Joined(Write(b, fat, clusters)), Times(b.sectorsPerCluster, b.bytesPerSector);
            Mountable(d, |fat|) && Mounted(d, |fat|) == Volume(size, b.root, fat, [[], []] + clusters)
  {
    BootWritten(b, Times(b.reserved, b.bytesPerSector));
    FatWritten(fat, Times(b.fatSectors, b.bytesPerSector));
    MountedImage(Write(b, fat, clusters), b, fat);
  }

  // ----- from the image to listings and files -----

  lemma SourceOk(p: Image, b: Boot, fat: seq<u32>)
    requires HasSizes(p, b) && Usable(p, b, fat) && HoldsFat(p.copies[0], fat)
    ensures VolumeOk(Source(p, b, fat))
  {
    MountedImage(p, b, fat);
    MountedOk(Joined(p), |fat|);
  }

  /** In what is mounted, a directory is listed as what its cluster in the image stores. */
  lemma ImageListed(p: Image, b: Boot, fat: seq<u32>, c: nat, parts: seq<seq<Slot>>, items: seq<Item>, rest: seq<Slot>)
    requires 2 <= c < |p.clusters| + 2 && p.clusters[c - 2] == Flatten<byte>(Flatten(parts) + rest)
    requires StoresItems(parts, items) && (rest != [] ==> rest[0][0] == 0x00)
    ensures List(Source(p, b, fat), c) == ShownAll(items)
  {
    ClusterListed(Source(p, b, fat), c, parts, items, rest);
  }

  lemma ClusterListed(v: Volume, c: nat, parts: seq<seq<Slot>>, items: seq<Item>, rest: seq<Slot>)
    requires StoresItems(parts, items) && (rest != [] ==> rest[0][0] == 0x00)
    requires c < |v.data| && v.data[c] == Flatten<byte>(Flatten(parts) + rest)
    ensures List(v, c) == ShownAll(items)
  {
    BytesListed(parts, items, rest);
  }

  /** A file of the root directory in the image is read as the bytes of its clusters, in the order of its chain, up
      to its size. */
  lemma ImageFileRead(p: Image, b: Boot, fat: seq<u32>, parts: seq<seq<Slot>>, items: seq<Item>, rest: seq<Slot>,
      name: Text, f: FileInfo, ch: seq<nat>)
    requires HasSizes(p, b) && Usable(p, b, fat) && HoldsFat(p.copies[0], fat)
    requires StoresItems(parts, items) && (rest != [] ==> rest[0][0] == 0x00)
    requires p.clusters[b.root as int - 2] == Flatten<byte>(Flatten(parts) + rest)
    requires name != [] && SLASH !in name && IsName(name) && Find(ShownAll(items), name) == Some(f) && !f.isDirectory
    requires StoredChain(fat, f.startCluster, ch)
    ensures var v := Source(p, b, fat); var all := Contents([[], []] + p.clusters, ch);
            && CanRead(v, name, None) && ReadBytes(v, name, None).Ok?
            && var r := ReadBytes(v, name, None).value;
               r <= all && (|r| == f.size || (r == all && |all| < f.size))
  {
    SourceOk(p, b, fat);
    ImageListed(p, b, fat, b.root, parts, items, rest);
    RootFileRead(Source(p, b, fat), name, f, ch);
  }

  lemma RootFileRead(v: Volume, name: Text, f: FileInfo, ch: seq<nat>)
    requires VolumeOk(v) && name != [] && SLASH !in name && IsName(name)
    requires Find(List(v, v.root), name) == Some(f) && !f.isDirectory && StoredChain(v.fat, f.startCluster, ch)
    ensures CanRead(v, name, None) && ReadBytes(v, name, None).Ok?
    ensures var all, r := Contents(v.data, ch), ReadBytes(v, name, None).value;
            r <= all && (|r| == f.size || (r == all && |all| < f.size))
  {
    PartsOfName(name);
    assert ParsePath(View(v), name, None) == Some(f);
    StoredFileRead(v, name, None, f, ch);
  }
}
