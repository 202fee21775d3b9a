/** Directories as the FAT specification lays them out in bytes, and that they are listed as they were stored. */
module Entries {
  import opened Bytes
  import opened Text
  import opened ShortName
  import opened Scanning
  import opened Directory
  import opened LongName

  /** Bit `i` of a number. */
  function Bit(x: nat, i: nat): nat { if i == 0 then x % 2 else Bit(x / 2, i - 1) }

  /** The number that bytes store, lowest byte first. */
  function LittleEndian(b: seq<byte>): nat { if b == [] then 0 else b[0] as int + 0x100 * LittleEndian(b[1..]) }

  /** Slot `s` stores a short entry: 11 bytes of name, the attributes, the high half of the cluster in bytes 20
      and 21, its low half in bytes 26 and 27, and the size in the last four bytes. */
  predicate StoresEntry(s: Slot, short: seq<byte>, attr: byte, cluster: u32, size: u32) {
    && s[..11] == short && s[11] == attr
    && LittleEndian([s[26], s[27], s[20], s[21]]) == cluster
    && LittleEndian([s[28], s[29], s[30], s[31]]) == size
  }

  /** What a directory holds: an entry, alone or behind a long name with a checksum, or a slot that is deleted or
      holds a volume label, alone or behind any fragments. */
  datatype Item =
    | Short(short: seq<byte>, attr: byte, cluster: u32, size: u32)
    | Long(name: Text, sum: byte, short: seq<byte>, attr: byte, cluster: u32, size: u32)
    | Skipped

  /** An entry that is neither an end mark, deleted, a label nor a fragment. */
  predicate IsEntry(short: seq<byte>, attr: byte) {
    |short| == 11 && short[0] != 0x00 && short[0] != 0xE5 && Bit(attr, 3) == 0
  }

  /** The run stores a long name, the fragments behind the last-flagged one in any order. */
  ghost predicate StoresLong(run: seq<Slot>, name: Text, sum: byte) {
    Storable(name) && exists order :: StoresName(run, name, order, sum)
  }

  predicate IsSkipped(s: Slot) {
    s[0] != 0x00 && (s[0] == 0xE5 || (Bit(s[11], 3) == 1 && s[11] != 0x0F))
  }

  ghost predicate StoresItem(slots: seq<Slot>, item: Item) {
    match item
    case Short(short, attr, cluster, size) =>
      |slots| == 1 && IsEntry(short, attr) && StoresEntry(slots[0], short, attr, cluster, size)
    case Long(name, sum, short, attr, cluster, size) =>
      && |slots| > 1 && IsEntry(short, attr)
      && StoresLong(slots[..|slots| - 1], name, sum)
      && StoresEntry(slots[|slots| - 1], short, attr, cluster, size)
    case Skipped =>
      && slots != [] && IsSkipped(slots[|slots| - 1])
      && forall i :: 0 <= i < |slots| - 1 ==> slots[i][11] == 0x0F && slots[i][0] != 0x00 && slots[i][0] != 0xE5
  }

  /** What the item is listed as. */
  function Shown(item: Item): seq<FileInfo> {
    match item
    case Short(short, attr, cluster, size) =>
      if |short| == 11 then [FileInfo(Print(short), Bit(attr, 4) == 1, size, cluster)] else []
    case Long(name, sum, short, attr, cluster, size) =>
      if |short| == 11 then [FileInfo(NameBehind(name, sum, short), Bit(attr, 4) == 1, size, cluster)] else []
    case Skipped => []
  }

  function ShownAll(items: seq<Item>): seq<FileInfo> {
    if items == [] then [] else Shown(items[0]) + ShownAll(items[1..])
  }

  function Flatten<T>(parts: seq<seq<T>>): seq<T> {
    if parts == [] then [] else parts[0] + Flatten(parts[1..])
  }

  // ----- one slot -----

  lemma BitDown(x: nat, i: nat)
    requires i > 0
    ensures Bit(x, i) == Bit(x / 2, i - 1)
  {
  }

  lemma {:induction false} BitEight(x: nat, i: nat)
    ensures Bit(x, i + 3) == Bit(x / 8, i)
  {
    BitDown(x, i + 3);
    BitDown(x / 2, i + 2);
    BitDown(x / 4, i + 1);
    assert x / 2 / 2 == x / 4 && x / 4 / 2 == x / 8;
  }

  lemma BitsOf(x: byte)
    ensures Bit(x, 3) == x / 8 % 2 && Bit(x, 4) == x / 16 % 2 && Bit(x, 6) == x / 64 % 2
  {
    BitEight(x, 0);
    BitEight(x, 1);
    BitEight(x, 3);
    BitDown(x / 8, 1);
    BitEight(x / 8, 0);
    assert x / 8 / 2 == x / 16 && x / 8 / 8 == x / 64;
  }

  /** The order of a fragment is in the low five bits of its first byte, and bit 6 flags the last one. */
  lemma FragmentBits(s: Slot, high: nat, last: nat, middle: nat, order: nat)
    requires s[0] as int == 128 * high + 64 * last + 32 * middle + order
    requires high < 2 && last < 2 && middle < 2 && order < 32
    ensures Order(s) == order && (IsLastFragment(s) <==> last == 1)
  {
  }

  lemma EntryFields(s: Slot, short: seq<byte>, attr: byte, cluster: u32, size: u32)
    requires StoresEntry(s, short, attr, cluster, size)
    ensures Start(s) == cluster && Size(s) == size && (IsDirectory(s) <==> Bit(attr, 4) == 1)
    ensures IsLabel(s) <==> Bit(attr, 3) == 1
    ensures IsEntry(short, attr) ==> Plain(s)
  {
    BitsOf(attr);
    FourBytes(s[26], s[27], s[20], s[21]);
    FourBytes(s[28], s[29], s[30], s[31]);
    assert s[28..32] == [s[28], s[29], s[30], s[31]];
    assert s[20..22] == [s[20], s[21]] && s[26..28] == [s[26], s[27]];
    assert |short| == 11 ==> s[0] == short[0];
  }

  lemma FourBytes(a: byte, b: byte, c: byte, d: byte)
    ensures LittleEndian([a, b, c, d]) == a as int + 0x100 * b as int + 0x1_0000 * c as int + 0x100_0000 * d as int
  {
    assert [d][1..] == [] && [c, d][1..] == [d] && [b, c, d][1..] == [c, d] && [a, b, c, d][1..] == [b, c, d];
    assert LittleEndian([d]) == d as int;
    assert LittleEndian([c, d]) == c as int + 0x100 * d as int;
    assert LittleEndian([b, c, d]) == b as int + 0x100 * LittleEndian([c, d]);
  }

  // ----- the whole directory -----

  /** The slots are listed as `shown`, and leave no fragments behind. */
  predicate ListsAs(slots: seq<Slot>, shown: seq<FileInfo>) {
    NoEnd(slots, |slots|) && Listing(slots) == shown && After(SCAN, slots, IDLE) == IDLE
  }

  /** The slots of one item are listed as it is. */
  lemma ItemListed(slots: seq<Slot>, item: Item)
    requires StoresItem(slots, item)
    ensures ListsAs(slots, Shown(item))
  {
    match item
    case Short(short, attr, cluster, size) => ShortItem(slots, short, attr, cluster, size);
    case Long(name, sum, short, attr, cluster, size) => LongItem(slots, name, sum, short, attr, cluster, size);
    case Skipped => SkippedItem(slots);
  }

  lemma ShortItem(slots: seq<Slot>, short: seq<byte>, attr: byte, cluster: u32, size: u32)
    requires StoresItem(slots, Short(short, attr, cluster, size))
    ensures ListsAs(slots, [FileInfo(Print(short), Bit(attr, 4) == 1, size, cluster)])
  {
    OnlySlot(slots);
    ShortListed(slots[0], short, attr, cluster, size);
  }

  lemma LongItem(slots: seq<Slot>, name: Text, sum: byte, short: seq<byte>, attr: byte, cluster: u32, size: u32)
    requires StoresItem(slots, Long(name, sum, short, attr, cluster, size))
    ensures ListsAs(slots, [FileInfo(NameBehind(name, sum, short), Bit(attr, 4) == 1, size, cluster)])
  {
    FrontLast(slots);
    LongListed(slots[..|slots| - 1], slots[|slots| - 1], name, sum, short, attr, cluster, size);
  }

  lemma SkippedItem(slots: seq<Slot>)
    requires StoresItem(slots, Skipped)
    ensures ListsAs(slots, [])
  {
    FrontLast(slots);
    SkippedListed(slots[..|slots| - 1], slots[|slots| - 1]);
  }

  lemma SkippedListed(run: seq<Slot>, s: Slot)
    requires IsSkipped(s) && forall i :: 0 <= i < |run| ==> LiveLfn(run[i])
    ensures NoEnd(run + [s], |run| + 1) && Listing(run + [s]) == [] && After(SCAN, run + [s], IDLE) == IDLE
  {
    BitsOf(s[11]);
    LfnEmitsNothing(run, IDLE);
    ScanSnoc(SCAN, run, s, IDLE);
  }

  lemma OnlySlot<T>(s: seq<T>)
    requires |s| == 1
    ensures s == [s[0]]
  {
  }

  lemma ShortListed(s: Slot, short: seq<byte>, attr: byte, cluster: u32, size: u32)
    requires IsEntry(short, attr) && StoresEntry(s, short, attr, cluster, size)
    ensures NoEnd([s], 1) && After(SCAN, [s], IDLE) == IDLE
    ensures Listing([s]) == [FileInfo(Print(short), Bit(attr, 4) == 1, size, cluster)]
  {
    EntryFields(s, short, attr, cluster, size);
    OneSlot(s);
    PlainSlot(s, IDLE);
    assert IDLE.frags == [];
  }

  lemma OneSlot(s: Slot)
    requires !SCAN.stop(s)
    ensures Listing([s]) == SCAN.emit(s, IDLE) && After(SCAN, [s], IDLE) == SCAN.next(s, IDLE)
  {
    assert [s] == [s] + [] && [s][..0] == [];
    ScanCons(SCAN, s, [], IDLE);
  }

  lemma LongListed(run: seq<Slot>, s: Slot, name: Text, sum: byte, short: seq<byte>, attr: byte, cluster: u32,
      size: u32)
    requires StoresLong(run, name, sum) && IsEntry(short, attr) && StoresEntry(s, short, attr, cluster, size)
    ensures NoEnd(run + [s], |run| + 1) && After(SCAN, run + [s], IDLE) == IDLE
    ensures Listing(run + [s]) == [FileInfo(NameBehind(name, sum, short), Bit(attr, 4) == 1, size, cluster)]
  {
    EntryFields(s, short, attr, cluster, size);
    RunListed(run, s, name, sum);
  }

  lemma FrontLast<T>(s: seq<T>)
    requires s != []
    ensures s == s[..|s| - 1] + [s[|s| - 1]]
  {
  }

  lemma RunListed(run: seq<Slot>, s: Slot, name: Text, sum: byte)
    requires StoresLong(run, name, sum) && Plain(s)
    ensures NoEnd(run + [s], |run| + 1) && After(SCAN, run + [s], IDLE) == IDLE
    ensures Listing(run + [s]) == [FileInfo(NameBehind(name, sum, s[..11]), IsDirectory(s), Size(s), Start(s))]
  {
    var order :| StoresName(run, name, order, sum);
    RunEmitsNothing(run, name, order, sum, IDLE);
    RunThenEntry(run, s, name, order, sum, IDLE);
    ScanSnoc(SCAN, run, s, IDLE);
  }

  ghost predicate StoresItems(parts: seq<seq<Slot>>, items: seq<Item>) {
    && |parts| == |items|
    && (parts != [] ==> StoresItem(parts[0], items[0]) && StoresItems(parts[1..], items[1..]))
  }

  /** A directory whose slots store the items, up to an end mark or the end of the cluster, is listed as exactly
      these items, in their order. */
  lemma {:induction false} DirectoryListed(parts: seq<seq<Slot>>, items: seq<Item>, rest: seq<Slot>)
    requires StoresItems(parts, items)
    requires rest != [] ==> rest[0][0] == 0x00
    ensures Listing(Flatten(parts) + rest) == ShownAll(items)
  {
    if parts == [] {
      assert Flatten(parts) + rest == rest;
    } else {
      DirectoryListed(parts[1..], items[1..], rest);
      FlattenFirst(parts, rest);
      ItemThen(parts[0], items[0], Flatten(parts[1..]) + rest);
    }
  }

  lemma FlattenFirst<T>(parts: seq<seq<T>>, rest: seq<T>)
    requires parts != []
    ensures Flatten(parts) + rest == parts[0] + (Flatten(parts[1..]) + rest)
  {
  }

  lemma ItemThen(slots: seq<Slot>, item: Item, more: seq<Slot>)
    requires StoresItem(slots, item)
    ensures Listing(slots + more) == Shown(item) + Listing(more)
  {
    ItemListed(slots, item);
    ListedThen(slots, more);
  }

  lemma ListedThen(a: seq<Slot>, b: seq<Slot>)
    requires NoEnd(a, |a|) && After(SCAN, a, IDLE) == IDLE
    ensures Listing(a + b) == Listing(a) + Listing(b)
  {
    ScanJoin(SCAN, a, b, IDLE);
  }

  /** The slots of a cluster are its bytes, 32 at a time. */
  lemma {:induction false} SlotsFlatten(slots: seq<Slot>)
    ensures |Flatten(slots)| == 32 * |slots| && Slots(Flatten(slots)) == slots
  {
    if slots != [] {
      var rest := slots[1..];
      SlotsFlatten(rest);
      var data := Flatten(slots);
      assert data == slots[0] + Flatten(rest);
      forall i | 0 <= i < |slots|
        ensures Slots(data)[i] == slots[i]
      {
        if i > 0 {
          assert data[32 * i..32 * i + 32] == Flatten(rest)[32 * (i - 1)..32 * (i - 1) + 32];
          assert Slots(Flatten(rest))[i - 1] == rest[i - 1];
        }
      }
    }
  }

  /** The same on the bytes of a cluster. */
  lemma BytesListed(parts: seq<seq<Slot>>, items: seq<Item>, rest: seq<Slot>)
    requires StoresItems(parts, items)
    requires rest != [] ==> rest[0][0] == 0x00
    ensures Listing(Slots(Flatten<byte>(Flatten(parts) + rest))) == ShownAll(items)
  {
    SlotsFlatten(Flatten(parts) + rest);
    DirectoryListed(parts, items, rest);
  }
}
