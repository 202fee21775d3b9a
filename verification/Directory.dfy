/** Directory clusters: 32-byte slots, long-name fragments, and the listing state machine. */
module Directory {
  import opened Bytes
  import opened Text
  import opened ShortName
  import opened Scanning


  type Slot = s: seq<byte> | |s| == 32 witness seq(32, _ => 0)

  datatype FileInfo = FileInfo(name: Text, isDirectory: bool, size: u32, startCluster: u32)

  /** `chunks_exact(32)`. */
  function Slots(data: seq<byte>): (r: seq<Slot>)
    ensures |r| == |data| / 32
  {
    seq(|data| / 32, i requires 0 <= i < |data| / 32 => data[32 * i..32 * i + 32])
  }

  // ----- fields of a slot -----

  predicate IsEnd(s: Slot) { s[0] == 0x00 }

  predicate IsDeleted(s: Slot) { s[0] == 0xE5 }

  predicate IsFree(s: Slot) { IsEnd(s) || IsDeleted(s) }

  predicate IsLfn(s: Slot) { s[11] == 0x0F }

  /** Bit 3 of the attributes. */
  predicate IsLabel(s: Slot) { s[11] / 0x08 % 2 == 1 }

  /** Bit 4 of the attributes. */
  predicate IsDirectory(s: Slot) { s[11] / 0x10 % 2 == 1 }

  function Size(s: Slot): u32 { FromLe32(s[28..32]) }

  /** First cluster, stored as two 16-bit halves. */
  function Start(s: Slot): u32 {
    FromLe16(s[20..22]) as int * 0x1_0000 + FromLe16(s[26..28]) as int
  }

  // ----- long-name fragments -----

  datatype Fragment = Fragment(order: nat, units: Text)

  /** The fragments collected so far and the checksum they announce. */
  datatype Pending = Pending(frags: seq<Fragment>, checksum: Option<byte>)

  const IDLE: Pending := Pending([], None)

  /** `byte_to_u16_vec`. */
  function Units(b: seq<byte>): (r: Text)
    ensures |r| == |b| / 2
  {
    seq(|b| / 2, i requires 0 <= i < |b| / 2 => FromLe16(b[2 * i..2 * i + 2]))
  }

  /** The 13 units a long-name slot carries. */
  function SlotUnits(s: Slot): (r: Text)
    ensures |r| == 13
  {
    Units(s[1..11]) + Units(s[14..26]) + Units(s[28..32])
  }

  /** Replaces the first fragment of the same order, or adds one at the end. */
  function Upsert(frags: seq<Fragment>, f: Fragment): (r: seq<Fragment>) {
    if frags == [] then [f]
    else if frags[0].order == f.order then [f] + frags[1..]
    else [frags[0]] + Upsert(frags[1..], f)
  }

  lemma {:induction false} UpsertNew(frags: seq<Fragment>, f: Fragment)
    requires forall i :: 0 <= i < |frags| ==> frags[i].order != f.order
    ensures Upsert(frags, f) == frags + [f]
  {
    if frags != [] {
      UpsertNew(frags[1..], f);
      assert frags == [frags[0]] + frags[1..];
    }
  }

  lemma {:induction false} UpsertFound(frags: seq<Fragment>, f: Fragment, i: nat)
    requires i < |frags| && frags[i].order == f.order && forall j :: 0 <= j < i ==> frags[j].order != f.order
    ensures Upsert(frags, f) == frags[i := f]
  {
    if i > 0 {
      UpsertFound(frags[1..], f, i - 1);
      assert frags[i := f] == [frags[0]] + frags[1..][i - 1 := f];
    }
  }

  function Order(s: Slot): nat { s[0] % 0x20 }

  predicate IsLastFragment(s: Slot) { s[0] / 0x40 % 2 == 1 }

  /** `process_lfn_entry`. */
  function AddFragment(s: Slot, p: Pending): Pending {
    var p0 := if IsLastFragment(s) then Pending([], Some(s[13])) else p;
    p0.(frags := Upsert(p0.frags, Fragment(Order(s), SlotUnits(s))))
  }

  /** Insertion that keeps equal orders in their original sequence. */
  function Insert(f: Fragment, frags: seq<Fragment>): seq<Fragment> {
    if frags == [] || f.order <= frags[0].order then [f] + frags
    else [frags[0]] + Insert(f, frags[1..])
  }

  /** `sort_by` on the order: a stable sort. */
  function Sort(frags: seq<Fragment>): seq<Fragment> {
    if frags == [] then [] else Insert(frags[0], Sort(frags[1..]))
  }

  /** The units of a fragment up to the first 0x0000, with 0xFFFF dropped. */
  function Clean(units: Text): Text {
    if units == [] || units[0] == 0x0000 then []
    else if units[0] == 0xFFFF then Clean(units[1..])
    else [units[0]] + Clean(units[1..])
  }

  /** Cleaning takes units one by one, leaving 0xFFFF out, up to the first 0x0000. */
  lemma {:induction false} CleanExact(a: Text, x: u16, b: Text)
    requires 0x0000 !in a
    ensures Clean(a + [x] + b) == Clean(a) + (if x == 0x0000 then [] else (if x == 0xFFFF then [] else [x]) + Clean(b))
  {
    if a == [] {
      assert a + [x] + b == [x] + b && ([x] + b)[1..] == b;
    } else {
      CleanExact(a[1..], x, b);
      assert (a + [x] + b)[1..] == a[1..] + [x] + b;
    }
  }

  function Gather(frags: seq<Fragment>): Text {
    if frags == [] then [] else Clean(frags[0].units) + Gather(frags[1..])
  }

  /** `assemble_lfn`. */
  function Assemble(frags: seq<Fragment>): Option<Text> {
    var units := Gather(Sort(frags));
    if frags != [] && ValidUtf16(units) then Some(units) else None
  }

  /** The name shown for a short entry: the pending long name if its checksum matches. */
  function NameFor(s: Slot, p: Pending): Text {
    if p.frags != [] && p.checksum == Some(Checksum(s[..11])) && Assemble(p.frags).Some?
    then Assemble(p.frags).value
    else Print(s[..11])
  }

  function Info(s: Slot, p: Pending): FileInfo {
    FileInfo(NameFor(s, p), IsDirectory(s), Size(s), Start(s))
  }

  // ----- the listing -----

  /** What one slot that is not the end marker adds to the listing. */
  function Emit(s: Slot, p: Pending): seq<FileInfo> {
    if IsDeleted(s) || IsLfn(s) || IsLabel(s) then [] else [Info(s, p)]
  }

  /** The pending state after one slot. */
  function Next(s: Slot, p: Pending): Pending {
    if !IsDeleted(s) && IsLfn(s) then AddFragment(s, p) else IDLE
  }

  const SCAN: Machine<Slot, Pending, FileInfo> := Machine(IsEnd, Emit, Next)

  /** `list_directory_entries` on the slots of a cluster. */
  function Listing(slots: seq<Slot>): seq<FileInfo> {
    Scan(SCAN, slots, IDLE)
  }

  /** The pending state before slot `i`. */
  function Before(slots: seq<Slot>, i: nat): Pending
    requires i <= |slots|
  {
    After(SCAN, slots[..i], IDLE)
  }

  predicate NoEnd(slots: seq<Slot>, n: nat)
    requires n <= |slots|
  {
    NoStop(SCAN, slots, n)
  }

  // ----- well-formed directory clusters -----

  predicate LiveLfn(s: Slot) { !IsFree(s) && IsLfn(s) }

  /** Nothing follows the end marker, and no long-name run stops at a free slot. */
  predicate DirOk(slots: seq<Slot>) {
    && (forall i, j :: 0 <= i < j < |slots| && IsEnd(slots[i]) ==> IsEnd(slots[j]))
    && (forall i :: 0 < i < |slots| && IsFree(slots[i]) ==> !LiveLfn(slots[i - 1]))
  }

  /** A slot that holds a listed short entry. */
  predicate Plain(s: Slot) { !IsFree(s) && !IsLfn(s) && !IsLabel(s) }

  /** Slot `i` is listed. */
  predicate Live(slots: seq<Slot>, i: nat) {
    i < |slots| && NoEnd(slots, i) && Plain(slots[i])
  }

  /** The listing entry of slot `i`. */
  function InfoAt(slots: seq<Slot>, i: nat): FileInfo
    requires i < |slots|
  {
    Info(slots[i], Before(slots, i))
  }

  lemma NoPendingAtFree(slots: seq<Slot>, i: nat)
    requires DirOk(slots) && i < |slots| && IsFree(slots[i]) && NoEnd(slots, i)
    ensures Before(slots, i) == IDLE
  {
    if i > 0 {
      assert slots[..i][i - 1] == slots[i - 1];
      assert !SCAN.stop(slots[i - 1]);
    }
  }

  /** Index of the first end marker from `i` on, or the number of slots. */
  function EndIndex(slots: seq<Slot>, i: nat): (r: nat)
    requires i <= |slots|
    ensures i <= r <= |slots|
    ensures forall k :: i <= k < r ==> !IsEnd(slots[k])
    ensures r < |slots| ==> IsEnd(slots[r])
    decreases |slots| - i
  {
    if i == |slots| || IsEnd(slots[i]) then i else EndIndex(slots, i + 1)
  }

  /** Entry `k` of the listing comes from the live slot before which `k` entries are listed. */
  lemma ListedAt(slots: seq<Slot>, k: nat) returns (i: nat)
    requires k < |Listing(slots)|
    ensures Live(slots, i) && |Listing(slots[..i])| == k && Listing(slots)[k] == InfoAt(slots, i)
  {
    var n := EndIndex(slots, 0);
    if n < |slots| {
      ScanStops(SCAN, slots, n, IDLE);
    } else {
      assert slots[..n] == slots;
    }
    i := EmittedAt(SCAN, slots, n, IDLE, k);
    assert SCAN.emit(slots[i], Before(slots, i)) == Emit(slots[i], Before(slots, i));
  }

  /** Every listed entry comes from a live slot. */
  lemma ListedIsLive(slots: seq<Slot>, f: FileInfo) returns (i: nat)
    requires f in Listing(slots)
    ensures Live(slots, i) && f == InfoAt(slots, i)
  {
    var k :| 0 <= k < |Listing(slots)| && Listing(slots)[k] == f;
    i := ListedAt(slots, k);
  }

  /** Every live slot is listed. */
  lemma LiveIsListed(slots: seq<Slot>, i: nat)
    requires Live(slots, i)
    ensures InfoAt(slots, i) in Listing(slots)
  {
    ScanAround(SCAN, slots, i, IDLE);
  }

  lemma PlainSlot(s: Slot, p: Pending)
    requires Plain(s)
    ensures !SCAN.stop(s) && SCAN.emit(s, p) == [Info(s, p)] && SCAN.next(s, p) == IDLE
  {
  }

  lemma DeletedSlot(s: Slot, p: Pending)
    requires IsDeleted(s)
    ensures !SCAN.stop(s) && SCAN.emit(s, p) == [] && SCAN.next(s, p) == IDLE
  {
  }

  /** The listing of a directory with a free slot, split at that slot. */
  lemma ListingAtFree(slots: seq<Slot>, i: nat)
    requires DirOk(slots) && i < |slots| && IsFree(slots[i]) && NoEnd(slots, i)
    ensures Listing(slots) == Listing(slots[..i]) + Listing(slots[i + 1..])
  {
    var rest := slots[i + 1..];
    if IsEnd(slots[i]) {
      ScanStops(SCAN, slots, i, IDLE);
      assert rest != [] ==> IsEnd(rest[0]) && SCAN.stop(rest[0]);
    } else {
      DeletedSlot(slots[i], Before(slots, i));
      ScanAround(SCAN, slots, i, IDLE);
    }
  }

  /** Filling the first free slot inserts one entry at the position of that slot. */
  lemma ListingInsert(slots: seq<Slot>, i: nat, s: Slot)
    requires DirOk(slots) && i < |slots| && IsFree(slots[i]) && NoEnd(slots, i) && Plain(s)
    ensures var k := |Listing(slots[..i])|; var was := Listing(slots);
            k <= |was| && Listing(slots[i := s]) == was[..k] + [Info(s, IDLE)] + was[k..]
  {
    ListingAtFree(slots, i);
    NoPendingAtFree(slots, i);
    PlainSlot(s, IDLE);
    ScanReplace(SCAN, slots, i, s, IDLE);
  }

  lemma DirOkInsert(slots: seq<Slot>, i: nat, s: Slot)
    requires DirOk(slots) && i < |slots| && IsFree(slots[i]) && NoEnd(slots, i) && Plain(s)
    ensures DirOk(slots[i := s])
  {
    assert forall j :: 0 <= j < i ==> !SCAN.stop(slots[j]);
  }

  /** Filling a free slot makes exactly that slot live. */
  lemma LiveInsert(slots: seq<Slot>, i: nat, s: Slot, j: nat)
    requires DirOk(slots) && i < |slots| && IsFree(slots[i]) && NoEnd(slots, i) && Plain(s)
    ensures Live(slots[i := s], j) <==> j == i || Live(slots, j)
  {
    assert forall k :: 0 <= k < |slots| ==> SCAN.stop(slots[k]) == IsEnd(slots[k]);
  }

  /** Two slots that differ at most in the size field. */
  predicate SameButSize(a: Slot, b: Slot) {
    a[..28] == b[..28]
  }

  lemma SameFields(a: Slot, b: Slot)
    requires SameButSize(a, b)
    ensures a[0] == b[0] && a[11] == b[11] && a[..11] == b[..11] && Start(a) == Start(b)
  {
    assert a[0] == a[..28][0] && b[0] == b[..28][0];
    assert a[11] == a[..28][11] && b[11] == b[..28][11];
    assert a[..11] == a[..28][..11] && b[..11] == b[..28][..11];
    assert a[20..22] == a[..28][20..22] && b[20..22] == b[..28][20..22];
    assert a[26..28] == a[..28][26..28] && b[26..28] == b[..28][26..28];
  }

  lemma UpdateMiddle<T>(a: seq<T>, x: T, b: seq<T>, y: T)
    ensures (a + [x] + b)[|a| := y] == a + [y] + b
  {
  }

  /** A size field behind the end marker does not matter. */
  lemma ListingResizeEnd(slots: seq<Slot>, i: nat, s: Slot)
    requires i < |slots| && !NoEnd(slots, i + 1) && SameButSize(slots[i], s)
    ensures Listing(slots[i := s]) == Listing(slots) && !Live(slots, i)
  {
    SameFields(slots[i], s);
    var e, now := EndIndex(slots, 0), slots[i := s];
    assert e <= i;
    assert now[..e] == slots[..e];
    ScanStops(SCAN, slots, e, IDLE);
    ScanStops(SCAN, now, e, IDLE);
  }

  lemma ResizedEmits(a: Slot, b: Slot, p: Pending)
    requires SameButSize(a, b) && !IsLfn(a)
    ensures SCAN.stop(a) == SCAN.stop(b) && SCAN.next(a, p) == SCAN.next(b, p) == IDLE
    ensures Plain(a) ==> SCAN.emit(a, p) == [Info(a, p)] && SCAN.emit(b, p) == [Info(a, p).(size := Size(b))]
    ensures !Plain(a) && !IsEnd(a) ==> SCAN.emit(a, p) == [] && SCAN.emit(b, p) == []
  {
    SameFields(a, b);
  }

  /** Changing the size field of a slot that is not a long-name fragment changes one size at most. */
  lemma ListingResize(slots: seq<Slot>, i: nat, s: Slot)
    requires i < |slots| && SameButSize(slots[i], s) && !IsLfn(slots[i])
    ensures !Live(slots, i) ==> Listing(slots[i := s]) == Listing(slots)
    ensures Live(slots, i) ==>
              var k := |Listing(slots[..i])|; var was := Listing(slots);
              && k < |was| && was[k] == InfoAt(slots, i)
              && Listing(slots[i := s]) == was[k := was[k].(size := Size(s))]
  {
    if NoEnd(slots, i + 1) {
      var f, p := InfoAt(slots, i), Before(slots, i);
      assert !SCAN.stop(slots[i]);
      ResizedEmits(slots[i], s, p);
      ScanAround(SCAN, slots, i, IDLE);
      ScanReplace(SCAN, slots, i, s, IDLE);
      if Live(slots, i) {
        UpdateMiddle(Listing(slots[..i]), f, Listing(slots[i + 1..]), f.(size := Size(s)));
      }
    } else {
      ListingResizeEnd(slots, i, s);
    }
  }

  // ----- changing a long-name fragment -----

  /** Entries that differ at most in their name. */
  predicate SameButName(f: FileInfo, g: FileInfo) { g == f.(name := g.name) }

  predicate SameButNames(a: seq<FileInfo>, b: seq<FileInfo>) {
    |a| == |b| && forall i :: 0 <= i < |a| ==> SameButName(a[i], b[i])
  }

  /** The same slot, or two fragments that are read the same way. */
  predicate SameOrFragment(s: Slot, r: Slot) {
    s == r || (IsLfn(s) && IsLfn(r) && s[0] == r[0])
  }

  /** Whatever is pending, slots that differ only in fragments list entries that differ only in names. */
  lemma {:induction false} FragmentsName(a: seq<Slot>, b: seq<Slot>, p: Pending, q: Pending)
    requires |a| == |b| && forall i :: 0 <= i < |a| ==> SameOrFragment(a[i], b[i])
    ensures SameButNames(Scan(SCAN, a, p), Scan(SCAN, b, q))
  {
    if a != [] && !IsEnd(a[0]) {
      assert SameOrFragment(a[0], b[0]);
      FragmentsName(a[1..], b[1..], Next(a[0], p), Next(b[0], q));
      ScanCons(SCAN, a[0], a[1..], p);
      ScanCons(SCAN, b[0], b[1..], q);
      assert a == [a[0]] + a[1..] && b == [b[0]] + b[1..];
      assert SameButNames(Emit(a[0], p), Emit(b[0], q));
    }
  }

  /** Overwriting the size field of a long-name fragment changes no size, kind or cluster of any entry. */
  lemma FragmentResize(slots: seq<Slot>, i: nat, s: Slot)
    requires i < |slots| && SameButSize(slots[i], s) && IsLfn(slots[i])
    ensures SameButNames(Listing(slots), Listing(slots[i := s]))
  {
    SameFields(slots[i], s);
    FragmentsName(slots, slots[i := s], IDLE, IDLE);
  }
}
