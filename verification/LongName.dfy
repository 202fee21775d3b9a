/** Long file names: a name laid out as fragments of 13 units is listed under exactly that name. */
module LongName {
  import opened Arithmetic
  import opened Bytes
  import opened Text
  import opened ShortName
  import opened Scanning
  import opened Directory

  /** Fragments a name needs. */
  function Count(name: Text): nat { (|name| + 12) / 13 }

  /** Unit `j` of the padded name: the name, one 0x0000, then 0xFFFF. */
  function PaddedUnit(name: Text, j: nat): u16 {
    if j < |name| then name[j] else if j == |name| then 0x0000 else 0xFFFF
  }

  /** The 13 units of fragment `k`, counted from 1. */
  function Chunk(name: Text, k: nat): (r: Text)
    requires k >= 1
    ensures |r| == 13
  {
    seq<u16>(13, i requires 0 <= i < 13 => PaddedUnit(name, 13 * (k - 1) + i) as u16)
  }

  function Frag(name: Text, k: nat): Fragment
    requires k >= 1
  {
    Fragment(k, Chunk(name, k))
  }

  /** Where unit `i` of a long-name slot is: five units from byte 1 on, six from byte 14 and two from byte 28. */
  function UnitAt(i: nat): nat
    requires i < 13
  {
    if i < 5 then 1 + 2 * i else if i < 11 then 14 + 2 * (i - 5) else 28 + 2 * (i - 11)
  }

  /** Slot `s` stores fragment `k` as the FAT specification's "FAT Long Directory Entries" lays it out. */
  predicate StoresFragment(s: Slot, name: Text, k: nat, checksum: byte) {
    && 1 <= k <= Count(name)
    && s[0] == (if k == Count(name) then 0x40 + k else k)
    && s[11] == 0x0F
    && s[13] == checksum
    && forall i :: 0 <= i < 13 ==>
         s[UnitAt(i)] as int + 0x100 * s[UnitAt(i) + 1] as int == PaddedUnit(name, 13 * (k - 1) + i)
  }

  lemma UnitsAt(s: Slot, lo: nat, hi: nat, i: nat)
    requires lo + 2 * i + 2 <= hi <= 32
    ensures Units(s[lo..hi])[i] == s[lo + 2 * i] as int + 0x100 * s[lo + 2 * i + 1] as int
  {
    assert s[lo..hi][2 * i..2 * i + 2] == [s[lo + 2 * i], s[lo + 2 * i + 1]];
  }

  /** The units of a slot are at those bytes, in this order. */
  lemma SlotUnitsAt(s: Slot, i: nat)
    requires i < 13
    ensures SlotUnits(s)[i] == s[UnitAt(i)] as int + 0x100 * s[UnitAt(i) + 1] as int
  {
    if i < 5 {
      UnitsAt(s, 1, 11, i);
    } else if i < 11 {
      UnitsAt(s, 14, 26, i - 5);
    } else {
      UnitsAt(s, 28, 32, i - 11);
    }
  }

  /** Units the format can carry: 1 to 31 fragments without the two padding values. */
  predicate Storable(name: Text) {
    && 1 <= Count(name) <= 31
    && forall i :: 0 <= i < |name| ==> name[i] != 0x0000 && name[i] != 0xFFFF
  }

  /** `order` lists 1..n in any sequence. */
  predicate Permutes(order: seq<nat>, n: nat) {
    && |order| == n
    && (forall i :: 0 <= i < n ==> 1 <= order[i] <= n)
    && (forall i, j :: 0 <= i < j < n ==> order[i] != order[j])
  }

  /** `order` lists 1..n in any sequence that starts with n. */
  predicate LastFirst(order: seq<nat>, n: nat) { Permutes(order, n) && (n > 0 ==> order[0] == n) }

  /** The run stores all fragments of the name in the given sequence. */
  predicate StoresName(run: seq<Slot>, name: Text, order: seq<nat>, checksum: byte) {
    && LastFirst(order, Count(name))
    && |run| == |order|
    && forall i :: 0 <= i < |run| ==> StoresFragment(run[i], name, order[i], checksum)
  }

  function Frags(name: Text, order: seq<nat>): seq<Fragment>
    requires forall i :: 0 <= i < |order| ==> order[i] >= 1
  {
    seq(|order|, i requires 0 <= i < |order| => Frag(name, order[i]))
  }

  // ----- collecting the fragments -----

  lemma FragmentSlot(s: Slot, name: Text, k: nat, checksum: byte, p: Pending)
    requires StoresFragment(s, name, k, checksum) && Count(name) <= 31
    ensures LiveLfn(s) && Order(s) == k && (IsLastFragment(s) <==> k == Count(name))
    ensures Next(s, p) == var q := if k == Count(name) then Pending([], Some(checksum)) else p;
                          q.(frags := Upsert(q.frags, Frag(name, k)))
  {
    forall i | 0 <= i < 13
      ensures SlotUnits(s)[i] == Chunk(name, k)[i]
    {
      SlotUnitsAt(s, i);
    }
    assert SlotUnits(s) == Chunk(name, k);
  }

  /** Reading the first `m` slots of the run leaves exactly their fragments pending. */
  lemma {:induction false} Collected(run: seq<Slot>, name: Text, order: seq<nat>, checksum: byte, p: Pending, m: nat)
    requires Storable(name) && StoresName(run, name, order, checksum) && 1 <= m <= |run|
    ensures After(SCAN, run[..m], p) == Pending(Frags(name, order[..m]), Some(checksum))
  {
    var q := After(SCAN, run[..m - 1], p);
    AfterLast(SCAN, run, m, p);
    FragmentSlot(run[m - 1], name, order[m - 1], checksum, q);
    if m == 1 {
      assert order[..1] == [order[0]];
    } else {
      Collected(run, name, order, checksum, p, m - 1);
      UpsertSnoc(name, order, m);
    }
  }

  lemma UpsertSnoc(name: Text, order: seq<nat>, m: nat)
    requires LastFirst(order, |order|) && 1 <= m <= |order|
    ensures Upsert(Frags(name, order[..m - 1]), Frag(name, order[m - 1])) == Frags(name, order[..m])
  {
    UpsertNew(Frags(name, order[..m - 1]), Frag(name, order[m - 1]));
  }

  // ----- sorting them -----

  predicate Increasing(frags: seq<Fragment>) {
    forall i, j :: 0 <= i < j < |frags| ==> frags[i].order < frags[j].order
  }

  lemma {:induction false} InsertMembers(f: Fragment, frags: seq<Fragment>)
    ensures |Insert(f, frags)| == |frags| + 1
    ensures forall x :: x in Insert(f, frags) <==> x == f || x in frags
  {
    if frags != [] && f.order > frags[0].order {
      InsertMembers(f, frags[1..]);
      assert frags == [frags[0]] + frags[1..];
    }
  }

  lemma IncreasingCons(f: Fragment, rest: seq<Fragment>)
    requires Increasing(rest) && forall x :: x in rest ==> f.order < x.order
    ensures Increasing([f] + rest)
  {
    assert forall j :: 0 <= j < |rest| ==> rest[j] in rest;
  }

  lemma {:induction false} InsertIncreasing(f: Fragment, frags: seq<Fragment>)
    requires Increasing(frags) && forall x :: x in frags ==> x.order != f.order
    ensures Increasing(Insert(f, frags))
    ensures |Insert(f, frags)| == |frags| + 1
    ensures forall x :: x in Insert(f, frags) <==> x == f || x in frags
  {
    InsertMembers(f, frags);
    if frags != [] {
      assert frags == [frags[0]] + frags[1..] && frags[0] in frags;
      if f.order > frags[0].order {
        InsertIncreasing(f, frags[1..]);
        IncreasingCons(frags[0], Insert(f, frags[1..]));
      } else {
        IncreasingCons(f, frags);
      }
    }
  }

  lemma {:induction false} SortIncreasing(frags: seq<Fragment>)
    requires forall i, j :: 0 <= i < j < |frags| ==> frags[i].order != frags[j].order
    ensures Increasing(Sort(frags))
    ensures |Sort(frags)| == |frags|
    ensures forall x :: x in Sort(frags) <==> x in frags
  {
    if frags != [] {
      SortIncreasing(frags[1..]);
      assert frags == [frags[0]] + frags[1..];
      InsertIncreasing(frags[0], Sort(frags[1..]));
    }
  }

  /** n increasing orders between 1 and n are 1, 2, ..., n. */
  lemma {:induction false} IncreasingIsCounting(frags: seq<Fragment>, i: nat)
    requires Increasing(frags) && i < |frags|
    requires forall j :: 0 <= j < |frags| ==> 1 <= frags[j].order <= |frags|
    ensures frags[i].order >= i + 1
    ensures frags[i].order <= i + 1
  {
    CountUp(frags, i);
    CountDown(frags, i);
  }

  lemma {:induction false} CountUp(frags: seq<Fragment>, i: nat)
    requires Increasing(frags) && i < |frags| && frags[0].order >= 1
    ensures frags[i].order >= i + 1
  {
    if i > 0 {
      CountUp(frags, i - 1);
    }
  }

  lemma {:induction false} CountDown(frags: seq<Fragment>, i: nat)
    requires Increasing(frags) && i < |frags| && frags[|frags| - 1].order <= |frags|
    ensures frags[i].order <= i + 1
    decreases |frags| - i
  {
    if i < |frags| - 1 {
      CountDown(frags, i + 1);
    }
  }

  // ----- reading the name back -----

  /** Cleaning from unit `i` of fragment `k` on leaves the rest of that part of the name. */
  lemma {:induction false} CleanChunk(name: Text, k: nat, i: nat)
    requires Storable(name) && 1 <= k <= Count(name) && i <= 13
    ensures var lo := Min(13 * (k - 1) + i, |name|); var hi := Min(13 * k, |name|);
            Clean(Chunk(name, k)[i..]) == name[lo..hi]
    decreases 13 - i
  {
    if i < 13 {
      var c, j := Chunk(name, k), 13 * (k - 1) + i;
      assert c[i..][1..] == c[i + 1..] && c[i..][0] == PaddedUnit(name, j);
      if j < |name| {
        CleanChunk(name, k, i + 1);
        assert name[j..Min(13 * k, |name|)] == [name[j]] + name[j + 1..Min(13 * k, |name|)];
      } else {
        CleanPadding(name, k, i);
      }
    }
  }

  lemma {:induction false} CleanPadding(name: Text, k: nat, i: nat)
    requires k >= 1 && i <= 13 && 13 * (k - 1) + i >= |name|
    ensures Clean(Chunk(name, k)[i..]) == []
    decreases 13 - i
  {
    if i < 13 {
      var c := Chunk(name, k);
      assert c[i..][1..] == c[i + 1..] && c[i..][0] == PaddedUnit(name, 13 * (k - 1) + i);
      CleanPadding(name, k, i + 1);
    }
  }

  lemma {:induction false} GatherInOrder(frags: seq<Fragment>, name: Text, k: nat)
    requires Storable(name) && |frags| == Count(name) && k <= |frags|
    requires forall i :: 0 <= i < |frags| ==> frags[i] == Frag(name, i + 1)
    ensures Gather(frags[k..]) == name[Min(13 * k, |name|)..]
    decreases |frags| - k
  {
    if k < |frags| {
      GatherInOrder(frags, name, k + 1);
      CleanChunk(name, k + 1, 0);
      assert frags[k..][1..] == frags[k + 1..];
      var c := Chunk(name, k + 1);
      assert c[0..] == c;
      var lo, hi := Min(13 * k, |name|), Min(13 * (k + 1), |name|);
      assert name[lo..] == name[lo..hi] + name[hi..];
    }
  }

  /** Assembling sorts: the fragments of a name give it back in whatever order they were collected, if it is valid
      UTF-16, and nothing otherwise. */
  lemma AssembleAnyOrder(name: Text, order: seq<nat>)
    requires Storable(name) && Permutes(order, Count(name))
    ensures Assemble(Frags(name, order)) == if ValidUtf16(name) then Some(name) else None
  {
    var frags := Frags(name, order);
    SortIncreasing(frags);
    var sorted := Sort(frags);
    forall i | 0 <= i < |sorted|
      ensures 1 <= sorted[i].order <= |sorted| && sorted[i] == Frag(name, sorted[i].order)
    {
      assert sorted[i] in frags;
    }
    forall i | 0 <= i < |sorted|
      ensures sorted[i] == Frag(name, i + 1)
    {
      IncreasingIsCounting(sorted, i);
    }
    GatherInOrder(sorted, name, 0);
    assert sorted[0..] == sorted && name[0..] == name;
  }

  /** The name an entry is listed under behind a long name stored with checksum `sum`. */
  function NameBehind(name: Text, sum: byte, short: seq<byte>): Text
    requires |short| == 11
  {
    if sum == Checksum(short) && ValidUtf16(name) then name else Print(short)
  }

  /** A long name stored before a short entry is listed exactly as it is if its checksum is that of the short name
      and it is valid UTF-16, and otherwise gives way to the short name, for every order of the fragments that puts
      the last-flagged one first. */
  lemma LongNameListed(pre: seq<Slot>, run: seq<Slot>, s: Slot, post: seq<Slot>, name: Text, order: seq<nat>, sum: byte)
    requires Storable(name) && StoresName(run, name, order, sum)
    requires NoEnd(pre, |pre|) && Plain(s)
    ensures Listing(pre + run + [s] + post)
         == Listing(pre) + [FileInfo(NameBehind(name, sum, s[..11]), IsDirectory(s), Size(s), Start(s))] + Listing(post)
  {
    var p := After(SCAN, pre, IDLE);
    RunThenEntry(run, s, name, order, sum, p);
    RunEmitsNothing(run, name, order, sum, p);
    ScanRun(SCAN, pre, run, s, post, IDLE);
  }

  /** What the entry behind a stored name emits. */
  lemma RunThenEntry(run: seq<Slot>, s: Slot, name: Text, order: seq<nat>, sum: byte, p: Pending)
    requires Storable(name) && StoresName(run, name, order, sum) && Plain(s)
    ensures var q := After(SCAN, run, p);
            && !SCAN.stop(s) && SCAN.next(s, q) == IDLE
            && SCAN.emit(s, q) == [FileInfo(NameBehind(name, sum, s[..11]), IsDirectory(s), Size(s), Start(s))]
  {
    Collected(run, name, order, sum, p, |run|);
    assert run[..|run|] == run && order[..|order|] == order;
    AssembleAnyOrder(name, order);
    PlainSlot(s, After(SCAN, run, p));
  }

  lemma RunEmitsNothing(run: seq<Slot>, name: Text, order: seq<nat>, checksum: byte, p: Pending)
    requires Count(name) <= 31 && StoresName(run, name, order, checksum)
    ensures Scan(SCAN, run, p) == [] && NoEnd(run, |run|)
  {
    forall i | 0 <= i < |run|
      ensures LiveLfn(run[i])
    {
      FragmentSlot(run[i], name, order[i], checksum, p);
    }
    LfnEmitsNothing(run, p);
  }

  lemma {:induction false} LfnEmitsNothing(run: seq<Slot>, p: Pending)
    requires forall i :: 0 <= i < |run| ==> LiveLfn(run[i])
    ensures Scan(SCAN, run, p) == [] && NoEnd(run, |run|)
  {
    if run != [] {
      assert SCAN.emit(run[0], p) == [];
      LfnEmitsNothing(run[1..], SCAN.next(run[0], p));
    }
  }
}
