/** What the single edits do to FAT links, slots and listings. */
module Edits {
  import opened Bytes
  import opened Text
  import opened ShortName
  import opened Scanning
  import opened Directory
  import opened FatVolume

  // ----- the FAT as a map from cluster to 28-bit link -----

  /** Writing an entry sets its link, keeps its top four bits, and keeps every other word. */
  lemma SetLinkLinks(v: Volume, c: nat, value: nat)
    requires c < |v.fat| && value < 0x1000_0000
    ensures Link(SetLink(v, c, value), c) == value
    ensures SetLink(v, c, value).fat[c] as int / 0x1000_0000 == v.fat[c] as int / 0x1000_0000
    ensures forall k :: 0 <= k < |v.fat| && k != c ==> Link(SetLink(v, c, value), k) == Link(v, k)
  {
    var word := v.fat[c] as int;
    assert 0 <= word / 0x1000_0000 < 0x10;
  }

  /** The clusters the allocator may hand out. */
  function FreeClusters(v: Volume): set<int>
    requires VolumeOk(v)
  {
    set c | 2 <= c < 50000 && v.fat[c] as int % 0x1000_0000 == 0
  }

  /** "Disk full" exactly when no entry in the scanned range is free; otherwise the least free
      cluster is taken, it alone stops being free, and the next one taken is larger. */
  lemma AllocateLeast(v: Volume)
    requires VolumeOk(v)
    ensures Candidate(v).None? <==> FreeClusters(v) == {}
    ensures Candidate(v).Some? ==>
              var c := Candidate(v).value; var v' := SetLink(v, c, EOC);
              && c in FreeClusters(v) && (forall k :: k in FreeClusters(v) ==> c <= k)
              && VolumeOk(v') && FreeClusters(v') == FreeClusters(v) - {c}
              && v'.fat[c] as int % 0x1000_0000 == 0x0FFF_FFFF
              && (Candidate(v').Some? ==> Candidate(v').value > c)
  {
    var c := FirstFree(v.fat, 2);
    if c < SCAN_LIMIT {
      assert c in FreeClusters(v);
      var v' := SetLink(v, c, EOC);
      SetLinkLinks(v, c, EOC);
      assert FreeClusters(v') == FreeClusters(v) - {c};
      if Candidate(v').Some? {
        assert Candidate(v').value in FreeClusters(v');
      }
    }
  }

  lemma SetDataOk(v: Volume, c: nat, bytes: seq<byte>)
    requires VolumeOk(v) && InRange(v, c) && |bytes| == v.clusterSize
    ensures VolumeOk(SetData(v, c, bytes))
  {
  }

  // ----- slots -----

  /** Writing 32 bytes at slot `i` replaces that slot and no other. */
  lemma SlotsSplice(data: seq<byte>, i: nat, s: Slot)
    requires 32 * i + 32 <= |data|
    ensures Slots(Splice(data, 32 * i, s)) == Slots(data)[i := s]
  {
    var now := Splice(data, 32 * i, s);
    assert i < |Slots(data)|;
    forall k | 0 <= k < |Slots(data)|
      ensures Slots(now)[k] == Slots(data)[i := s][k]
    {
      if k != i {
        assert now[32 * k..32 * k + 32] == data[32 * k..32 * k + 32];
      } else {
        assert now[32 * k..32 * k + 32] == s;
      }
    }
  }

  lemma PutSlotDir(v: Volume, c: nat, i: nat, s: Slot)
    requires VolumeOk(v) && InRange(v, c) && i < |Dir(v, c)|
    ensures VolumeOk(PutSlot(v, c, i, s))
    ensures Dir(PutSlot(v, c, i, s), c) == Dir(v, c)[i := s]
    ensures forall d: nat :: d != c ==> Dir(PutSlot(v, c, i, s), d) == Dir(v, d)
  {
    SlotsSplice(v.data[c], i, s);
  }

  lemma NewSlotFields(short: seq<byte>, attr: byte, c: u32)
    requires |short| == 11
    ensures var s := NewSlot(short, attr, c);
            && s[..11] == short && s[0] == short[0] && s[11] == attr && Start(s) == c && Size(s) == 0
            && s[12..20] == Zeros(8) && s[22..26] == Zeros(4)
  {
    var s := NewSlot(short, attr, c);
    assert s[20..22] == Le16(c / 0x1_0000);
    assert s[26..28] == Le16(c % 0x1_0000);
    assert s[28..32] == Zeros(4);
  }

  lemma ResizedFields(s: Slot, size: u32)
    ensures SameButSize(s, Resized(s, size)) && Size(Resized(s, size)) == size
  {
    assert Resized(s, size)[28..32] == Le32(size);
    Le32RoundTrip(size);
  }

  /** The slot of a new entry is listed under the printed short name, with size 0 and its cluster, unless
      the name starts with the byte of an end or deletion mark. */
  lemma NewSlotInfo(short: seq<byte>, attr: byte, c: u32)
    requires |short| == 11 && short[0] != 0x00 && short[0] != 0xE5
    requires attr == ATTR_ARCHIVE || attr == ATTR_DIRECTORY
    ensures var s := NewSlot(short, attr, c);
            Plain(s) && Info(s, IDLE) == FileInfo(Print(short), attr == ATTR_DIRECTORY, 0, c)
  {
    NewSlotFields(short, attr, c);
    AttributeBits(NewSlot(short, attr, c));
    assert IDLE.frags == [];
  }

  lemma AttributeBits(s: Slot)
    requires s[11] == ATTR_ARCHIVE || s[11] == ATTR_DIRECTORY
    ensures !IsLfn(s) && !IsLabel(s) && (IsDirectory(s) <==> s[11] == ATTR_DIRECTORY)
  {
  }

  // ----- a fresh directory -----

  lemma FreshSlots(v: Volume, c: u32, parent: u32)
    requires VolumeOk(v)
    ensures var slots := Slots(FreshDirectory(v, c, parent)); var up := if parent == v.root then 0 else parent;
            && |slots| == v.clusterSize / 32 >= 2
            && slots[0] == NewSlot(DOT_SHORT, ATTR_DIRECTORY, c)
            && slots[1] == NewSlot(DOT_DOT_SHORT, ATTR_DIRECTORY, up)
            && (forall k :: 2 <= k < |slots| ==> IsEnd(slots[k]))
            && forall i :: 64 <= i < v.clusterSize ==> FreshDirectory(v, c, parent)[i] == 0
  {
    var bytes := FreshDirectory(v, c, parent);
    var up := if parent == v.root then 0 else parent;
    assert bytes[0..32] == NewSlot(DOT_SHORT, ATTR_DIRECTORY, c);
    assert bytes[32..64] == NewSlot(DOT_DOT_SHORT, ATTR_DIRECTORY, up);
    forall k | 2 <= k < |Slots(bytes)|
      ensures IsEnd(Slots(bytes)[k])
    {
      assert bytes[32 * k] == 0;
    }
  }

  lemma PrintDots()
    ensures |DOT_SHORT| == 11 && Print(DOT_SHORT) == DOT_NAME
    ensures |DOT_DOT_SHORT| == 11 && Print(DOT_DOT_SHORT) == DOT_DOT_NAME
  {
    PrintBlankExtension(DOT_SHORT, 1);
    PrintBlankExtension(DOT_DOT_SHORT, 2);
  }

  lemma PrintBlankExtension(short: seq<byte>, n: nat)
    requires |short| == 11 && 0 < n <= 8 && short[n - 1] != SPACE
    requires forall i :: 0 <= i < n ==> short[i] < 0x80
    requires forall i :: n <= i < 11 ==> short[i] == SPACE
    ensures Print(short) == short[..n]
  {
    TrimBlanks(short[..8], n);
    TrimBlanks(short[8..], 0);
    assert short[..8][..n] == short[..n];
    FromUtf8Ascii(short[..n]);
  }

  lemma {:induction false} TrimBlanks(b: seq<byte>, n: nat)
    requires n <= |b| && (n > 0 ==> b[n - 1] != SPACE) && forall i :: n <= i < |b| ==> b[i] == SPACE
    ensures Trim(b) == b[..n]
  {
    if |b| > n {
      TrimBlanks(b[..|b| - 1], n);
    }
  }

  /** The listing of a directory whose first two slots are short entries. */
  lemma PlainPair(slots: seq<Slot>)
    requires |slots| >= 2 && Plain(slots[0]) && Plain(slots[1])
    ensures Listing(slots) == [Info(slots[0], IDLE), Info(slots[1], IDLE)] + Listing(slots[2..])
  {
    var a, b, rest := slots[0], slots[1], slots[2..];
    assert slots == [a, b] + rest;
    PlainSlot(a, IDLE);
    PlainSlot(b, IDLE);
    ScanTwo(SCAN, a, b, rest, IDLE);
  }
}
