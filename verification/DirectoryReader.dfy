/** The loops that read a directory cluster, proved against the listing they should produce. */
module DirectoryReader {
  import opened Bytes
  import opened Text
  import opened ShortName
  import opened Scanning
  import opened Directory

  /** `process_lfn_entry`: adds or replaces a fragment. */
  method ProcessLfnEntry(s: Slot, frags: seq<Fragment>, checksum: Option<byte>)
    returns (frags': seq<Fragment>, checksum': Option<byte>)
    ensures Pending(frags', checksum') == AddFragment(s, Pending(frags, checksum))
  {
    frags', checksum' := frags, checksum;
    var order := s[0] % 0x20;
    if s[0] / 0x40 % 2 == 1 {
      frags' := [];
      checksum' := Some(s[13]);
    }
    var data := Units(s[1..11]);
    data := data + Units(s[14..26]);
    data := data + Units(s[28..32]);
    frags' := ReplaceOrPush(frags', Fragment(order, data));
  }

  /** The inner loop of `process_lfn_entry`. */
  method ReplaceOrPush(frags: seq<Fragment>, f: Fragment) returns (r: seq<Fragment>)
    ensures r == Upsert(frags, f)
  {
    r := frags;
    for i := 0 to |frags|
      invariant r == frags
      invariant forall j :: 0 <= j < i ==> frags[j].order != f.order
    {
      if frags[i].order == f.order {
        UpsertFound(frags, f, i);
        r := r[i := f];
        return;
      }
    }
    UpsertNew(frags, f);
    r := r + [f];
  }

  /** `assemble_lfn`: sorts the fragments and joins their units. */
  method AssembleLfn(frags: seq<Fragment>) returns (name: Option<Text>)
    ensures name == Assemble(frags)
  {
    if frags == [] {
      return None;
    }
    var sorted := Sort(frags);
    var units: Text := [];
    var i := 0;
    while i < |sorted|
      invariant 0 <= i <= |sorted|
      invariant Gather(sorted) == units + Gather(sorted[i..])
    {
      var more := CleanUnits(sorted[i].units);
      assert sorted[i..][1..] == sorted[i + 1..];
      ConcatAssoc(units, more, Gather(sorted[i + 1..]));
      units := units + more;
      i := i + 1;
    }
    assert sorted[i..] == [] && units + [] == units;
    name := if ValidUtf16(units) then Some(units) else None;
  }

  /** The inner loop of `assemble_lfn`: stops at 0x0000 and skips 0xFFFF. */
  method CleanUnits(frag: Text) returns (units: Text)
    ensures units == Clean(frag)
  {
    units := [];
    var i := 0;
    while i < |frag|
      invariant 0 <= i <= |frag|
      invariant Clean(frag) == units + Clean(frag[i..])
    {
      assert frag[i..][1..] == frag[i + 1..];
      if frag[i] == 0x0000 {
        break;
      }
      if frag[i] != 0xFFFF {
        ConcatAssoc(units, [frag[i]], Clean(frag[i + 1..]));
        units := units + [frag[i]];
      }
      i := i + 1;
    }
  }

  /** `process_data_entry`: the entry of a short slot, or `None` for a volume label. */
  method ProcessDataEntry(s: Slot, frags: seq<Fragment>, checksum: Option<byte>) returns (info: Option<FileInfo>)
    requires !IsFree(s) && !IsLfn(s)
    ensures info == if IsLabel(s) then None else Some(Info(s, Pending(frags, checksum)))
  {
    if s[11] / 0x08 % 2 == 1 {
      return None;
    }
    var start := Start(s);
    var name: Option<Text> := None;
    if frags != [] {
      var computed := LfnChecksum(s[..11]);
      if checksum.Some? && checksum.value == computed {
        name := AssembleLfn(frags);
      }
    }
    if name.None? {
      var short := ShortNameToString(s[..11]);
      name := Some(short);
    }
    info := Some(FileInfo(name.value, s[11] / 0x10 % 2 == 1, Size(s), start));
  }

  /** The body of the loop in `list_directory_entries`, for a slot that is not the end marker. */
  method ProcessSlot(s: Slot, frags: seq<Fragment>, checksum: Option<byte>, results: seq<FileInfo>)
    returns (frags': seq<Fragment>, checksum': Option<byte>, results': seq<FileInfo>)
    requires !IsEnd(s)
    ensures Pending(frags', checksum') == SCAN.next(s, Pending(frags, checksum))
    ensures results' == results + SCAN.emit(s, Pending(frags, checksum))
  {
    frags', checksum', results' := [], None, results;
    if s[0] == 0xE5 {
      return;
    }
    if s[11] == 0x0F {
      frags', checksum' := ProcessLfnEntry(s, frags, checksum);
    } else {
      var info := ProcessDataEntry(s, frags, checksum);
      if info.Some? {
        results' := results + [info.value];
      }
    }
  }

  /** `list_directory_entries` on the bytes of a cluster. */
  method ListEntries(data: seq<byte>) returns (results: seq<FileInfo>)
    ensures results == Listing(Slots(data))
  {
    results := [];
    var frags: seq<Fragment>, checksum: Option<byte> := [], None;
    var slots := Slots(data);
    var i := 0;
    while i < |slots|
      invariant 0 <= i <= |slots|
      invariant Listing(slots) == results + Scan(SCAN, slots[i..], Pending(frags, checksum))
    {
      if slots[i][0] == 0x00 {
        ScanEnded(SCAN, slots, i, Pending(frags, checksum));
        return;
      }
      ScanNext(SCAN, slots, i, Pending(frags, checksum), results);
      frags, checksum, results := ProcessSlot(slots[i], frags, checksum, results);
      i := i + 1;
    }
    ScanEnded(SCAN, slots, i, Pending(frags, checksum));
  }
}
