/** 8.3 short names: formatting a file name into 11 bytes, printing 11 bytes as text, and
    the checksum that ties long-name fragments to a short name. */
module ShortName {
  import opened Bytes
  import opened Text

  /** The first `n` bytes, padded with spaces. */
  function Pad(b: seq<byte>, n: nat): (r: seq<byte>)
    ensures |r| == n
  {
    seq(n, i requires 0 <= i < n => if i < |b| then b[i] as int else SPACE as int)
  }

  /** The UTF-8 bytes of `to_uppercase` for text outside ASCII: the library's table, about which nothing
      is assumed. */
  const UPPERCASE: Text -> seq<byte>

  /** The UTF-8 bytes of `to_uppercase`. */
  function UpperBytes(t: Text): seq<byte> { if Ascii(t) then UpperText(t) else UPPERCASE(t) }

  /** `format_to_8_3`: the 11 bytes of a name, or `None` when it has no base. */
  function FormatTo83(name: Text): (r: Option<seq<byte>>)
    ensures r.Some? ==> |r.value| == 11
  {
    var parts := Split(name, DOT);
    if parts[0] == [] then None
    else
      var ext := if |parts| > 1 then parts[1] else [];
      Some(Pad(UpperBytes(parts[0]), 8) + Pad(UpperBytes(ext), 3))
  }

  lemma SplitAscii(name: Text)
    requires Ascii(name)
    ensures forall k :: 0 <= k < |Split(name, DOT)| ==> Ascii(Split(name, DOT)[k])
  {
    SplitPieces(name, DOT);
    forall k | 0 <= k < |Split(name, DOT)|
      ensures Ascii(Split(name, DOT)[k])
    {
      var p := Split(name, DOT)[k];
      forall i | 0 <= i < |p|
        ensures p[i] < 0x80
      {
        assert p[i] in name;
      }
    }
  }

  /** Removes trailing spaces. */
  function Trim(b: seq<byte>): (r: seq<byte>)
    ensures r <= b
    ensures r != [] ==> r[|r| - 1] != SPACE
    ensures forall i :: |r| <= i < |b| ==> b[i] == SPACE
  {
    if b != [] && b[|b| - 1] == SPACE then Trim(b[..|b| - 1]) else b
  }

  function DecodeShort(b: seq<byte>): Text {
    match FromUtf8(b)
    case Some(t) => t
    case None => []
  }

  /** The text that `short_name_to_string` shows for 11 bytes. */
  function Print(name: seq<byte>): Text
    requires |name| == 11
  {
    WithExtension(DecodeShort(Trim(name[..8])), DecodeShort(Trim(name[8..])))
  }

  function WithExtension(base: Text, ext: Text): Text {
    if ext == [] then base else base + [DOT] + ext
  }

  /** The loop that drops the padding of one part, and its decoding. */
  method PartToString(part: seq<byte>) returns (r: Text)
    ensures r == DecodeShort(Trim(part))
  {
    var end := |part|;
    assert part[..end] == part;
    while end > 0 && part[end - 1] == SPACE
      invariant 0 <= end <= |part|
      invariant Trim(part) == Trim(part[..end])
    {
      assert part[..end][..end - 1] == part[..end - 1];
      end := end - 1;
    }
    r := DecodeShort(part[..end]);
  }

  method ShortNameToString(name: seq<byte>) returns (r: Text)
    requires |name| == 11
    ensures r == Print(name)
  {
    var nameStr := PartToString(name[..8]);
    var extStr := PartToString(name[8..]);
    if extStr == [] {
      r := nameStr;
    } else {
      r := nameStr + [DOT];
      r := r + extStr;
    }
  }

  /** Rotates right by one bit. */
  function Rotate(sum: byte): byte { (sum as int / 2 + (sum as int % 2) * 0x80) % 0x100 }

  /** One round of the checksum: rotate, then add with wrap-around. */
  function ChecksumStep(sum: byte, b: byte): byte { (Rotate(sum) as int + b as int) % 0x100 }

  function Checksum(name: seq<byte>): byte {
    if name == [] then 0 else ChecksumStep(Checksum(name[..|name| - 1]), name[|name| - 1])
  }

  lemma ChecksumNext(name: seq<byte>, i: nat)
    requires i < |name|
    ensures Checksum(name[..i + 1]) == ChecksumStep(Checksum(name[..i]), name[i])
  {
    assert name[..i + 1][..i] == name[..i];
  }

  /** One round of the loop of `lfn_checksum`. */
  method ChecksumRound(sum: byte, b: byte) returns (r: byte)
    ensures r == ChecksumStep(sum, b)
  {
    var carry: byte := (sum as int % 2) * 0x80;
    var rotated: byte := (sum as int / 2 + carry as int) % 0x100;
    r := (rotated as int + b as int) % 0x100;
  }

  method LfnChecksum(name: seq<byte>) returns (sum: byte)
    requires |name| == 11
    ensures sum == Checksum(name)
  {
    sum := 0;
    for i := 0 to |name|
      invariant sum == Checksum(name[..i])
    {
      ChecksumNext(name, i);
      sum := ChecksumRound(sum, name[i]);
    }
    assert name[..|name|] == name;
  }

  /** Rotating exchanges the lowest bit and the seven above it. */
  lemma RotateHalves(s: byte) returns (q: nat, r: nat)
    ensures q < 0x80 && r < 2 && s == 2 * q + r && Rotate(s) == q + 0x80 * r
  {
    q, r := s as int / 2, s as int % 2;
  }

  lemma RotateInjective(s: byte, t: byte)
    ensures Rotate(s) == Rotate(t) ==> s == t
  {
    var q, r := RotateHalves(s);
    var q', r' := RotateHalves(t);
  }

  lemma WrapInjective(x: byte, b: byte, y: byte, c: byte)
    requires (x as int + b as int) % 0x100 == (y as int + c as int) % 0x100
    ensures x == y <==> b == c
  {
  }

  /** A round loses nothing of a difference in either the sum or the byte. */
  lemma ChecksumStepDiffers(s: byte, b: byte, t: byte, c: byte)
    requires (s == t) != (b == c)
    ensures ChecksumStep(s, b) != ChecksumStep(t, c)
  {
    RotateInjective(s, t);
    if ChecksumStep(s, b) == ChecksumStep(t, c) {
      WrapInjective(Rotate(s), b, Rotate(t), c);
    }
  }

  /** The checksum detects every change of a single byte. */
  lemma {:induction false} ChecksumDetects(a: seq<byte>, b: seq<byte>, i: nat)
    requires |a| == |b| && i < |a| && a[i] != b[i] && forall j :: 0 <= j < |a| && j != i ==> a[j] == b[j]
    ensures Checksum(a) != Checksum(b)
  {
    var n := |a| - 1;
    if i < n {
      ChecksumDetects(a[..n], b[..n], i);
    } else {
      assert a[..n] == b[..n];
    }
    ChecksumStepDiffers(Checksum(a[..n]), a[n], Checksum(b[..n]), b[n]);
  }

  /** A round by hand: `low` is the bit that goes to the top, `wraps` tells whether the addition overflows. */
  predicate IsRound(sum: int, b: int, next: int, low: int, wraps: int) {
    0 <= low <= 1 && 0 <= wraps <= 1 && sum == 2 * (next + 0x100 * wraps - 0x80 * low - b) + low
  }

  lemma RoundIs(sum: byte, b: byte, next: byte, low: int, wraps: int)
    requires IsRound(sum, b, next, low, wraps)
    ensures ChecksumStep(sum, b) == next
  {
    var q, r := RotateHalves(sum);
    assert q == next as int + 0x100 * wraps - 0x80 * low - b as int && r == low;
    Wrapped(Rotate(sum) as int + b as int, next, wraps);
  }

  lemma Wrapped(x: int, next: byte, wraps: int)
    requires 0 <= wraps <= 1 && x == next as int + 0x100 * wraps
    ensures x % 0x100 == next as int
  {
  }

  /** A checksum by hand: rounds from 0 on. */
  lemma {:induction false} RoundsTo(name: seq<byte>, sums: seq<byte>, lows: seq<int>, wraps: seq<int>)
    requires |sums| == |name| + 1 && |lows| == |wraps| == |name| && sums[0] == 0
    requires forall i :: 0 <= i < |name| ==> IsRound(sums[i], name[i], sums[i + 1], lows[i], wraps[i])
    ensures Checksum(name) == sums[|name|]
  {
    if name != [] {
      var n := |name| - 1;
      RoundsTo(name[..n], sums[..n + 1], lows[..n], wraps[..n]);
      RoundIs(sums[n], name[n], sums[n + 1], lows[n], wraps[n]);
    }
  }

  /** The checksum of `TEST    TXT`. */
  lemma ChecksumOfTest(name: seq<byte>)
    requires |name| == 11 && name[0] == 0x54 && name[1] == 0x45 && name[2] == 0x53 && name[3] == 0x54
    requires name[4] == 0x20 && name[5] == 0x20 && name[6] == 0x20 && name[7] == 0x20
    requires name[8] == 0x54 && name[9] == 0x58 && name[10] == 0x54
    ensures Checksum(name) == 0x8F
  {
    RoundsTo(name, [0x00, 0x54, 0x6F, 0x0A, 0x59, 0xCC, 0x86, 0x63, 0xD1, 0x3C, 0x76, 0x8F],
             [0, 0, 1, 0, 1, 0, 0, 1, 1, 0, 0], [0, 0, 1, 0, 0, 0, 0, 0, 1, 0, 0]);
  }

  /** ASCII bytes with no dot and no lower-case letter. */
  predicate IsPart(b: seq<byte>) {
    forall i :: 0 <= i < |b| ==> b[i] < 0x80 && b[i] != DOT && Upper(b[i]) == b[i]
  }

  /** What formatting can produce from ASCII: eleven such bytes. */
  predicate IsShortName(f: seq<byte>) { |f| == 11 && IsPart(f) }

  predicate AllSpaces(b: seq<byte>) {
    forall i :: 0 <= i < |b| ==> b[i] == SPACE
  }

  lemma FormatIsShortName(name: Text)
    requires Ascii(name) && FormatTo83(name).Some?
    ensures IsShortName(FormatTo83(name).value)
    ensures name != [] && FormatTo83(name).value[0] == Upper(name[0])
  {
    SplitAscii(name);
    SplitPieces(name, DOT);
    var parts := Split(name, DOT);
    SplitHead(name, DOT);
    var f := FormatTo83(name).value;
    forall i | 0 <= i < 11
      ensures f[i] < 0x80 && f[i] != DOT && Upper(f[i]) == f[i]
    {
      var part, k := if i < 8 then parts[0] else if |parts| > 1 then parts[1] else [], if i < 8 then i else i - 8;
      assert f[i] == if k < |part| then Upper(part[k]) else SPACE;
    }
  }

  // ----- the bytes of a formatted name -----

  /** The first dot from `i` on, or the end. */
  function DotFrom(name: Text, i: nat): (d: nat)
    requires i <= |name|
    ensures i <= d <= |name| && (d < |name| ==> name[d] == 0x2E) && forall k :: i <= k < d ==> name[k] != 0x2E
    decreases |name| - i
  {
    if i == |name| || name[i] == 0x2E then i else DotFrom(name, i + 1)
  }

  function Capital(c: u16): u16 { if 'a' as int <= c <= 'z' as int then c as int - 32 else c }

  lemma {:induction false} SplitAtDot(name: Text, i: nat)
    requires i <= |name|
    ensures var d := DotFrom(name, i);
            && Split(name[i..], DOT)[0] == name[i..d]
            && (d < |name| ==> Split(name[i..], DOT)[1..] == Split(name[d + 1..], DOT))
            && (d == |name| ==> |Split(name[i..], DOT)| == 1)
    decreases |name| - i
  {
    var d := DotFrom(name, i);
    if i < |name| {
      assert name[i..][1..] == name[i + 1..] && name[i..][0] == name[i];
      if name[i] != DOT {
        SplitAtDot(name, i + 1);
        assert name[i..d] == [name[i]] + name[i + 1..d];
      }
    }
  }

  /** The first `n` characters from `lo` up to `hi`, as capitals, filled up with spaces. */
  function Field(name: Text, lo: nat, hi: nat, n: nat): (r: seq<u16>)
    requires hi <= |name|
    ensures |r| == n && forall i :: 0 <= i < n ==> r[i] == if lo + i < hi then Capital(name[lo + i]) else 0x20
  {
    seq<u16>(n, i requires 0 <= i < n => (if lo + i < hi then Capital(name[lo + i]) as int else 0x20) as u16)
  }

  lemma PadIsField(name: Text, lo: nat, hi: nat, n: nat)
    requires Ascii(name) && lo <= hi <= |name|
    ensures Pad(UpperBytes(name[lo..hi]), n) == Field(name, lo, hi, n)
  {
    var part := name[lo..hi];
    assert forall i :: 0 <= i < |part| ==> part[i] == name[lo + i];
    assert Ascii(part);
  }

  /** Where the extension of a name ends: at the second dot. */
  function ExtensionEnd(name: Text): (e: nat)
    ensures e <= |name|
  {
    var d := DotFrom(name, 0);
    if d < |name| then DotFrom(name, d + 1) else d
  }

  /** The short name, byte by byte: the first eight characters before the first dot and the first three between it
      and the second one, as capitals, filled up with spaces. A name without a character before the first dot has
      none. */
  lemma FormatExact(name: Text)
    requires Ascii(name)
    ensures FormatTo83(name) == if name == [] || name[0] == 0x2E then None
                                else Some(Field(name, 0, DotFrom(name, 0), 8)
                                          + Field(name, DotFrom(name, 0) + 1, ExtensionEnd(name), 3))
  {
    BaseAndExtension(name);
    FieldsOf(name, DotFrom(name, 0), ExtensionEnd(name));
  }

  /** The two fields of the short name, from the text up to the first dot and from there to the second. */
  lemma FieldsOf(name: Text, d: nat, e: nat)
    requires Ascii(name) && d <= e <= |name| && (d < |name| ==> d < e)
    ensures Pad(UpperBytes(name[0..d]), 8) == Field(name, 0, d, 8)
    ensures Pad(UpperBytes(if d < |name| then name[d + 1..e] else []), 3) == Field(name, d + 1, e, 3)
  {
    PadIsField(name, 0, d, 8);
    if d < |name| {
      PadIsField(name, d + 1, e, 3);
    } else {
      assert UpperBytes([]) == [];
    }
  }

  /** What is formatted: the text up to the first dot, and the text from there to the second. */
  lemma BaseAndExtension(name: Text)
    ensures var d, parts := DotFrom(name, 0), Split(name, DOT);
            && parts[0] == name[0..d]
            && (|parts| > 1 <==> d < |name|)
            && (d < |name| ==> parts[1] == name[d + 1..DotFrom(name, d + 1)])
  {
    var d := DotFrom(name, 0);
    SplitAtDot(name, 0);
    assert name[0..] == name;
    if d < |name| {
      SplitAtDot(name, d + 1);
      assert Split(name, DOT)[1] == Split(name, DOT)[1..][0];
    }
  }

  lemma SplitHead<T>(a: seq<T>, sep: T)
    ensures Split(a, sep)[0] != [] ==> a != [] && Split(a, sep)[0][0] == a[0]
  {
  }

  lemma FormattedNonEmpty(name: Text)
    requires FormatTo83(name).Some?
    ensures name != []
  {
    SplitHead(name, DOT);
  }

  lemma TrimIsPart(b: seq<byte>)
    requires IsPart(b)
    ensures IsPart(Trim(b)) && Ascii(Trim(b)) && DOT !in Trim(b) && UpperText(Trim(b)) == Trim(b)
  {
    var t := Trim(b);
    assert forall i :: 0 <= i < |t| ==> t[i] == b[i];
  }

  lemma PadTrim(b: seq<byte>)
    ensures Pad(Trim(b), |b|) == b
  {
    assert forall i :: 0 <= i < |Trim(b)| ==> Trim(b)[i] == b[i];
  }

  /** The decoded, trimmed part of a short name is the trimmed bytes themselves; padding gives the part back. */
  lemma TrimmedPart(b: seq<byte>)
    requires IsPart(b)
    ensures DecodeShort(Trim(b)) == Trim(b) && Ascii(Trim(b)) && DOT !in Trim(b)
    ensures Pad(UpperBytes(Trim(b)), |b|) == b
    ensures Trim(b) != [] ==> CanonicalPart(Trim(b), |b|)
  {
    TrimIsPart(b);
    FromUtf8Ascii(Trim(b));
    PadTrim(b);
  }

  lemma TrimEmpty(b: seq<byte>)
    ensures Trim(b) == [] <==> AllSpaces(b)
  {
  }

  lemma SplitPrinted(base: Text, ext: Text)
    requires DOT !in base && DOT !in ext
    ensures Split(WithExtension(base, ext), DOT) == if ext == [] then [base] else [base, ext]
  {
    SplitWithout(base, DOT);
    SplitWithout(ext, DOT);
    SplitJoin(base, ext, DOT);
  }

  lemma AsciiExtension(base: Text, ext: Text)
    requires Ascii(base) && Ascii(ext)
    ensures Ascii(WithExtension(base, ext))
  {
  }

  /** Formatting a base and an extension. */
  lemma FormatParts(base: Text, ext: Text)
    requires DOT !in base && DOT !in ext
    ensures FormatTo83(WithExtension(base, ext))
         == if base == [] then None else Some(Pad(UpperBytes(base), 8) + Pad(UpperBytes(ext), 3))
  {
    SplitPrinted(base, ext);
  }

  /** Formatting what is printed for two parts. */
  lemma FormatPrintParts(b: seq<byte>, e: seq<byte>)
    requires IsPart(b) && IsPart(e) && |b| == 8 && |e| == 3
    ensures FormatTo83(WithExtension(Trim(b), Trim(e))) == if AllSpaces(b) then None else Some(b + e)
  {
    TrimmedPart(b);
    TrimmedPart(e);
    FormatParts(Trim(b), Trim(e));
    TrimEmpty(b);
  }

  lemma PrintParts(f: seq<byte>)
    requires IsShortName(f)
    ensures IsPart(f[..8]) && IsPart(f[8..]) && f == f[..8] + f[8..]
    ensures Print(f) == WithExtension(Trim(f[..8]), Trim(f[8..])) && Ascii(Print(f))
  {
    TrimmedPart(f[..8]);
    TrimmedPart(f[8..]);
    AsciiExtension(Trim(f[..8]), Trim(f[8..]));
  }

  lemma {:induction false} TrimIs(b: seq<byte>, n: nat)
    requires n <= |b| && (n == 0 || b[n - 1] != SPACE) && forall i :: n <= i < |b| ==> b[i] == SPACE
    ensures Trim(b) == b[..n]
  {
    if n < |b| {
      TrimIs(b[..|b| - 1], n);
    }
  }

  /** The printed form of any 11 bytes: the first eight and the last three without the spaces at their end, each as
      text if it is UTF-8 and as nothing otherwise, with a dot between them if the second is not empty. */
  lemma PrintExact(f: seq<byte>, n: nat, m: nat)
    requires |f| == 11 && n <= 8 && m <= 3
    requires (n == 0 || f[n - 1] != 0x20) && forall i :: n <= i < 8 ==> f[i] == 0x20
    requires (m == 0 || f[8 + m - 1] != 0x20) && forall i :: 8 + m <= i < 11 ==> f[i] == 0x20
    ensures var base := if FromUtf8(f[..n]).Some? then FromUtf8(f[..n]).value else [];
            var ext := if FromUtf8(f[8..8 + m]).Some? then FromUtf8(f[8..8 + m]).value else [];
            Print(f) == if ext == [] then base else base + [0x2E] + ext
  {
    TrimIs(f[..8], n);
    TrimIs(f[8..], m);
    assert f[..8][..n] == f[..n] && f[8..][..m] == f[8..8 + m];
  }

  /** Formatting the printed form gives back the same 11 bytes, exactly when the base is not blank. */
  lemma FormatPrint(f: seq<byte>)
    requires IsShortName(f)
    ensures Ascii(Print(f))
    ensures FormatTo83(Print(f)) == Some(f) <==> !AllSpaces(f[..8])
    ensures FormatTo83(Print(f)).Some? <==> !AllSpaces(f[..8])
  {
    PrintParts(f);
    FormatPrintParts(f[..8], f[8..]);
  }

  /** The name of one space is accepted, but its printed form is not. */
  lemma BlankUnstable()
    ensures var f := FormatTo83([SPACE]);
            f.Some? && |f.value| == 11 && Ascii(Print(f.value)) && FormatTo83(Print(f.value)) != f
  {
    SplitWithout([SPACE], DOT);
    FormatIsShortName([SPACE]);
    var f := FormatTo83([SPACE]).value;
    assert f[0] == Upper(SPACE);
    FormatPrint(f);
  }

  /** Some of the first eight units is not a space. */
  predicate HasBase(t: Text) { exists i :: 0 <= i < |t| && i < 8 && t[i] != SPACE }

  lemma BlankBase(base: Text)
    requires Ascii(base)
    ensures AllSpaces(Pad(UpperBytes(base), 8)) <==> !HasBase(base)
  {
    var b := Pad(UpperBytes(base), 8);
    assert forall i :: 0 <= i < |base| && i < 8 ==> b[i] == Upper(base[i]);
    if HasBase(base) {
      var i :| 0 <= i < |base| && i < 8 && base[i] != SPACE;
      assert b[i] != SPACE;
    }
  }

  /** 8.3 conversion is stable, so that formatting the printed form of the result gives the result again, exactly
      if the part before the first dot has a non-space among its first eight characters. */
  lemma FormatStable(name: Text)
    requires Ascii(name) && FormatTo83(name).Some?
    ensures var f := FormatTo83(name).value;
            Ascii(Print(f)) && (FormatTo83(Print(f)) == Some(f) <==> HasBase(Split(name, DOT)[0]))
  {
    var f := FormatTo83(name).value;
    FormatIsShortName(name);
    FormatPrint(f);
    SplitAscii(name);
    BlankBase(Split(name, DOT)[0]);
    assert f[..8] == Pad(UpperBytes(Split(name, DOT)[0]), 8);
  }

  /** The name is listed as it was given. */
  predicate PrintsBack(name: Text) { FormatTo83(name).Some? && Print(FormatTo83(name).value) == name }

  predicate CanonicalPart(t: Text, max: nat) {
    && 1 <= |t| <= max
    && t[|t| - 1] != SPACE
    && UpperText(t) == t
  }

  /** An upper-case `base` or `base.ext` within 8+3 whose parts do not end in a space. */
  predicate Canonical(name: Text) {
    var parts := Split(name, DOT);
    && |parts| <= 2
    && CanonicalPart(parts[0], 8)
    && (|parts| == 2 ==> CanonicalPart(parts[1], 3))
  }

  lemma {:induction false} SplitOne<T>(a: seq<T>, sep: T)
    ensures |Split(a, sep)| == 1 ==> Split(a, sep)[0] == a
    ensures |Split(a, sep)| == 2 ==> a == Split(a, sep)[0] + [sep] + Split(a, sep)[1]
  {
    if a != [] {
      SplitOne(a[1..], sep);
      assert a == [a[0]] + a[1..];
    }
  }

  /** Trimming the padding of a part that fits and does not end in a space. */
  lemma TrimPad(t: Text, n: nat)
    requires Ascii(t) && |t| <= n && (t != [] ==> t[|t| - 1] != SPACE)
    ensures Trim(Pad(t, n)) == t
  {
    var r := Trim(Pad(t, n));
    assert |r| > |t| ==> r[|r| - 1] == Pad(t, n)[|r| - 1];
    assert t != [] ==> Pad(t, n)[|t| - 1] != SPACE;
  }

  /** Printing the padded form of parts that fit and do not end in a space. */
  lemma PrintPadded(base: Text, ext: Text)
    requires Ascii(base) && |base| <= 8 && (base != [] ==> base[|base| - 1] != SPACE)
    requires Ascii(ext) && |ext| <= 3 && (ext != [] ==> ext[|ext| - 1] != SPACE)
    ensures Print(Pad(base, 8) + Pad(ext, 3)) == WithExtension(base, ext)
  {
    var f := Pad(base, 8) + Pad(ext, 3);
    assert f[..8] == Pad(base, 8) && f[8..] == Pad(ext, 3);
    TrimPad(base, 8);
    TrimPad(ext, 3);
    FromUtf8Ascii(base);
    FromUtf8Ascii(ext);
  }

  lemma CanonicalPrints(name: Text)
    requires Ascii(name) && Canonical(name)
    ensures PrintsBack(name)
  {
    SplitAscii(name);
    var parts := Split(name, DOT);
    var ext := if |parts| == 2 then parts[1] else [];
    assert UpperBytes(parts[0]) == parts[0] && UpperBytes(ext) == ext;
    PrintPadded(parts[0], ext);
    SplitOne(name, DOT);
  }

  lemma CanonicalParts(base: Text, ext: Text)
    requires DOT !in base && DOT !in ext && CanonicalPart(base, 8) && (ext != [] ==> CanonicalPart(ext, 3))
    ensures Canonical(WithExtension(base, ext))
  {
    SplitPrinted(base, ext);
  }

  lemma PrintedCanonical(f: seq<byte>)
    requires IsShortName(f) && !AllSpaces(f[..8])
    ensures Canonical(Print(f))
  {
    PrintParts(f);
    TrimEmpty(f[..8]);
    TrimmedPart(f[..8]);
    TrimmedPart(f[8..]);
    CanonicalParts(Trim(f[..8]), Trim(f[8..]));
  }

  lemma PrintedIsCanonical(name: Text)
    requires Ascii(name) && PrintsBack(name)
    ensures Canonical(name)
  {
    var f := FormatTo83(name).value;
    FormatIsShortName(name);
    FormatPrint(f);
    PrintedCanonical(f);
  }

  /** The names that print back unchanged are exactly the canonical ones. */
  lemma PrintFormat(name: Text)
    requires Ascii(name)
    ensures PrintsBack(name) <==> Canonical(name)
  {
    if Canonical(name) {
      CanonicalPrints(name);
    }
    if PrintsBack(name) {
      PrintedIsCanonical(name);
    }
  }
}
