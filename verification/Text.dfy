/** Text as UTF-16 code units. A Rust string has exactly one UTF-16 encoding, so two
    strings are equal exactly when their unit sequences are. */
module Text {
  import opened Bytes

  type Text = seq<u16>

  const SLASH: u16 := 0x2F
  const DOT: u16 := 0x2E
  const SPACE: u16 := 0x20
  const DOT_NAME: Text := [DOT]
  const DOT_DOT_NAME: Text := [DOT, DOT]

  predicate Ascii(t: Text) {
    forall i :: 0 <= i < |t| ==> t[i] < 0x80
  }

  function Upper(c: u16): u16 {
    if 0x61 <= c <= 0x7A then (c as int - 0x20) else c
  }

  /** `to_uppercase` on ASCII text. */
  function UpperText(t: Text): (r: Text)
    ensures |r| == |t|
    ensures forall i :: 0 <= i < |t| ==> r[i] == Upper(t[i])
    ensures Ascii(t) ==> Ascii(r)
  {
    seq(|t|, i requires 0 <= i < |t| => Upper(t[i]))
  }

  /** `str::split` on a single character: the pieces between separators, empty ones included. */
  function Split<T(==)>(t: seq<T>, sep: T): (r: seq<seq<T>>)
    ensures |r| >= 1
  {
    if t == [] then [[]] else SplitStep(t[0], Split(t[1..], sep), sep)
  }

  function SplitStep<T(==)>(x: T, rest: seq<seq<T>>, sep: T): (r: seq<seq<T>>)
    requires |rest| >= 1
    ensures |r| >= 1
  {
    if x == sep then [[]] + rest else [[x] + rest[0]] + rest[1..]
  }

  function NonEmpty<T(==)>(ts: seq<seq<T>>): seq<seq<T>> {
    if ts == [] then [] else Keep(ts[0]) + NonEmpty(ts[1..])
  }

  function Keep<T(==)>(t: seq<T>): seq<seq<T>> {
    if t == [] then [] else [t]
  }

  lemma SplitStepJoin<T>(x: T, rest: seq<seq<T>>, more: seq<seq<T>>, sep: T)
    requires |rest| >= 1
    ensures SplitStep(x, rest + more, sep) == SplitStep(x, rest, sep) + more
  {
  }

  /** Splitting at a separator splits each side. */
  lemma {:induction false} SplitJoin<T>(a: seq<T>, b: seq<T>, sep: T)
    ensures Split(a + [sep] + b, sep) == Split(a, sep) + Split(b, sep)
  {
    var whole := a + [sep] + b;
    if a == [] {
      assert whole[1..] == b;
    } else {
      SplitJoin(a[1..], b, sep);
      assert whole[1..] == a[1..] + [sep] + b;
      SplitStepJoin(a[0], Split(a[1..], sep), Split(b, sep), sep);
    }
  }

  lemma {:induction false} SplitWithout<T>(a: seq<T>, sep: T)
    requires sep !in a
    ensures Split(a, sep) == [a]
  {
    if a != [] {
      SplitWithout(a[1..], sep);
      assert [a[0]] + a[1..] == a;
    }
  }

  /** No piece contains the separator, and pieces consist of elements of the text. */
  lemma {:induction false} SplitPieces<T>(a: seq<T>, sep: T)
    ensures forall k :: 0 <= k < |Split(a, sep)| ==> sep !in Split(a, sep)[k]
    ensures forall k :: 0 <= k < |Split(a, sep)| ==> forall x :: x in Split(a, sep)[k] ==> x in a
  {
    if a != [] {
      SplitPieces(a[1..], sep);
    }
  }

  lemma {:induction false} NonEmptyJoin<T>(a: seq<seq<T>>, b: seq<seq<T>>)
    ensures NonEmpty(a + b) == NonEmpty(a) + NonEmpty(b)
  {
    if a == [] {
      assert a + b == b;
    } else {
      NonEmptyJoin(a[1..], b);
      assert (a + b)[1..] == a[1..] + b;
      ConcatAssoc(Keep(a[0]), NonEmpty(a[1..]), NonEmpty(b));
    }
  }

  predicate Continuation(b: byte) { 0x80 <= b < 0xC0 }

  /** The code point's UTF-16 units. */
  function Utf16Of(cp: nat): Text
    requires cp < 0x11_0000
  {
    if cp < 0x1_0000 then [cp]
    else [0xD800 + (cp - 0x1_0000) / 0x400, 0xDC00 + (cp - 0x1_0000) % 0x400]
  }

  /** `str::from_utf8`: the decoded text, or `None` for ill-formed bytes. */
  function FromUtf8(b: seq<byte>): Option<Text> {
    if b == [] then Some([])
    else
      var (len, cp) := DecodeOne(b);
      if len == 0 then None
      else match FromUtf8(b[len..])
        case None => None
        case Some(rest) => Some(Utf16Of(cp) + rest)
  }

  /** Length and value of the first code point; length 0 if it is ill-formed. */
  function DecodeOne(b: seq<byte>): (r: (nat, nat))
    requires b != []
    ensures r.0 <= |b| && r.1 < 0x11_0000
  {
    var b0 := b[0] as int;
    if b0 < 0x80 then (1, b0)
    else if 0xC2 <= b0 < 0xE0 && |b| >= 2 && Continuation(b[1]) then
      (2, (b0 - 0xC0) * 0x40 + (b[1] as int - 0x80))
    else if 0xE0 <= b0 < 0xF0 && |b| >= 3 && Continuation(b[1]) && Continuation(b[2]) then
      var cp := (b0 - 0xE0) * 0x1000 + (b[1] as int - 0x80) * 0x40 + (b[2] as int - 0x80);
      if cp < 0x800 || 0xD800 <= cp < 0xE000 then (0, 0) else (3, cp)
    else if 0xF0 <= b0 < 0xF5 && |b| >= 4 && Continuation(b[1]) && Continuation(b[2]) && Continuation(b[3]) then
      var high, low := (b0 - 0xF0) * 0x40 + (b[1] as int - 0x80), (b[2] as int - 0x80) * 0x40 + (b[3] as int - 0x80);
      var cp := high * 0x1000 + low;
      if cp < 0x1_0000 || cp >= 0x11_0000 then (0, 0) else (4, cp)
    else (0, 0)
  }

  lemma {:induction false} FromUtf8Ascii(b: seq<byte>)
    requires forall i :: 0 <= i < |b| ==> b[i] < 0x80
    ensures FromUtf8(b) == Some(b)
  {
    if b != [] {
      FromUtf8Ascii(b[1..]);
      assert [b[0]] + b[1..] == b;
    }
  }

  /** The first code point of well-formed bytes: its own bytes alone decode to it, and a shorter piece is
      ill-formed and ends before a continuation byte. */
  lemma DecodeCut(b: seq<byte>, n: nat)
    requires b != [] && DecodeOne(b).0 > 0 && 0 < n <= |b|
    ensures n >= DecodeOne(b).0 ==> DecodeOne(b[..n]) == DecodeOne(b)
    ensures n < DecodeOne(b).0 ==> DecodeOne(b[..n]).0 == 0 && Continuation(b[n])
    ensures !Continuation(b[0])
  {
  }

  /** Cutting well-formed bytes leaves them well-formed exactly if the cut is not before a continuation byte;
      then a prefix of the text is left. */
  lemma {:induction false} Utf8Cut(b: seq<byte>, n: nat)
    requires FromUtf8(b).Some? && n <= |b|
    ensures FromUtf8(b[..n]).Some? <==> n == |b| || !Continuation(b[n])
    ensures FromUtf8(b[..n]).Some? ==> FromUtf8(b[..n]).value <= FromUtf8(b).value
    decreases |b|
  {
    if b != [] {
      var len := DecodeOne(b).0;
      if n == 0 {
        DecodeCut(b, |b|);
      } else {
        DecodeCut(b, n);
        if n >= len {
          Utf8Cut(b[len..], n - len);
          assert b[..n][len..] == b[len..][..n - len];
          assert n < |b| ==> b[n] == b[len..][n - len];
        }
      }
    }
  }

  /** `String::from_utf16` succeeds: every surrogate is part of a high-low pair. */
  predicate ValidUtf16(t: Text) {
    if t == [] then true
    else if 0xD800 <= t[0] < 0xDC00 then |t| >= 2 && 0xDC00 <= t[1] < 0xE000 && ValidUtf16(t[2..])
    else !(0xDC00 <= t[0] < 0xE000) && ValidUtf16(t[1..])
  }
}
