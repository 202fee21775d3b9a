/** Encoding of characters: UTF-8 is decoded exactly where it is the encoding of characters, and to these. */
module Unicode {
  import opened Bytes
  import opened Text

  /** A character: a code point that is not a surrogate. */
  predicate IsChar(c: nat) { c < 0xD800 || 0xE000 <= c < 0x11_0000 }

  predicate AllChars(cs: seq<nat>) {
    forall i :: 0 <= i < |cs| ==> IsChar(cs[i])
  }

  /** The bytes of a character: its bits, six to a continuation byte, behind a first byte that tells their number. */
  function Utf8(c: nat): seq<byte>
    requires IsChar(c)
  {
    if c < 0x80 then [c]
    else if c < 0x800 then [0xC0 + c / 0x40, 0x80 + c % 0x40]
    else if c < 0x1_0000 then [0xE0 + c / 0x1000, 0x80 + c / 0x40 % 0x40, 0x80 + c % 0x40]
    else [0xF0 + c / 0x4_0000, 0x80 + c / 0x1000 % 0x40, 0x80 + c / 0x40 % 0x40, 0x80 + c % 0x40]
  }

  /** The units of a character: one, or a high and a low surrogate with ten bits each. */
  function Utf16(c: nat): Text
    requires IsChar(c)
  {
    if c < 0x1_0000 then [c] else [0xD7C0 + c / 0x400, 0xDC00 + c % 0x400]
  }

  function ToUtf8(cs: seq<nat>): seq<byte>
    requires AllChars(cs)
  {
    if cs == [] then [] else Utf8(cs[0]) + ToUtf8(cs[1..])
  }

  function ToUtf16(cs: seq<nat>): Text
    requires AllChars(cs)
  {
    if cs == [] then [] else Utf16(cs[0]) + ToUtf16(cs[1..])
  }

  // ----- one character -----

  /** The first character of its bytes followed by anything is decoded as itself. */
  lemma DecodeFirst(c: nat, rest: seq<byte>)
    requires IsChar(c)
    ensures Utf8(c) + rest != [] && DecodeOne(Utf8(c) + rest) == (|Utf8(c)|, c) && Utf16Of(c) == Utf16(c)
  {
    var b := Utf8(c) + rest;
    StartsWith(Utf8(c), rest);
    if c >= 0x1_0000 {
      DecodeFour(c, b);
    } else if c >= 0x800 {
      DecodeThree(c, b);
    } else if c >= 0x80 {
      DecodeTwo(c, b);
    }
  }

  lemma StartsWith(a: seq<byte>, rest: seq<byte>)
    ensures |a + rest| >= |a| && forall i :: 0 <= i < |a| ==> (a + rest)[i] == a[i]
  {
  }

  lemma DecodeTwo(c: nat, b: seq<byte>)
    requires 0x80 <= c < 0x800 && |b| >= 2 && b[0] == 0xC0 + c / 0x40 && b[1] == 0x80 + c % 0x40
    ensures DecodeOne(b) == (2, c)
  {
  }

  lemma DecodeThree(c: nat, b: seq<byte>)
    requires 0x800 <= c < 0x1_0000 && IsChar(c) && |b| >= 3
    requires b[0] == 0xE0 + c / 0x1000 && b[1] == 0x80 + c / 0x40 % 0x40 && b[2] == 0x80 + c % 0x40
    ensures DecodeOne(b) == (3, c)
  {
    ThreeBytes(c);
  }

  lemma DecodeFour(c: nat, b: seq<byte>)
    requires 0x1_0000 <= c < 0x11_0000 && |b| >= 4
    requires b[0] == 0xF0 + c / 0x4_0000 && b[1] == 0x80 + c / 0x1000 % 0x40
    requires b[2] == 0x80 + c / 0x40 % 0x40 && b[3] == 0x80 + c % 0x40
    ensures DecodeOne(b) == (4, c)
  {
    FourBytes(c);
  }

  lemma ThreeBytes(c: nat)
    ensures c == c / 0x1000 * 0x1000 + c / 0x40 % 0x40 * 0x40 + c % 0x40
  {
    assert c / 0x40 / 0x40 == c / 0x1000;
  }

  lemma FourBytes(c: nat)
    ensures c == c / 0x4_0000 * 0x4_0000 + c / 0x1000 % 0x40 * 0x1000 + c / 0x40 % 0x40 * 0x40 + c % 0x40
  {
    ThreeBytes(c);
    assert c / 0x1000 / 0x40 == c / 0x4_0000;
  }

  /** Bytes that decode start with the bytes of the character they decode to. */
  lemma DecodedIsChar(b: seq<byte>)
    requires b != [] && DecodeOne(b).0 > 0
    ensures var (len, c) := DecodeOne(b); IsChar(c) && b[..len] == Utf8(c) && len == |Utf8(c)|
  {
    if DecodeOne(b).0 == 1 {
      assert b[..1] == [b[0]];
    } else if DecodeOne(b).0 == 2 {
      assert b[..2] == [b[0], b[1]];
    } else if DecodeOne(b).0 == 3 {
      Decoded3(b);
    } else {
      Decoded4(b);
    }
  }

  lemma Decoded3(b: seq<byte>)
    requires b != [] && DecodeOne(b).0 == 3
    ensures var c := DecodeOne(b).1; IsChar(c) && 0x800 <= c < 0x1_0000 && b[..3] == Utf8(c)
  {
    Digits3(b[0] as int - 0xE0, b[1] as int - 0x80, b[2] as int - 0x80);
    assert b[..3] == [b[0], b[1], b[2]];
  }

  lemma Decoded4(b: seq<byte>)
    requires b != [] && DecodeOne(b).0 > 3
    ensures var c := DecodeOne(b).1; IsChar(c) && 0x1_0000 <= c && DecodeOne(b).0 == 4 && b[..4] == Utf8(c)
  {
    Digits4(b[0] as int - 0xF0, b[1] as int - 0x80, b[2] as int - 0x80, b[3] as int - 0x80);
    assert b[..4] == [b[0], b[1], b[2], b[3]];
  }

  lemma Digits3(x: nat, y: nat, z: nat)
    requires y < 0x40 && z < 0x40
    ensures var c := x * 0x1000 + y * 0x40 + z; c / 0x1000 == x && c / 0x40 % 0x40 == y && c % 0x40 == z
  {
    var c := x * 0x1000 + y * 0x40 + z;
    assert c / 0x40 == x * 0x40 + y;
  }

  lemma Digits4(w: nat, x: nat, y: nat, z: nat)
    requires x < 0x40 && y < 0x40 && z < 0x40
    ensures var c := (w * 0x40 + x) * 0x1000 + (y * 0x40 + z);
            c / 0x4_0000 == w && c / 0x1000 % 0x40 == x && c / 0x40 % 0x40 == y && c % 0x40 == z
  {
    var c := (w * 0x40 + x) * 0x1000 + (y * 0x40 + z);
    Digits3(w * 0x40 + x, y, z);
    assert c / 0x1000 == w * 0x40 + x && c / 0x1000 / 0x40 == c / 0x4_0000;
  }

  // ----- texts -----

  /** The UTF-8 bytes of any characters decode to their UTF-16 units. */
  lemma {:induction false} Utf8RoundTrip(cs: seq<nat>)
    requires AllChars(cs)
    ensures FromUtf8(ToUtf8(cs)) == Some(ToUtf16(cs))
  {
    if cs != [] {
      var rest := ToUtf8(cs[1..]);
      Utf8RoundTrip(cs[1..]);
      DecodeFirst(cs[0], rest);
      assert ToUtf8(cs)[|Utf8(cs[0])|..] == rest;
    }
  }

  /** Bytes decode only if they are the UTF-8 bytes of some characters. */
  lemma {:induction false} Utf8Only(b: seq<byte>) returns (cs: seq<nat>)
    requires FromUtf8(b).Some?
    ensures AllChars(cs) && b == ToUtf8(cs)
    decreases |b|
  {
    cs := [];
    if b != [] {
      DecodedIsChar(b);
      var more := Utf8Only(b[DecodeOne(b).0..]);
      cs := [DecodeOne(b).1] + more;
      CharThen(DecodeOne(b).1, more);
      assert b == b[..DecodeOne(b).0] + b[DecodeOne(b).0..];
    }
  }

  lemma CharThen(c: nat, cs: seq<nat>)
    requires IsChar(c) && AllChars(cs)
    ensures AllChars([c] + cs) && ToUtf8([c] + cs) == Utf8(c) + ToUtf8(cs)
  {
    assert ([c] + cs)[1..] == cs;
  }

  /** The UTF-16 units of any characters are accepted. */
  lemma {:induction false} Utf16Accepted(cs: seq<nat>)
    requires AllChars(cs)
    ensures ValidUtf16(ToUtf16(cs))
  {
    if cs != [] {
      Utf16Accepted(cs[1..]);
      var t := ToUtf16(cs);
      assert t[|Utf16(cs[0])|..] == ToUtf16(cs[1..]);
    }
  }

  /** Units are accepted only if they are the UTF-16 units of some characters. */
  lemma {:induction false} Utf16Only(t: Text) returns (cs: seq<nat>)
    requires ValidUtf16(t)
    ensures AllChars(cs) && t == ToUtf16(cs)
    decreases |t|
  {
    cs := [];
    if t != [] {
      var pair := 0xD800 <= t[0] < 0xDC00;
      var n := if pair then 2 else 1;
      var c := if pair then 0x1_0000 + (t[0] as int - 0xD800) * 0x400 + (t[1] as int - 0xDC00) else t[0] as int;
      var more := Utf16Only(t[n..]);
      cs := [c] + more;
      assert cs[1..] == more && t == t[..n] + t[n..];
      assert Utf16(c) == t[..n];
    }
  }
}
