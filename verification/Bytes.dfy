/** Machine integers, little-endian encodings and in-place slice updates. */
module Bytes {

  type byte = x: int | 0 <= x < 0x100
  type u16 = x: int | 0 <= x < 0x1_0000
  type u32 = x: int | 0 <= x < 0x1_0000_0000

  datatype Option<+T> = None | Some(value: T)

  datatype Result<+T, +E> = Ok(value: T) | Err(error: E)

  function Le16(v: u16): (s: seq<byte>)
    ensures |s| == 2
  {
    [v % 0x100, v / 0x100]
  }

  function FromLe16(s: seq<byte>): u16
    requires |s| == 2
  {
    s[0] as int + 0x100 * (s[1] as int)
  }

  function Le32(v: u32): (s: seq<byte>)
    ensures |s| == 4
  {
    [v % 0x100, v / 0x100 % 0x100, v / 0x1_0000 % 0x100, v / 0x100_0000]
  }

  function FromLe32(s: seq<byte>): u32
    requires |s| == 4
  {
    s[0] as int + 0x100 * (s[1] as int) + 0x1_0000 * (s[2] as int) + 0x100_0000 * (s[3] as int)
  }

  lemma Le32RoundTrip(v: u32)
    ensures FromLe32(Le32(v)) == v
  {
    assert v == 0x100 * (v / 0x100) + v % 0x100;
    assert v / 0x100 == 0x100 * (v / 0x1_0000) + v / 0x100 % 0x100;
    assert v / 0x1_0000 == 0x100 * (v / 0x100_0000) + v / 0x1_0000 % 0x100;
  }

  /** `s` with `part` copied over the elements starting at `at` (`copy_from_slice`). */
  function Splice<T>(s: seq<T>, at: nat, part: seq<T>): (r: seq<T>)
    requires at + |part| <= |s|
    ensures |r| == |s|
    ensures forall i :: at <= i < at + |part| ==> r[i] == part[i - at]
    ensures forall i :: 0 <= i < |s| && !(at <= i < at + |part|) ==> r[i] == s[i]
  {
    s[..at] + part + s[at + |part|..]
  }

  /** A slice that a splice does not touch. */
  lemma SpliceAway<T>(s: seq<T>, at: nat, part: seq<T>, lo: nat, hi: nat)
    requires at + |part| <= |s| && lo <= hi <= |s|
    requires hi <= at || at + |part| <= lo
    ensures Splice(s, at, part)[lo..hi] == s[lo..hi]
  {
    var r := Splice(s, at, part);
    assert forall i :: 0 <= i < hi - lo ==> r[lo..hi][i] == r[lo + i] == s[lo + i] == s[lo..hi][i];
  }

  /** A slice that contains the whole splice. */
  lemma SpliceWithin<T>(s: seq<T>, at: nat, part: seq<T>, lo: nat, hi: nat)
    requires lo <= at && at + |part| <= hi <= |s|
    ensures Splice(s, at, part)[lo..hi] == Splice(s[lo..hi], at - lo, part)
  {
    var r, t := Splice(s, at, part), Splice(s[lo..hi], at - lo, part);
    assert forall i :: 0 <= i < hi - lo ==> r[lo..hi][i] == r[lo + i] == t[i];
  }

  lemma ConcatAssoc<T>(a: seq<T>, b: seq<T>, c: seq<T>)
    ensures a + (b + c) == (a + b) + c
  {
  }
}
