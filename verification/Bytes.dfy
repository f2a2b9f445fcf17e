/** Octets, fixed-width integers written big-endian, and the C library's block copies. */
module Bytes {

  type byte = b: int | 0 <= b < 256

  datatype Option<+T> = None | Some(value: T)

  function Repeat(v: byte, n: nat): (s: seq<byte>)
    ensures |s| == n && forall i :: 0 <= i < n ==> s[i] == v
  {
    seq(n, _ => v)
  }

  function Zeros(n: nat): (s: seq<byte>)
    ensures |s| == n && forall i :: 0 <= i < n ==> s[i] == 0
  {
    Repeat(0, n)
  }

  function Flatten(chunks: seq<seq<byte>>): seq<byte> {
    if chunks == [] then [] else chunks[0] + Flatten(chunks[1..])
  }

  /** `src` written over `dst` at `at`: what memcpy leaves behind. */
  function Overwrite(dst: seq<byte>, at: nat, src: seq<byte>): (r: seq<byte>)
    requires at + |src| <= |dst|
    ensures |r| == |dst|
  {
    dst[..at] + src + dst[at + |src|..]
  }

  /** A slice of a slice, element by element. */
  lemma SliceOfSlice<T>(s: seq<T>, a: nat, b: nat, i: nat, j: nat)
    requires a <= b <= |s| && i <= j <= b - a
    ensures s[a..b][i..j] == s[a + i..a + j]
  {
    var left, right := s[a..b][i..j], s[a + i..a + j];
    forall k | 0 <= k < j - i
      ensures left[k] == right[k]
    {
      assert left[k] == s[a..b][i + k] && right[k] == s[a + i + k];
    }
  }

  lemma OverwriteStart(dst: seq<byte>, src: seq<byte>, k: nat)
    requires k <= |src| <= |dst|
    ensures Overwrite(dst, 0, src)[..k] == src[..k]
  {}

  function U16(hi: byte, lo: byte): (v: nat)
    ensures v < 0x1_0000
  {
    hi * 256 + lo
  }

  function U32(a: byte, b: byte, c: byte, d: byte): (v: nat)
    ensures v < 0x1_0000_0000
  {
    ((a * 256 + b) * 256 + c) * 256 + d
  }

  function Be16(v: nat): (s: seq<byte>)
    ensures |s| == 2
  {
    [v / 256 % 256, v % 256]
  }

  function Be32(v: nat): (s: seq<byte>)
    ensures |s| == 4
  {
    [v / 0x100_0000 % 256, v / 0x1_0000 % 256, v / 256 % 256, v % 256]
  }

  lemma Be16RoundTrip(v: nat)
    requires v < 0x1_0000
    ensures U16(Be16(v)[0], Be16(v)[1]) == v
  {}

  lemma Be32RoundTrip(v: nat)
    requires v < 0x1_0000_0000
    ensures U32(Be32(v)[0], Be32(v)[1], Be32(v)[2], Be32(v)[3]) == v
  {
    var q := v / 256;
    assert v / 0x1_0000 == q / 256 && v / 0x100_0000 == q / 256 / 256;
  }

  lemma Be16OfParsed(a: byte, b: byte)
    ensures Be16(U16(a, b)) == [a, b]
  {}

  lemma Be32OfParsed(a: byte, b: byte, c: byte, d: byte)
    ensures Be32(U32(a, b, c, d)) == [a, b, c, d]
  {
    var v := U32(a, b, c, d);
    assert v / 256 == (a * 256 + b) * 256 + c;
    assert v / 0x1_0000 == v / 256 / 256 == a * 256 + b;
    assert v / 0x100_0000 == v / 256 / 256 / 256 == a;
  }

  /** memset over a whole buffer. */
  method Fill(a: array<byte>, v: byte)
    modifies a
    ensures forall i :: 0 <= i < a.Length ==> a[i] == v
  {
    for i := 0 to a.Length
      invariant forall j :: 0 <= j < i ==> a[j] == v
    {
      a[i] := v;
    }
  }

  /** memcpy of a block into a buffer. */
  method Copy(a: array<byte>, at: nat, src: seq<byte>)
    requires at + |src| <= a.Length
    modifies a
    ensures a[..] == Overwrite(old(a[..]), at, src)
  {
    for i := 0 to |src|
      invariant forall k :: at <= k < at + i ==> a[k] == src[k - at]
      invariant forall k :: 0 <= k < a.Length && !(at <= k < at + i) ==> a[k] == old(a[k])
    {
      a[at + i] := src[i];
    }
  }
}
