/** Byte memory: little-endian words, zero filling and memcpy. */
module Bytes {
  type u8 = x: int | 0 <= x < 0x100
  type u16 = x: int | 0 <= x < 0x1_0000
  type u32 = x: int | 0 <= x < 0x1_0000_0000

  const U32: nat := 0x1_0000_0000

  function Zeros(n: nat): (s: seq<u8>)
    ensures |s| == n && forall k :: 0 <= k < n ==> s[k] == 0
  {
    seq(n, _ => 0)
  }

  function Le32(x: u32): (s: seq<u8>)
    ensures |s| == 4
  {
    [x % 0x100, x / 0x100 % 0x100, x / 0x1_0000 % 0x100, x / 0x100_0000]
  }

  function ReadLe32(s: seq<u8>, at: nat): u32
    requires at + 4 <= |s|
  {
    var b0: int, b1: int, b2: int, b3: int := s[at], s[at + 1], s[at + 2], s[at + 3];
    b0 + 0x100 * b1 + 0x1_0000 * b2 + 0x100_0000 * b3
  }

  lemma Le32RoundTrip(x: u32, before: seq<u8>, after: seq<u8>)
    ensures ReadLe32(before + Le32(x) + after, |before|) == x
  {
    var s := before + Le32(x) + after;
    assert forall k :: 0 <= k < 4 ==> s[|before| + k] == Le32(x)[k];
    assert x / 0x1_0000 == x / 0x100 / 0x100 && x / 0x100_0000 == x / 0x1_0000 / 0x100;
  }

  /** The bytes of a u32 in memory, least significant first, are its digits in base 0x100. */
  lemma LittleEndian(s: seq<u8>, at: nat)
    requires at + 4 <= |s|
    ensures var x := ReadLe32(s, at);
      && s[at] == x % 0x100 && s[at + 1] == x / 0x100 % 0x100
      && s[at + 2] == x / 0x1_0000 % 0x100 && s[at + 3] == x / 0x100_0000
  {
    var b1: int, b2: int, b3: int := s[at + 1], s[at + 2], s[at + 3];
    assert ReadLe32(s, at) / 0x100 == b1 + 0x100 * b2 + 0x1_0000 * b3;
    assert ReadLe32(s, at) / 0x1_0000 == b2 + 0x100 * b3;
  }

  /** A u32 in memory determines its four bytes. */
  lemma Le32Digits(s: seq<u8>, t: seq<u8>, at: nat, k: nat)
    requires at + 4 <= |s| && at + 4 <= |t| && k < 4
    requires ReadLe32(s, at) == ReadLe32(t, at)
    ensures s[at + k] == t[at + k]
  {
    var a, b := s[at + 2] + 0x100 * (s[at + 3] as int), t[at + 2] + 0x100 * (t[at + 3] as int);
    var c, d := s[at + 1] + 0x100 * (a as int), t[at + 1] + 0x100 * (b as int);
    LowDigit(s[at], c, t[at], d);
    LowDigit(s[at + 1], a, t[at + 1], b);
    LowDigit(s[at + 2], s[at + 3], t[at + 2], t[at + 3]);
  }

  lemma LowDigit(lo: u8, hi: int, lo': u8, hi': int)
    ensures lo + 0x100 * hi == lo' + 0x100 * hi' ==> lo == lo' && hi == hi'
  {
  }

  /** `s` with `src` written over the bytes from `at` on. */
  function Patched(s: seq<u8>, at: nat, src: seq<u8>): (r: seq<u8>)
    requires at + |src| <= |s|
    ensures |r| == |s|
  {
    s[..at] + src + s[at + |src|..]
  }

  method MemCpy(dst: array<u8>, at: nat, src: seq<u8>)
    requires at + |src| <= dst.Length
    modifies dst
    ensures dst[..] == Patched(old(dst[..]), at, src)
  {
    for k := 0 to |src|
      invariant dst[..at] == old(dst[..at])
      invariant dst[at..at + k] == src[..k]
      invariant dst[at + k..] == old(dst[at + k..])
    {
      dst[at + k] := src[k];
    }
  }
}
