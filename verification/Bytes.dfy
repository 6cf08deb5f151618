/** Fixed-width integers and byte strings shared by every component. */
module Bytes {
  type byte = x: int | 0 <= x < 0x100
  type u16 = x: int | 0 <= x < 0x1_0000
  type u32 = x: int | 0 <= x < 0x1_0000_0000

  datatype Option<+T> = None | Some(value: T)

  /** The value a C cast to uint8_t keeps. */
  function ToByte(x: int): byte { x % 0x100 }

  /** The value a C cast to uint16_t keeps. */
  function ToU16(x: int): u16 { x % 0x1_0000 }

  /** A big-endian 16-bit value, and its two bytes. */
  function Word(hi: byte, lo: byte): u16 {
    var h: int := hi;
    h * 256 + lo
  }

  function Hi(w: u16): byte { w / 256 }
  function Lo(w: u16): byte { w % 256 }

  /** Unsigned 32-bit difference, the way the timers of the stack measure it. */
  function Elapsed(now: u32, since: u32): u32 { (now - since) % 0x1_0000_0000 }

  function Min(a: int, b: int): int { if a <= b then a else b }

  function Zeros(n: nat): (z: seq<byte>)
    ensures |z| == n
  {
    seq(n, _ => 0)
  }

  function Pow2(n: nat): (p: nat)
    ensures p >= 1
  {
    if n == 0 then 1 else 2 * Pow2(n - 1)
  }

  /** Bit i of a mask: (mask >> i) & 1. */
  predicate Bit(mask: nat, i: nat) { (mask / Pow2(i)) % 2 == 1 }

  /** s with the bytes of src written at position at, the effect of a memcpy. */
  function Patch(s: seq<byte>, at: nat, src: seq<byte>): (r: seq<byte>)
    requires at + |src| <= |s|
    ensures |r| == |s|
    ensures r[at..at + |src|] == src
    ensures r[..at] == s[..at] && r[at + |src|..] == s[at + |src|..]
  {
    s[..at] + src + s[at + |src|..]
  }

  lemma SliceOfPrefix(s: seq<byte>, n: nat, i: nat, j: nat)
    requires i <= j <= n <= |s|
    ensures s[..n][i..j] == s[i..j]
  {
  }

  lemma SliceOfSuffix(s: seq<byte>, n: nat, i: nat, j: nat)
    requires n <= i <= j <= |s|
    ensures s[n..][i - n..j - n] == s[i..j]
  {
  }

  /** memcpy into a buffer. */
  method CopyInto(dst: array<byte>, at: nat, src: seq<byte>)
    requires at + |src| <= dst.Length
    modifies dst
    ensures dst[..] == Patch(old(dst[..]), at, src)
  {
    forall i | 0 <= i < |src| {
      dst[at + i] := src[i];
    }
    assert dst[..] == Patch(old(dst[..]), at, src);
  }
}
