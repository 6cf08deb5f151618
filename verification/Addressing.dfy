/** Address and size fields of memory and flash requests: big-endian, one to four bytes each. */
module Addressing {
  import opened Bytes

  /** The value of a big-endian byte string. */
  function BigEndian(s: seq<byte>): (v: nat)
    ensures v < Pow256(|s|)
  {
    if s == [] then 0
    else
      assert Pow256(|s|) == 256 * Pow256(|s| - 1);
      256 * BigEndian(s[..|s| - 1]) + s[|s| - 1]
  }

  function Pow256(n: nat): (p: nat)
    ensures p >= 1
  {
    if n == 0 then 1 else 256 * Pow256(n - 1)
  }

  lemma Pow256Values()
    ensures Pow256(0) == 1 && Pow256(1) == 0x100 && Pow256(2) == 0x1_0000
    ensures Pow256(3) == 0x100_0000 && Pow256(4) == 0x1_0000_0000
  {
    assert Pow256(2) == 256 * Pow256(1);
    assert Pow256(3) == 256 * Pow256(2);
    assert Pow256(4) == 256 * Pow256(3);
  }

  lemma {:induction false} Pow256Grows(a: nat, b: nat)
    requires a <= b
    ensures Pow256(a) <= Pow256(b)
  {
    if a < b {
      Pow256Grows(a, b - 1);
    }
  }

  /** n as a big-endian string of w bytes. */
  function Encode(n: nat, w: nat): (s: seq<byte>)
    requires n < Pow256(w)
    ensures |s| == w
  {
    if w == 0 then [] else Encode(n / 256, w - 1) + [n % 256]
  }

  lemma {:induction false} EncodeDecodes(n: nat, w: nat)
    requires n < Pow256(w)
    ensures BigEndian(Encode(n, w)) == n
  {
    if w > 0 {
      EncodeDecodes(n / 256, w - 1);
      assert Encode(n, w)[..w - 1] == Encode(n / 256, w - 1);
    }
  }

  function AddrLen(format: byte): nat { format % 16 }
  function SizeLen(format: byte): nat { format / 16 }

  predicate FormatOk(format: byte) { 1 <= AddrLen(format) <= 4 && 1 <= SizeLen(format) <= 4 }

  /** The format byte for fields of a and s bytes. */
  function Format(a: nat, s: nat): (f: byte)
    requires a < 16 && s < 16
    ensures AddrLen(f) == a && SizeLen(f) == s
  {
    16 * s + a
  }

  datatype Fields = Fields(addr: u32, size: u32)

  /** What the fields at the front of data mean, if the format is valid and they are all there. */
  function Parse(data: seq<byte>, format: byte): Option<Fields> {
    var a, s := AddrLen(format), SizeLen(format);
    if !FormatOk(format) || |data| < a + s then None
    else
      Pow256Values();
      Pow256Grows(a, 4);
      Pow256Grows(s, 4);
      Some(Fields(BigEndian(data[..a]), BigEndian(data[a..a + s])))
  }

  lemma ParseSome(data: seq<byte>, format: byte)
    ensures Parse(data, format).Some? <==> FormatOk(format) && |data| >= AddrLen(format) + SizeLen(format)
  {
  }

  /** One big-endian field: the loop that shifts bytes into a 32-bit accumulator. */
  method ReadField(data: seq<byte>, at: nat, n: nat) returns (v: u32)
    requires n <= 4 && at + n <= |data|
    ensures v == BigEndian(data[at..at + n])
  {
    Pow256Values();
    v := 0;
    var i := 0;
    while i < n
      invariant 0 <= i <= n
      invariant v == BigEndian(data[at..at + i])
    {
      assert data[at..at + i + 1][..i] == data[at..at + i];
      Pow256Grows(i, 3);
      v := (v * 256 + data[at + i]) % 0x1_0000_0000;
      i := i + 1;
    }
  }

  /** uds_internal_parse_addr_len. */
  method ParseAddrLen(data: seq<byte>, format: byte) returns (r: Option<Fields>)
    ensures r == Parse(data, format)
  {
    var addrLen, sizeLen := format % 16, format / 16 % 16;
    if addrLen == 0 || addrLen > 4 || sizeLen == 0 || sizeLen > 4 {
      return None;
    }
    if |data| < addrLen + sizeLen {
      return None;
    }
    var addr := ReadField(data, 0, addrLen);
    var size := ReadField(data, addrLen, sizeLen);
    return Some(Fields(addr, size));
  }

  /** Parsing inverts encoding for every pair of widths and values, whatever follows the fields. */
  lemma ParseInvertsEncode(addr: nat, size: nat, a: nat, s: nat, rest: seq<byte>)
    requires 1 <= a <= 4 && 1 <= s <= 4 && addr < Pow256(a) && size < Pow256(s)
    ensures addr < 0x1_0000_0000 && size < 0x1_0000_0000
    ensures Parse(Encode(addr, a) + Encode(size, s) + rest, Format(a, s)) == Some(Fields(addr, size))
  {
    hide Pow256, BigEndian, Encode, Format, AddrLen, SizeLen;
    Pow256Values();
    Pow256Grows(a, 4);
    Pow256Grows(s, 4);
    EncodeDecodes(addr, a);
    EncodeDecodes(size, s);
    var data := Encode(addr, a) + Encode(size, s) + rest;
    assert data[..a] == Encode(addr, a);
    assert data[a..a + s] == Encode(size, s);
  }
}
