/** ReadMemoryByAddress (0x23) and WriteMemoryByAddress (0x3D). */
module Memory {
  import opened Bytes
  import opened Addressing
  import opened Replies

  const SID_READ_MEM := 0x23
  const SID_WRITE_MEM := 0x3D

  /** What the callback is asked to write. */
  datatype MemWrite = MemWrite(addr: u32, size: u32, data: seq<byte>)

  datatype WriteResult = WriteResult(reply: seq<byte>, written: Option<MemWrite>)

  /** Bytes of the request before the data to write. */
  function Consumed(data: seq<byte>): nat
    requires |data| >= 2
  {
    2 + AddrLen(data[1]) + SizeLen(data[1])
  }

  /** The request gets as far as the callback: its length matches modulo 2^16. */
  predicate ReachesCallback(data: seq<byte>) {
    && 3 <= |data| < 0x1_0000
    && Parse(data[2..], data[1]).Some?
    && |data| == ToU16(Consumed(data) + ToU16(Parse(data[2..], data[1]).value.size))
  }

  /** uds_internal_handle_write_memory_by_addr. The request's data is &data[consumed], of which the
      callback is told to take size bytes; here it gets all there is. */
  class MemoryService {
    const tx: array<byte>
    const hasRead: bool
    const hasWrite: bool

    constructor (tx: array<byte>, hasRead: bool, hasWrite: bool)
      ensures this.tx == tx && this.hasRead == hasRead && this.hasWrite == hasWrite
    {
      this.tx, this.hasRead, this.hasWrite := tx, hasRead, hasWrite;
    }

    /** safe and res are the verdicts of the safety gate and of the write callback. */
    method WriteMemory(data: seq<byte>, safe: bool, res: int) returns (r: WriteResult)
      requires 1 <= |data| < 0x1_0000 && tx.Length >= 10
      modifies tx
      ensures r.written.Some? <==> ReachesCallback(data) && hasWrite && safe
      ensures r.written.Some? ==>
                var f := Parse(data[2..], data[1]).value;
                r.written.value == MemWrite(f.addr, f.size, data[Consumed(data)..])
      ensures r.reply ==
              if r.written.Some? then
                (if res < 0 then Nrc(SID_WRITE_MEM, ToByte(-res))
                 else [SID_WRITE_MEM + 0x40] + data[1..Consumed(data)])
              else if |data| < 3 then Nrc(SID_WRITE_MEM, NRC_LENGTH)
              else if !FormatOk(data[1]) then Nrc(SID_WRITE_MEM, NRC_RANGE)
              else if !ReachesCallback(data) then Nrc(SID_WRITE_MEM, NRC_LENGTH)
              else Nrc(SID_WRITE_MEM, NRC_CONDITIONS)
    {
      hide Parse, BigEndian, Pow256;
      if |data| < 3 {
        return WriteResult(Nrc(SID_WRITE_MEM, NRC_LENGTH), None);
      }
      var format := data[1];
      var addrLen, sizeLen := format % 16, format / 16 % 16;
      ParseSome(data[2..], format);
      if addrLen == 0 || sizeLen == 0 || addrLen > 4 || sizeLen > 4 {
        return WriteResult(Nrc(SID_WRITE_MEM, NRC_RANGE), None);
      }
      var consumed := 2 + addrLen + sizeLen;
      var parsed := ParseAddrLen(data[2..], format);
      if parsed.None? {
        return WriteResult(Nrc(SID_WRITE_MEM, NRC_LENGTH), None);
      }
      if |data| != ToU16(consumed + ToU16(parsed.value.size)) {
        return WriteResult(Nrc(SID_WRITE_MEM, NRC_LENGTH), None);
      }
      if !hasWrite {
        return WriteResult(Nrc(SID_WRITE_MEM, NRC_CONDITIONS), None);
      }
      if !safe {
        return WriteResult(Nrc(SID_WRITE_MEM, NRC_CONDITIONS), None);
      }
      var written := Some(MemWrite(parsed.value.addr, parsed.value.size, data[consumed..]));
      if res < 0 {
        return WriteResult(Nrc(SID_WRITE_MEM, ToByte(-res)), written);
      }
      tx[0] := SID_WRITE_MEM + 0x40;
      tx[1] := format;
      var i := 0;
      while i < addrLen + sizeLen
        invariant 0 <= i <= addrLen + sizeLen
        invariant tx[0] == SID_WRITE_MEM + 0x40 && tx[1] == format
        invariant forall j :: 2 <= j < 2 + i ==> tx[j] == data[j]
      {
        tx[2 + i] := data[2 + i];
        i := i + 1;
      }
      assert tx[..consumed] == [SID_WRITE_MEM + 0x40] + data[1..consumed];
      return WriteResult(tx[..consumed], written);
    }

    /** bytes is what the read callback leaves in the buffer when it succeeds. */
    method ReadMemory(data: seq<byte>, res: int, bytes: seq<byte>) returns (reply: seq<byte>)
      requires 1 <= |data| < 0x1_0000 && 3 <= tx.Length < 0x1_0000
      requires |data| >= 3 && Parse(data[2..], data[1]).Some? ==> |bytes| == Parse(data[2..], data[1]).value.size
      modifies tx
      ensures |reply| <= tx.Length
      ensures reply ==
              if |data| < 3 then Nrc(SID_READ_MEM, NRC_LENGTH)
              else if !FormatOk(data[1]) then Nrc(SID_READ_MEM, NRC_RANGE)
              else if Parse(data[2..], data[1]).None? then Nrc(SID_READ_MEM, NRC_LENGTH)
              else if !hasRead then Nrc(SID_READ_MEM, NRC_CONDITIONS)
              else if |bytes| + 1 > tx.Length then Nrc(SID_READ_MEM, NRC_TOO_LONG)
              else if res < 0 then Nrc(SID_READ_MEM, ToByte(-res))
              else [SID_READ_MEM + 0x40] + bytes
    {
      if |data| < 3 {
        return Nrc(SID_READ_MEM, NRC_LENGTH);
      }
      var format := data[1];
      var addrLen, sizeLen := format % 16, format / 16 % 16;
      if addrLen == 0 || sizeLen == 0 || addrLen > 4 || sizeLen > 4 {
        return Nrc(SID_READ_MEM, NRC_RANGE);
      }
      var parsed := ParseAddrLen(data[2..], format);
      if parsed.None? {
        return Nrc(SID_READ_MEM, NRC_LENGTH);
      }
      if !hasRead {
        return Nrc(SID_READ_MEM, NRC_CONDITIONS);
      }
      if parsed.value.size > tx.Length - 1 {
        return Nrc(SID_READ_MEM, NRC_TOO_LONG);
      }
      if res < 0 {
        return Nrc(SID_READ_MEM, ToByte(-res));
      }
      CopyInto(tx, 1, bytes);
      tx[0] := SID_READ_MEM + 0x40;
      reply := tx[..parsed.value.size + 1];
      assert reply == [SID_READ_MEM + 0x40] + bytes;
    }
  }

  /** A request that reaches the callback carries exactly the announced number of bytes if and only
      if it announces fewer than 2^16: the length check is made modulo 2^16. */
  lemma ExactIffBelow64K(data: seq<byte>)
    requires ReachesCallback(data)
    ensures var size := Parse(data[2..], data[1]).value.size;
            |data[Consumed(data)..]| == size <==> size < 0x1_0000
  {
    var size := Parse(data[2..], data[1]).value.size;
    assert |data| >= Consumed(data);
    if size < 0x1_0000 {
      assert ToU16(size) == size;
    }
  }

  /** A write request with an address of a bytes and a size of s bytes. */
  function WriteRequest(addr: nat, a: nat, size: nat, s: nat, content: seq<byte>): (data: seq<byte>)
    requires 1 <= a <= 4 && 1 <= s <= 4 && addr < Pow256(a) && size < Pow256(s)
  {
    [SID_WRITE_MEM, Format(a, s)] + (Encode(addr, a) + Encode(size, s) + content)
  }

  lemma WriteRequestFacts(addr: nat, a: nat, size: nat, s: nat, content: seq<byte>)
    requires 1 <= a <= 4 && 1 <= s <= 4 && addr < Pow256(a) && size < Pow256(s)
    ensures var data := WriteRequest(addr, a, size, s, content);
            && |data| == 2 + a + s + |content|
            && data[0] == SID_WRITE_MEM && data[1] == Format(a, s) && Consumed(data) == 2 + a + s
            && data[2..] == Encode(addr, a) + Encode(size, s) + content
            && data[1..2 + a + s] == [Format(a, s)] + (Encode(addr, a) + Encode(size, s))
            && data[2 + a + s..] == content
  {
    hide Pow256, Encode, Format, AddrLen, SizeLen;
    var fields := Encode(addr, a) + Encode(size, s);
    var data := WriteRequest(addr, a, size, s, content);
    assert data == [SID_WRITE_MEM, Format(a, s)] + fields + content;
    assert data[2..] == fields + content;
  }

  lemma EchoTail(sid: byte, tail: seq<byte>, format: byte, fields: seq<byte>)
    requires tail == [format] + fields
    ensures ([sid] + tail)[2..] == fields && ([sid] + tail)[1] == format
  {
  }

  /** The exception is not empty: a request announcing 2^16 bytes more than it carries reaches the
      callback, for every address, every content and every short length. */
  lemma OversizeReachesCallback(addr: u32, content: seq<byte>)
    requires |content| < 0x1_0000 - 10
    ensures addr < Pow256(4) && 0x1_0000 + |content| < Pow256(4)
    ensures |WriteRequest(addr, 4, 0x1_0000 + |content|, 4, content)| == 10 + |content|
    ensures var data := WriteRequest(addr, 4, 0x1_0000 + |content|, 4, content);
            ReachesCallback(data) && Parse(data[2..], data[1]).value.size == 0x1_0000 + |content|
  {
    hide Pow256, Encode, BigEndian, Parse, Format, WriteRequest;
    Pow256Values();
    var size := 0x1_0000 + |content|;
    WriteRequestFacts(addr, 4, size, 4, content);
    ParseInvertsEncode(addr, size, 4, 4, content);
    assert ToU16(size) == |content|;
  }

  /** The header of the positive response: format, address and size as in the request. */
  function Echo(data: seq<byte>): (e: seq<byte>)
    requires |data| >= 2 && Consumed(data) <= |data|
    ensures |e| == Consumed(data) >= 2
  {
    [SID_WRITE_MEM + 0x40] + data[1..Consumed(data)]
  }

  /** The request makes the callback write content at addr, and its response echoes that. */
  ghost predicate Writes(data: seq<byte>, addr: u32, content: seq<byte>) {
    && ReachesCallback(data) && |content| < 0x1_0000_0000 && Consumed(data) <= |data|
    && Parse(data[2..], data[1]) == Some(Fields(addr, |content|))
    && data[Consumed(data)..] == content
    && Parse(Echo(data)[2..], Echo(data)[1]) == Some(Fields(addr, |content|))
  }

  /** Round trip of a proper write: the callback gets the address and exactly the content, and the
      address and size echoed in the positive response parse back to the same pair. */
  lemma WriteRoundTrip(addr: nat, a: nat, s: nat, content: seq<byte>)
    requires 1 <= a <= 4 && 1 <= s <= 4 && addr < Pow256(a) && |content| < Pow256(s)
    requires 2 + a + s + |content| < 0x1_0000
    ensures addr < 0x1_0000_0000
    ensures Writes(WriteRequest(addr, a, |content|, s, content), addr, content)
  {
    hide Pow256, Encode, BigEndian, Parse, Format, WriteRequest, Consumed;
    WriteRequestFacts(addr, a, |content|, s, content);
    ParseInvertsEncode(addr, |content|, a, s, content);
    ParseInvertsEncode(addr, |content|, a, s, []);
    var data := WriteRequest(addr, a, |content|, s, content);
    var fields := Encode(addr, a) + Encode(|content|, s);
    EchoTail(SID_WRITE_MEM + 0x40, data[1..Consumed(data)], Format(a, s), fields);
    assert fields + [] == fields;
    assert ToU16(|content|) == |content|;
  }
}
