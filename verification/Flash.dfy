/** RequestDownload (0x34) and TransferData (0x36): the block sequence counter of a transfer. */
module Flash {
  import opened Bytes
  import opened Addressing
  import opened Replies

  const SID_DOWNLOAD := 0x34
  const SID_TRANSFER := 0x36

  /** What the transfer callback is handed. */
  datatype Block = Block(counter: byte, payload: seq<byte>)

  datatype TransferResult = TransferResult(last: byte, reply: seq<byte>, handed: Option<Block>)

  function Accept(counter: byte): seq<byte> { [SID_TRANSFER + 0x40, counter] }

  /** The counter the next block must carry. */
  function Successor(last: byte): byte { (last + 1) % 0x100 }

  /** uds_internal_handle_transfer_data: last is the counter of the last accepted block (0 before
      the first), replay the acceptance of a repeated last block, res what the callback answers. A
      block counts as handed over when the callback accepts it. */
  function Transfer(last: byte, replay: bool, hasCallback: bool, data: seq<byte>, res: int): TransferResult {
    if |data| < 2 then TransferResult(last, Nrc(SID_TRANSFER, NRC_LENGTH), None)
    else if !hasCallback then TransferResult(last, Nrc(SID_TRANSFER, NRC_CONDITIONS), None)
    else if data[1] == Successor(last) then
      if res < 0 then TransferResult(last, Nrc(SID_TRANSFER, ToByte(-res)), None)
      else TransferResult(data[1], Accept(data[1]), Some(Block(data[1], data[2..])))
    else if replay && last != 0 && data[1] == last then TransferResult(last, Accept(last), None)
    else TransferResult(last, Nrc(SID_TRANSFER, NRC_SEQUENCE), None)
  }

  class FlashService {
    const tx: array<byte>
    const replay: bool
    const hasTransfer: bool
    const hasDownload: bool
    var sequence: byte

    constructor (tx: array<byte>, replay: bool, hasTransfer: bool, hasDownload: bool)
      ensures this.tx == tx && this.replay == replay && sequence == 0
      ensures this.hasTransfer == hasTransfer && this.hasDownload == hasDownload
    {
      this.tx, this.replay, this.hasTransfer, this.hasDownload := tx, replay, hasTransfer, hasDownload;
      sequence := 0;
    }

    /** asked is what the download callback was called with; an accepted request restarts the counter. */
    method RequestDownload(data: seq<byte>, res: int) returns (reply: seq<byte>, asked: Option<Fields>)
      requires tx.Length >= 6 && |data| >= 1
      modifies this`sequence, tx
      ensures asked == if |data| >= 4 && hasDownload then Parse(data[3..], data[2]) else None
      ensures sequence == if asked.Some? && res >= 0 then 0 else old(sequence)
      ensures reply ==
              if asked.Some? then
                (if res < 0 then Nrc(SID_DOWNLOAD, ToByte(-res)) else [SID_DOWNLOAD + 0x40, 0x20, 0, 0, 4, 0])
              else if |data| < 4 then Nrc(SID_DOWNLOAD, NRC_LENGTH)
              else if !FormatOk(data[2]) then Nrc(SID_DOWNLOAD, NRC_RANGE)
              else if Parse(data[3..], data[2]).None? then Nrc(SID_DOWNLOAD, NRC_LENGTH)
              else Nrc(SID_DOWNLOAD, NRC_CONDITIONS)
    {
      hide BigEndian;
      asked := None;
      if |data| < 4 {
        return Nrc(SID_DOWNLOAD, NRC_LENGTH), None;
      }
      var addrLen, sizeLen := data[2] % 16, data[2] / 16 % 16;
      ParseSome(data[3..], data[2]);
      if addrLen == 0 || sizeLen == 0 || addrLen > 4 || sizeLen > 4 {
        return Nrc(SID_DOWNLOAD, NRC_RANGE), None;
      }
      var parsed := ParseAddrLen(data[3..], data[2]);
      if parsed.None? {
        return Nrc(SID_DOWNLOAD, NRC_LENGTH), None;
      }
      if !hasDownload {
        return Nrc(SID_DOWNLOAD, NRC_CONDITIONS), None;
      }
      asked := parsed;
      if res < 0 {
        return Nrc(SID_DOWNLOAD, ToByte(-res)), asked;
      }
      sequence := 0;
      tx[0], tx[1], tx[2], tx[3], tx[4], tx[5] := SID_DOWNLOAD + 0x40, 0x20, 0, 0, 4, 0;
      return tx[..6], asked;
    }

    method TransferData(data: seq<byte>, res: int) returns (reply: seq<byte>, handed: Option<Block>)
      requires tx.Length >= 2
      modifies this`sequence, tx
      ensures TransferResult(sequence, reply, handed) == Transfer(old(sequence), replay, hasTransfer, data, res)
    {
      handed := None;
      if |data| < 2 {
        return Nrc(SID_TRANSFER, NRC_LENGTH), None;
      }
      if !hasTransfer {
        return Nrc(SID_TRANSFER, NRC_CONDITIONS), None;
      }
      var counter := data[1];
      if sequence == 0 {
        if counter != 1 {
          return Nrc(SID_TRANSFER, NRC_SEQUENCE), None;
        }
      } else {
        var expected := if sequence == 0xFF then 0 else sequence + 1;
        if counter != expected {
          if replay && counter == sequence {
            tx[0], tx[1] := SID_TRANSFER + 0x40, counter;
            return tx[..2], None;
          }
          return Nrc(SID_TRANSFER, NRC_SEQUENCE), None;
        }
      }
      if res < 0 {
        return Nrc(SID_TRANSFER, ToByte(-res)), None;
      }
      sequence := counter;
      tx[0], tx[1] := SID_TRANSFER + 0x40, counter;
      return tx[..2], Some(Block(counter, data[2..]));
    }
  }

  /** The replay option promises a positive answer to a repeated last block; it keeps the promise
      exactly when the block's counter is not 0, so for every block but each 256th. */
  lemma ReplayAnsweredIff(last: byte, replay: bool, payload: seq<byte>, res: int)
    ensures var r := Transfer(last, replay, true, [SID_TRANSFER, last] + payload, res);
            r.reply == Accept(last) && r.handed == None <==> replay && last != 0
  {
    assert ([SID_TRANSFER, last] + payload)[1] == last;
  }

  /** A block is handed over exactly when it has at least a counter, there is a callback, the counter is
      one more than the last, modulo 256, and the callback accepts; then the counter is remembered and
      acknowledged. Otherwise nothing is remembered, and a block that is not a repetition of the last one
      gets the code of what is wrong. */
  lemma TransferAnswer(last: byte, replay: bool, hasCallback: bool, data: seq<byte>, res: int)
    ensures var r := Transfer(last, replay, hasCallback, data, res);
            var next := |data| >= 2 && hasCallback && data[1] == (last + 1) % 0x100;
            && (r.handed.Some? <==> next && res >= 0)
            && (next && res >= 0 ==>
                  r.handed == Some(Block(data[1], data[2..])) && r.last == data[1] && r.reply == [0x76, data[1]])
            && (r.handed.None? ==> r.last == last)
            && (next && res < 0 ==> r.reply == [0x7F, 0x36, -res % 0x100])
            && (|data| < 2 ==> r.reply == [0x7F, 0x36, 0x13])
            && (|data| >= 2 && !hasCallback ==> r.reply == [0x7F, 0x36, 0x22])
            && (|data| >= 2 && hasCallback && !next && data[1] != last ==> r.reply == [0x7F, 0x36, 0x24])
  {
  }
}
