/**
 What is on the bus, byte by byte, in the numbers of ISO 15765-2: the layout of each kind of frame, and
 that every frame of every run has a length that the bus can express, no longer than it has to be.
 */
module WireFormat {
  import opened Bytes
  import opened IsoTp
  import opened Segmentation
  import opened Transmission

  /** The payload lengths of CAN and CAN-FD frames. */
  predicate Expressible(n: nat) { n <= 8 || n in [12, 16, 20, 24, 32, 48, 64] }

  /** From position n on there is only padding. */
  predicate ZeroFrom(f: Frame, n: nat) { n <= |f| && forall i :: n <= i < |f| ==> f[i] == 0 }

  /** An expressible length that holds n bytes, and the least one. */
  predicate LeastFor(len: nat, n: nat) {
    Expressible(len) && n <= len && forall d: nat :: Expressible(d) && n <= d ==> len <= d
  }

  lemma AlignIsLeast(n: nat)
    requires n <= 64
    ensures LeastFor(DlcAlign(n), n)
  {
    forall d: nat ensures Expressible(d) <==> IsDlc(d) {}
  }

  lemma PaddedLayout(header: seq<byte>, payload: seq<byte>, dl: nat)
    requires |header| + |payload| <= dl
    ensures var f := Padded(header, payload, dl);
            && |f| == dl && f[..|header|] == header && f[|header|..|header| + |payload|] == payload
            && ZeroFrom(f, |header| + |payload|)
            && (forall i :: 0 <= i < |header| ==> f[i] == header[i])
  {
    var f := Padded(header, payload, dl);
    forall i | 0 <= i < |header| ensures f[i] == header[i] {
      assert f[i] == f[..|header|][i];
    }
  }

  // --- layouts -----------------------------------------------------------------------------------

  /** Up to 7 bytes: the length in the low half of byte 0, always 8 bytes. More: 0 in byte 0, the length
      in byte 1, the least length that holds the rest. */
  lemma SingleOnWire(sdu: seq<byte>)
    requires |sdu| <= 62
    ensures var f := SingleFrame(sdu);
            if |sdu| <= 7 then
              |f| == 8 && f[0] == |sdu| && f[1..1 + |sdu|] == sdu && ZeroFrom(f, 1 + |sdu|)
            else
              && LeastFor(|f|, |sdu| + 2) && ZeroFrom(f, |sdu| + 2)
              && f[0] == 0 && f[1] == |sdu| && f[2..2 + |sdu|] == sdu
  {
    hide Padded, DlcAlign;
    if |sdu| <= 7 {
      PaddedLayout([|sdu|], sdu, 8);
    } else {
      AlignIsLeast(|sdu| + 2);
      PaddedLayout([0, |sdu|], sdu, DlcAlign(|sdu| + 2));
    }
  }

  /** 1 in the high half of byte 0, then twelve bits of length, then as much as a full frame holds. */
  lemma FirstOnWire(sdu: seq<byte>, fd: bool)
    requires (if fd then 62 else 7) < |sdu| <= 4095
    ensures var f := FirstFrame(sdu, fd);
            && |f| == (if fd then 64 else 8)
            && f[0] == 0x10 + |sdu| / 256 && f[1] == |sdu| % 256 && f[2..] == sdu[..|f| - 2]
  {
    hide Padded;
    var n, dl := if fd then 62 else 6, if fd then 64 else 8;
    PaddedLayout([0x10 + |sdu| / 256, |sdu| % 256], sdu[..n], dl);
  }

  /** 2 in the high half of byte 0, the sequence number in the low half, then the data. */
  lemma ConsecutiveOnWire(sn: byte, chunk: seq<byte>, fd: bool)
    requires sn < 16 && |chunk| <= (if fd then 63 else 7)
    ensures var f := ConsecutiveFrame(sn, chunk, fd);
            && (if fd then LeastFor(|f|, 1 + |chunk|) else |f| == 8)
            && f[0] == 0x20 + sn && f[1..1 + |chunk|] == chunk && ZeroFrom(f, 1 + |chunk|)
  {
    hide Padded, DlcAlign;
    AlignIsLeast(1 + |chunk|);
    PaddedLayout([0x20 + sn], chunk, if fd then DlcAlign(1 + |chunk|) else 8);
  }

  /** Clear to send, block size, separation time. */
  lemma FlowControlOnWire(blockSize: byte, stMin: byte)
    ensures FlowControl(blockSize, stMin) == [0x30, blockSize, stMin, 0, 0, 0, 0, 0]
  {
  }

  // --- every frame of every run --------------------------------------------------------------------

  /** The frame uses n bytes: 8 bytes long on classic CAN, for short single frames and for flow control,
      as short as it can be otherwise, and zero after what it uses. */
  predicate Sized(f: Frame, fd: bool, n: nat) {
    && |f| > 0 && ZeroFrom(f, n)
    && if !fd || (f[0] / 16 == 0 && n <= 8) || f[0] / 16 == 3 then |f| == 8 else LeastFor(|f|, n)
  }

  ghost predicate Laid(f: Frame, fd: bool) { exists n :: Sized(f, fd, n) }

  /** Everything an event puts on the bus. */
  function Emitted(t: Tp, e: TpEvent): seq<Frame>
    requires Valid(t) && EventOk(e)
  {
    match e
    case Submit(sdu, canSend) => Send(t, sdu, canSend).frames
    case Clock(now, canSend) => Tick(t, now, canSend).frames
    case Incoming(f) => Receive(t, f).frames
  }

  function OnBus(t: Tp, evs: seq<TpEvent>): seq<Frame>
    requires Valid(t) && AllOk(evs)
    decreases |evs|
  {
    if evs == [] then [] else Emitted(t, evs[0]) + OnBus(Next(t, evs[0]), evs[1..])
  }

  lemma SubmitLaid(t: Tp, sdu: seq<byte>, canSend: int, f: Frame)
    requires Valid(t) && |sdu| < 0x1_0000 && f in Send(t, sdu, canSend).frames
    ensures Laid(f, t.fd)
  {
    hide SingleFrame, FirstFrame, Patch, LeastFor;
    if |sdu| <= (if t.fd then 62 else 7) {
      SingleOnWire(sdu);
      assert Sized(f, t.fd, if |sdu| <= 7 then 1 + |sdu| else 2 + |sdu|);
    } else {
      FirstOnWire(sdu, t.fd);
      FullIsLeast();
      assert Sized(f, t.fd, |f|);
    }
  }

  lemma FullIsLeast()
    ensures LeastFor(64, 64)
  {
  }

  lemma TickLaid(t: Tp, now: u32, canSend: int, f: Frame)
    requires Valid(t) && f in Tick(t, now, canSend).frames
    ensures Laid(f, t.fd)
  {
    hide ConsecutiveFrame, LeastFor;
    var n := Min(t.msgLen - t.done, CfData(t.fd));
    var chunk := t.pending[t.done..t.done + n];
    ConsecutiveOnWire(t.sn, chunk, t.fd);
    assert Sized(f, t.fd, 1 + n);
  }

  lemma ReplyLaid(t: Tp, g: Frame, f: Frame)
    requires Valid(t) && WellFormed(g) && f in Receive(t, g).frames
    ensures Laid(f, t.fd)
  {
    hide Pci, FfLength, Patch, LeastFor, FlowControl;
    FlowControlOnWire(t.blockSize, t.stMin);
    assert Sized(f, t.fd, 3);
  }

  /** Whatever happens, every frame the engine puts on the bus is laid out like that. */
  lemma {:induction false} EveryFrameLaid(t: Tp, evs: seq<TpEvent>, f: Frame)
    requires Valid(t) && AllOk(evs) && f in OnBus(t, evs)
    ensures Laid(f, t.fd) && Expressible(|f|) && (!t.fd ==> |f| == 8)
    decreases |evs|
  {
    hide Next, Laid, Send, Tick, Receive, WellFormed, Valid;
    if f in Emitted(t, evs[0]) {
      match evs[0] {
        case Submit(sdu, canSend) => SubmitLaid(t, sdu, canSend, f);
        case Clock(now, canSend) => TickLaid(t, now, canSend, f);
        case Incoming(g) => ReplyLaid(t, g, f);
      }
      LaidLength(f, t.fd);
    } else {
      EveryFrameLaid(Next(t, evs[0]), evs[1..], f);
    }
  }

  lemma LaidLength(f: Frame, fd: bool)
    requires Laid(f, fd)
    ensures Expressible(|f|) && (!fd ==> |f| == 8)
  {
  }

  /** What one send hands to the driver, and what it returns: a single frame for up to 7 bytes, 62 on
      CAN-FD; a first frame for up to 1024; nothing, and -2, for more. */
  lemma SendOnWire(t: Tp, sdu: seq<byte>, canSend: int)
    requires Valid(t) && |sdu| < 0x1_0000
    ensures var r := Send(t, sdu, canSend);
            if |sdu| <= (if t.fd then 62 else 7) then
              r.frames == (if canSend == 0 then [SingleFrame(sdu)] else []) && r.code == canSend && r.tp == t
            else if |sdu| <= 1024 then
              && r.frames == (if canSend == 0 then [FirstFrame(sdu, t.fd)] else [])
              && r.code == (if canSend == 0 then 0 else -1) && r.tp.state.TxWaitFc?
              && r.tp.pending[..|sdu|] == sdu
            else r == SendResult(t, [], -2)
  {
    hide SingleFrame, FirstFrame, Patch;
    if (if t.fd then 62 else 7) < |sdu| <= 1024 {
      SendStarts(t, sdu, canSend);
    }
  }
}
