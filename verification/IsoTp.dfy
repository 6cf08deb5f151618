/**
 The ISO-TP transport: segmentation into single, first and consecutive frames, flow control on the
 sending side, reassembly on the receiving side. `Tp` is the value of the context; `Send`, `Tick`
 and `Receive` say what one call does to it; class `IsoTpLink` is the imperative engine over real
 buffers, and each of its methods is proved to compute exactly those functions.
 */
module IsoTp {
  import opened Bytes

  // What can_send is given: the first dl bytes of the frame buffer.
  type Frame = seq<byte>

  const PCI_FF := 0x10
  const PCI_CF := 0x20
  const PCI_FC := 0x30
  const FC_CTS := 0
  const MAX_DL_CAN := 8
  const MAX_DL_CANFD := 64
  const SF_MAX_CAN := 7
  const SF_MAX_CANFD := 62
  const FF_DATA_CAN := 6
  const FF_DATA_CANFD := 62
  const PENDING_SIZE := 1024 // size of the cache of the message being sent
  const MAX_SDU_STD := 4095

  datatype TpState = Idle | RxWaitCf | TxWaitFc | TxSendingCf

  datatype Tp = Tp(
    fd: bool,
    blockSize: byte,
    stMin: byte,
    state: TpState,
    msgLen: u16,
    done: u16,          // bytes_processed
    sn: byte,
    bsCounter: byte,
    timerSt: u32,
    pending: seq<byte>, // cache of the message being sent
    rx: seq<byte>)      // reassembly buffer of the configuration

  datatype SendResult = SendResult(tp: Tp, frames: seq<Frame>, code: int)
  datatype TickResult = TickResult(tp: Tp, frames: seq<Frame>)
  datatype RecvResult = RecvResult(tp: Tp, frames: seq<Frame>, sdu: Option<seq<byte>>)

  // ---------------------------------------------------------------------------------------------
  // Frame layouts
  // ---------------------------------------------------------------------------------------------

  /** The payload lengths a CAN or CAN-FD frame can have. */
  predicate IsDlc(dl: nat) {
    dl <= 8 || dl == 12 || dl == 16 || dl == 20 || dl == 24 || dl == 32 || dl == 48 || dl == 64
  }

  /** The smallest payload length that holds len bytes. */
  function DlcAlign(len: nat): (dl: nat)
    requires len <= MAX_DL_CANFD
    ensures IsDlc(dl) && len <= dl
    ensures forall d: nat :: IsDlc(d) && len <= d ==> dl <= d
  {
    if len <= 8 then len
    else if len <= 12 then 12
    else if len <= 16 then 16
    else if len <= 20 then 20
    else if len <= 24 then 24
    else if len <= 32 then 32
    else if len <= 48 then 48
    else 64
  }

  function MaxSf(fd: bool): nat { if fd then SF_MAX_CANFD else SF_MAX_CAN }

  /** Data bytes a first frame carries. */
  function FfData(fd: bool): nat { if fd then FF_DATA_CANFD else FF_DATA_CAN }

  /** Data bytes a full consecutive frame carries. */
  function CfData(fd: bool): nat { if fd then MAX_DL_CANFD - 1 else MAX_DL_CAN - 1 }

  /** header + payload, zero padded to dl bytes. */
  function Padded(header: seq<byte>, payload: seq<byte>, dl: nat): (f: Frame)
    requires |header| + |payload| <= dl
    ensures |f| == dl
    ensures f[..|header|] == header
    ensures f[|header|..|header| + |payload|] == payload
  {
    header + payload + Zeros(dl - |header| - |payload|)
  }

  function SingleFrame(sdu: seq<byte>): Frame
    requires |sdu| <= SF_MAX_CANFD
  {
    if |sdu| <= SF_MAX_CAN then Padded([|sdu|], sdu, MAX_DL_CAN)
    else Padded([0, |sdu|], sdu, DlcAlign(|sdu| + 2))
  }

  function FirstFrame(sdu: seq<byte>, fd: bool): Frame
    requires MaxSf(fd) < |sdu| <= MAX_SDU_STD
  {
    Padded([PCI_FF + |sdu| / 256, |sdu| % 256], sdu[..FfData(fd)], if fd then DlcAlign(2 + FfData(fd)) else MAX_DL_CAN)
  }

  function ConsecutiveFrame(sn: byte, chunk: seq<byte>, fd: bool): Frame
    requires sn < 16 && |chunk| <= CfData(fd)
  {
    Padded([PCI_CF + sn], chunk, if fd then DlcAlign(1 + |chunk|) else MAX_DL_CAN)
  }

  function FlowControl(blockSize: byte, stMin: byte): Frame {
    Padded([PCI_FC + FC_CTS, blockSize, stMin], [], 8)
  }

  // ---------------------------------------------------------------------------------------------
  // One call of the engine, as a function of its state
  // ---------------------------------------------------------------------------------------------

  predicate Sending(t: Tp) { t.state.TxWaitFc? || t.state.TxSendingCf? }

  ghost predicate Valid(t: Tp) {
    && |t.pending| == PENDING_SIZE
    && |t.rx| < 0x1_0000
    && t.sn < 16
    && (Sending(t) ==> t.done <= t.msgLen <= PENDING_SIZE)
    && (t.state.RxWaitCf? ==> t.done < t.msgLen <= |t.rx| && t.msgLen <= MAX_SDU_STD)
  }

  /** The part of a transmission that fits no single frame; code -2 refuses what the cache cannot hold. */
  function SendMulti(t: Tp, sdu: seq<byte>, canSend: int): SendResult
    requires Valid(t) && MaxSf(t.fd) < |sdu| < 0x1_0000
  {
    if |sdu| > PENDING_SIZE then SendResult(t, [], -2)
    else
      var t' := t.(pending := Patch(t.pending, 0, sdu), msgLen := |sdu|,
                   state := TxWaitFc, done := FfData(t.fd), sn := 1);
      if canSend == 0 then SendResult(t', [FirstFrame(sdu, t.fd)], 0) else SendResult(t', [], -1)
  }

  /** uds_isotp_send; frames are those the driver accepted (canSend == 0). */
  function Send(t: Tp, sdu: seq<byte>, canSend: int): (r: SendResult)
    requires Valid(t) && |sdu| < 0x1_0000
    ensures Valid(r.tp) && r.tp.fd == t.fd && r.tp.rx == t.rx
  {
    if |sdu| <= MaxSf(t.fd) then SendResult(t, if canSend == 0 then [SingleFrame(sdu)] else [], canSend)
    else SendMulti(t, sdu, canSend)
  }

  /** The separation time, in milliseconds, an STmin byte asks for. */
  function DecodeStMin(st: byte): (ms: nat)
    ensures ms <= 0x7F
  {
    if 0xF1 <= st <= 0xF9 then 1 else if st > 0x7F then 0 else st
  }

  predicate BlockEnded(t: Tp) { t.blockSize > 0 && t.bsCounter >= t.blockSize }

  /** The next consecutive frame of the message being sent. */
  function SendCf(t: Tp, now: u32, canSend: int): TickResult
    requires Valid(t) && t.state.TxSendingCf?
  {
    if canSend != 0 then TickResult(t, [])
    else
      var n := Min(t.msgLen - t.done, CfData(t.fd));
      TickResult(
        t.(done := t.done + n, sn := (t.sn + 1) % 16, bsCounter := ToByte(t.bsCounter + 1), timerSt := now,
           state := if t.done + n >= t.msgLen then Idle else TxSendingCf),
        [ConsecutiveFrame(t.sn, t.pending[t.done..t.done + n], t.fd)])
  }

  /** uds_tp_isotp_process. */
  function Tick(t: Tp, now: u32, canSend: int): (r: TickResult)
    requires Valid(t)
    ensures Valid(r.tp) && r.tp.fd == t.fd && r.tp.rx == t.rx
  {
    if t.state.TxSendingCf? && t.done == t.msgLen then TickResult(t.(state := Idle), [])
    else if !t.state.TxSendingCf? || Elapsed(now, t.timerSt) < DecodeStMin(t.stMin) then TickResult(t, [])
    else if BlockEnded(t) then TickResult(t.(state := TxWaitFc, bsCounter := 0), [])
    else SendCf(t, now, canSend)
  }

  function Pci(f: Frame): byte
    requires |f| > 0
  {
    f[0] - f[0] % 16
  }

  function FfLength(f: Frame): u16
    requires |f| >= 2
  {
    var hi: int := f[0] % 16;
    hi * 256 + f[1]
  }

  /** What the engine relies on when it reads a received payload: a first frame and a flow control
      frame have all their header bytes, and a first frame announces more than it carries. */
  predicate WellFormed(f: Frame) {
    && 1 <= |f| <= MAX_DL_CANFD
    && (Pci(f) == PCI_FF ==> |f| >= 8 && (|f| > 8 && FfLength(f) >= 8 ==> FfLength(f) > |f| - 2))
    && (Pci(f) == PCI_FC ==> |f| >= 3)
  }

  /** A first frame with all its header bytes; what it announces is not restricted. */
  predicate AnyFirstFrame(f: Frame) { 8 <= |f| <= MAX_DL_CANFD && IsDlc(|f|) && Pci(f) == PCI_FF }

  /** How many bytes of a first frame are copied to the reassembly buffer. */
  function FfCopied(f: Frame): nat
    requires AnyFirstFrame(f)
  {
    if |f| > MAX_DL_CAN then |f| - 2 else FF_DATA_CAN
  }

  /** The copy stays within a buffer of room bytes, if the announced length is let through at all. */
  predicate CopyFits(f: Frame, room: nat)
    requires AnyFirstFrame(f)
  {
    8 <= FfLength(f) <= room ==> FfCopied(f) <= room
  }

  /** The engine compares the buffer with the announced length only, so the copy of every first frame
      fits if and only if the buffer holds a full CAN-FD first frame, or no first frame at all; when
      a frame announces more than it carries it fits any buffer. The consecutive frame that may follow
      needs more room: module Bounds. */
  lemma EveryCopyFitsIff(room: nat)
    ensures (forall f :: AnyFirstFrame(f) ==> CopyFits(f, room)) <==> room < 8 || room >= FF_DATA_CANFD
    ensures forall f :: AnyFirstFrame(f) && WellFormed(f) ==> CopyFits(f, room)
  {
    if 8 <= room < FF_DATA_CANFD {
      var f := Padded([PCI_FF, 8], [], MAX_DL_CANFD);
      assert f[..2] == [PCI_FF, 8];
      assert f[0] == PCI_FF && f[1] == 8;
      assert AnyFirstFrame(f) && !CopyFits(f, room);
    }
  }

  function ReceiveSf(t: Tp, f: Frame): (r: RecvResult)
    requires Valid(t) && WellFormed(f) && Pci(f) == 0
    ensures Valid(r.tp) && r.tp.fd == t.fd && |r.tp.rx| == |t.rx|
    ensures r.sdu.Some? ==> r.tp.state.Idle? && 1 <= |r.sdu.value| <= MAX_SDU_STD
  {
    var idle := t.(state := Idle);
    if f[0] % 16 != 0 then
      var n := f[0] % 16;
      RecvResult(idle, [], if n > |f| - 1 then None else Some(f[1..1 + n]))
    else if |f| < 2 || f[1] == 0 || f[1] > |f| - 2 then RecvResult(idle, [], None)
    else RecvResult(idle, [], Some(f[2..2 + f[1]]))
  }

  function ReceiveFf(t: Tp, f: Frame): (r: RecvResult)
    requires Valid(t) && WellFormed(f) && Pci(f) == PCI_FF
    ensures Valid(r.tp) && r.tp.fd == t.fd && |r.tp.rx| == |t.rx|
  {
    if FfLength(f) < 8 then RecvResult(t.(state := Idle), [], None)
    else
      var n := if |f| > MAX_DL_CAN then |f| - 2 else FF_DATA_CAN;
      var t' := t.(msgLen := FfLength(f), done := n, sn := 1);
      if |t.rx| < FfLength(f) then RecvResult(t'.(state := Idle), [], None)
      else
        RecvResult(t'.(state := RxWaitCf, rx := Patch(t.rx, 0, f[2..2 + n])),
                   [FlowControl(t.blockSize, t.stMin)], None)
  }

  function ReceiveCf(t: Tp, f: Frame): (r: RecvResult)
    requires Valid(t) && WellFormed(f) && Pci(f) == PCI_CF
    ensures Valid(r.tp) && r.tp.fd == t.fd && |r.tp.rx| == |t.rx|
    ensures r.sdu.Some? ==> r.tp.state.Idle? && 1 <= |r.sdu.value| <= MAX_SDU_STD
  {
    if !t.state.RxWaitCf? then RecvResult(t, [], None)
    else if f[0] % 16 != t.sn then RecvResult(t.(state := Idle), [], None)
    else
      var n := Min(t.msgLen - t.done, |f| - 1);
      var t' := t.(sn := (t.sn + 1) % 16, rx := Patch(t.rx, t.done, f[1..1 + n]), done := t.done + n);
      if t.done + n >= t.msgLen then RecvResult(t'.(state := Idle), [], Some(t'.rx[..t.msgLen]))
      else RecvResult(t', [], None)
  }

  function ReceiveFc(t: Tp, f: Frame): (r: RecvResult)
    requires Valid(t) && WellFormed(f) && Pci(f) == PCI_FC
    ensures Valid(r.tp) && r.tp.fd == t.fd && |r.tp.rx| == |t.rx|
  {
    if t.state.TxWaitFc? && f[0] % 16 == FC_CTS then
      RecvResult(t.(state := TxSendingCf, blockSize := f[1], stMin := f[2]), [], None)
    else RecvResult(t, [], None)
  }

  /** uds_isotp_rx_callback for a frame with the right identifier; sdu is what goes up to the core. */
  function Receive(t: Tp, f: Frame): (r: RecvResult)
    requires Valid(t) && WellFormed(f)
    ensures Valid(r.tp) && r.tp.fd == t.fd && |r.tp.rx| == |t.rx|
    ensures r.sdu.Some? ==> r.tp.state.Idle? && 1 <= |r.sdu.value| <= MAX_SDU_STD
  {
    var pci := Pci(f);
    if pci == 0 then ReceiveSf(t, f)
    else if pci == PCI_FF then ReceiveFf(t, f)
    else if pci == PCI_CF then ReceiveCf(t, f)
    else if pci == PCI_FC then ReceiveFc(t, f)
    else RecvResult(t, [], None)
  }

  // ---------------------------------------------------------------------------------------------
  // The engine
  // ---------------------------------------------------------------------------------------------

  /** The transport context with its two buffers. The driver's verdict on a frame is the argument
      canSend (0 accepts); bus is what has been handed to it so far. The reception of single and
      consecutive frames calls up into the core and is in NodeEngine. */
  class IsoTpLink {
    const txId: u32
    const rxId: u32
    const pending: array<byte>
    const rx: array<byte>
    var fd: bool
    var blockSize: byte
    var stMin: byte
    var state: TpState
    var msgLen: u16
    var bytesProcessed: u16
    var sn: byte
    var bsCounter: byte
    var timerSt: u32
    ghost var bus: seq<Frame>

    ghost predicate Repr()
      reads this, pending, rx
    {
      pending != rx && Valid(View())
    }

    ghost function View(): Tp
      reads this, pending, rx
    {
      Tp(fd, blockSize, stMin, state, msgLen, bytesProcessed, sn, bsCounter, timerSt, pending[..], rx[..])
    }

    constructor (txId: u32, rxId: u32, rxBuffer: array<byte>)
      requires rxBuffer.Length < 0x1_0000
      ensures Repr() && fresh(pending) && rx == rxBuffer && this.txId == txId && this.rxId == rxId && bus == []
      ensures View() == Tp(false, 8, 0, Idle, 0, 0, 0, 0, 0, Zeros(PENDING_SIZE), rxBuffer[..])
    {
      this.txId, this.rxId, rx := txId, rxId, rxBuffer;
      fd, blockSize, stMin, state := false, 8, 0, Idle;
      msgLen, bytesProcessed, sn, bsCounter, timerSt := 0, 0, 0, 0, 0;
      pending := new byte[PENDING_SIZE](_ => 0);
      bus := [];
      new;
      assert pending[..] == Zeros(PENDING_SIZE);
    }

    method SetFd(enabled: bool)
      requires Repr()
      modifies this`fd
      ensures Repr() && View() == old(View()).(fd := enabled)
    {
      fd := enabled;
    }

    /** Fills a zeroed 64-byte frame buffer with header and payload and hands over its first dl bytes. */
    static method BuildFrame(header: seq<byte>, payload: seq<byte>, dl: nat) returns (frame: Frame)
      requires |header| + |payload| <= dl <= MAX_DL_CANFD
      ensures frame == Padded(header, payload, dl)
    {
      var buf := new byte[MAX_DL_CANFD](_ => 0);
      assert buf[..] == Zeros(MAX_DL_CANFD);
      CopyInto(buf, 0, header);
      assert buf[..] == header + Zeros(MAX_DL_CANFD - |header|);
      CopyInto(buf, |header|, payload);
      assert buf[..] == header + payload + Zeros(MAX_DL_CANFD - |header| - |payload|);
      frame := buf[..dl];
    }

    /** uds_internal_tp_send_frame. */
    method HandOver(frame: Frame, canSend: int) returns (code: int)
      modifies this`bus
      ensures code == canSend && bus == old(bus) + if canSend == 0 then [frame] else []
    {
      if canSend == 0 {
        bus := bus + [frame];
      }
      return canSend;
    }

    method SendSingle(data: seq<byte>, canSend: int) returns (code: int)
      requires |data| <= SF_MAX_CANFD
      modifies this`bus
      ensures code == canSend && bus == old(bus) + if canSend == 0 then [SingleFrame(data)] else []
    {
      var frame;
      if |data| <= SF_MAX_CAN {
        frame := BuildFrame([|data|], data, MAX_DL_CAN);
      } else {
        frame := BuildFrame([0, |data|], data, DlcAlign(|data| + 2));
      }
      code := HandOver(frame, canSend);
    }

    method StartMulti(data: seq<byte>, canSend: int) returns (code: int)
      requires Repr() && MaxSf(fd) < |data| < 0x1_0000
      modifies this, pending
      ensures Repr()
      ensures var r := SendMulti(old(View()), data, canSend);
              View() == r.tp && bus == old(bus) + r.frames && code == r.code
    {
      hide Padded, Patch;
      if |data| > MAX_SDU_STD || |data| > pending.Length {
        return -2;
      }
      CopyInto(pending, 0, data);
      msgLen := |data|;
      bytesProcessed := 0;
      state := TxWaitFc;
      var toCopy := Min(|data|, FfData(fd));
      var frame := BuildFrame([PCI_FF + |data| / 256 % 16, |data| % 256], data[..toCopy],
                              if fd then DlcAlign(2 + toCopy) else MAX_DL_CAN);
      bytesProcessed := toCopy;
      sn := 1;
      var sent := HandOver(frame, canSend);
      if sent != 0 {
        return -1;
      }
      return 0;
    }

    method Transmit(data: seq<byte>, canSend: int) returns (code: int)
      requires Repr() && |data| < 0x1_0000
      modifies this, pending
      ensures Repr()
      ensures var r := Send(old(View()), data, canSend);
              View() == r.tp && bus == old(bus) + r.frames && code == r.code
    {
      if |data| <= MaxSf(fd) {
        code := SendSingle(data, canSend);
        return;
      }
      code := StartMulti(data, canSend);
    }

    method SendConsecutive(now: u32, canSend: int)
      requires Repr() && state.TxSendingCf?
      modifies this
      ensures Repr()
      ensures var r := SendCf(old(View()), now, canSend);
              View() == r.tp && bus == old(bus) + r.frames
    {
      hide Padded;
      var toCopy := Min(msgLen - bytesProcessed, CfData(fd));
      var frame := BuildFrame([PCI_CF + sn], pending[bytesProcessed..bytesProcessed + toCopy],
                              if fd then DlcAlign(1 + toCopy) else MAX_DL_CAN);
      var sent := HandOver(frame, canSend);
      if sent == 0 {
        bytesProcessed := bytesProcessed + toCopy;
        sn := (sn + 1) % 16;
        bsCounter := ToByte(bsCounter + 1);
        timerSt := now;
        if bytesProcessed >= msgLen {
          state := Idle;
        }
      }
    }

    method Process(now: u32, canSend: int)
      requires Repr()
      modifies this
      ensures Repr()
      ensures var r := Tick(old(View()), now, canSend);
              View() == r.tp && bus == old(bus) + r.frames
    {
      if state == TxSendingCf {
        var remaining := msgLen - bytesProcessed;
        if remaining == 0 {
          state := Idle;
          return;
        }
        var elapsed := Elapsed(now, timerSt);
        var required: nat := stMin;
        if 0xF1 <= required <= 0xF9 {
          required := 1;
        } else if required > 0x7F {
          required := 0;
        }
        if elapsed < required {
          return;
        }
        if blockSize > 0 && bsCounter >= blockSize {
          state := TxWaitFc;
          bsCounter := 0;
          return;
        }
        SendConsecutive(now, canSend);
      }
    }

    /** The driver's verdict on the flow control is ignored. */
    method OnFirst(f: Frame)
      requires Repr() && WellFormed(f) && Pci(f) == PCI_FF
      modifies this, rx
      ensures Repr()
      ensures var r := ReceiveFf(old(View()), f);
              View() == r.tp && bus == old(bus) + r.frames
    {
      hide Padded, Patch;
      state := Idle;
      var hi: int := f[0] % 16;
      var sduLen := hi * 256 + f[1];
      if sduLen < 8 {
        return;
      }
      msgLen := sduLen;
      var dataInFf := if |f| > MAX_DL_CAN then |f| - 2 else FF_DATA_CAN;
      bytesProcessed := dataInFf;
      sn := 1;
      state := RxWaitCf;
      if rx.Length < sduLen {
        state := Idle;
        return;
      }
      CopyInto(rx, 0, f[2..2 + dataInFf]);
      var fc := BuildFrame([PCI_FC + FC_CTS, blockSize, stMin], [], 8);
      bus := bus + [fc];
    }

    /** Takes over the data of a consecutive frame that is in turn. */
    method Store(f: Frame)
      requires Repr() && WellFormed(f) && state.RxWaitCf?
      modifies this`sn, this`bytesProcessed, rx
      ensures var n := Min(old(msgLen - bytesProcessed), |f| - 1);
              && sn == (old(sn) + 1) % 16 && bytesProcessed == old(bytesProcessed) + n
              && rx[..] == Patch(old(rx[..]), old(bytesProcessed), f[1..1 + n]) && pending[..] == old(pending[..])
    {
      sn := (sn + 1) % 16;
      var toCopy := Min(msgLen - bytesProcessed, |f| - 1);
      CopyInto(rx, bytesProcessed, f[1..1 + toCopy]);
      bytesProcessed := bytesProcessed + toCopy;
    }

    method OnFlowControl(f: Frame)
      requires Repr() && WellFormed(f) && Pci(f) == PCI_FC
      modifies this
      ensures Repr() && RecvResult(View(), [], None) == ReceiveFc(old(View()), f) && bus == old(bus)
    {
      if state != TxWaitFc {
        return;
      }
      if f[0] % 16 == FC_CTS {
        state := TxSendingCf;
        blockSize := f[1];
        stMin := f[2];
      }
    }
  }
}
