/**
 Whether a reception stays within its buffer, for all first frames that a peer can send, also those that
 announce no more than they carry. For those the count of the bytes still missing wraps around.
 */
module Bounds {
  import opened Bytes
  import opened IsoTp
  import opened Segmentation
  import opened Transmission

  /** The part of the context a reception uses, apart from the buffer. */
  datatype Counters = Counters(receiving: bool, msgLen: u16, done: u16, sn: byte)

  /** A copy of n bytes to position at of the buffer. */
  datatype Copy = Copy(at: nat, n: nat)

  datatype Counted = Counted(now: Counters, copy: Option<Copy>)

  /** A received payload with all the header bytes that are read. */
  predicate AnyFrame(f: Frame) { 1 <= |f| <= MAX_DL_CANFD && (Pci(f) == PCI_FF ==> AnyFirstFrame(f)) }

  predicate AnyEvent(e: TpEvent) { e.Incoming? ==> AnyFrame(e.frame) }

  /** What a frame does to the counters of a receiver with a buffer of room bytes, and what it copies. */
  function CountFrame(c: Counters, room: nat, f: Frame): Counted
    requires AnyFrame(f)
  {
    if Pci(f) == 0 then Counted(c.(receiving := false), None)
    else if Pci(f) == PCI_FF then
      if FfLength(f) < 8 then Counted(c.(receiving := false), None)
      else
        var c1 := Counters(true, FfLength(f), FfCopied(f), 1);
        if room < FfLength(f) then Counted(c1.(receiving := false), None)
        else Counted(c1, Some(Copy(0, FfCopied(f))))
    else if Pci(f) == PCI_CF && c.receiving then
      if f[0] % 16 != c.sn then Counted(c.(receiving := false), None)
      else
        var n := Min(ToU16(c.msgLen - c.done), |f| - 1);
        var done := ToU16(c.done + n);
        Counted(c.(receiving := done < c.msgLen, done := done, sn := (c.sn + 1) % 16), Some(Copy(c.done, n)))
    else Counted(c, None)
  }

  /** Of the engine's own calls only the start of a multi-frame transmission matters. */
  function CountEvent(c: Counters, fd: bool, room: nat, e: TpEvent): Counted
    requires AnyEvent(e)
  {
    match e
    case Submit(sdu, _) => Counted(if Multi(sdu, fd) then c.(receiving := false) else c, None)
    case Clock(_, _) => Counted(c, None)
    case Incoming(f) => CountFrame(c, room, f)
  }

  predicate Inside(copy: Option<Copy>, room: nat) { copy.Some? ==> copy.value.at + copy.value.n <= room }

  predicate AllAny(evs: seq<TpEvent>) { evs == [] || (AnyEvent(evs[0]) && AllAny(evs[1..])) }

  /** Every copy of the run stays within the buffer. */
  predicate AllInside(c: Counters, fd: bool, room: nat, evs: seq<TpEvent>)
    requires AllAny(evs)
    decreases |evs|
  {
    evs == [] ||
    (&& Inside(CountEvent(c, fd, room, evs[0]).copy, room)
     && AllInside(CountEvent(c, fd, room, evs[0]).now, fd, room, evs[1..]))
  }

  // --- the engine, where it is described --------------------------------------------------------------

  /** The counters of the engine while it receives. */
  ghost predicate Counts(c: Counters, t: Tp) {
    && Valid(t) && (c.receiving <==> t.state.RxWaitCf?)
    && (c.receiving ==> c.msgLen == t.msgLen && c.done == t.done && c.sn == t.sn)
  }

  /** On every frame the engine's functions describe, the counters are the engine's. */
  lemma CountersFollowEngine(c: Counters, t: Tp, e: TpEvent)
    requires Counts(c, t) && EventOk(e) && AnyEvent(e)
    ensures Counts(CountEvent(c, t.fd, |t.rx|, e).now, Next(t, e))
  {
    if e.Incoming? {
      if Pci(e.frame) == PCI_CF {
        CountCf(c, t, e.frame);
      } else {
        CountOther(c, t, e.frame);
      }
    } else {
      hide CountFrame, Patch, FirstFrame, SingleFrame, SendCf;
      if e.Clock? && t.state.TxSendingCf? {
        TickSends(t, e.now, e.canSend);
      }
    }
  }

  lemma TickSends(t: Tp, now: u32, canSend: int)
    requires Valid(t) && t.state.TxSendingCf?
    ensures !Tick(t, now, canSend).tp.state.RxWaitCf?
  {
    hide Patch, ConsecutiveFrame;
  }

  lemma CountCf(c: Counters, t: Tp, f: Frame)
    requires Counts(c, t) && WellFormed(f) && AnyFrame(f) && Pci(f) == PCI_CF
    ensures Counts(CountFrame(c, |t.rx|, f).now, Receive(t, f).tp)
  {
    hide Pci, FfLength, Patch, IsDlc, ReceiveSf, ReceiveFf, ReceiveFc;
  }

  lemma CountOther(c: Counters, t: Tp, f: Frame)
    requires Counts(c, t) && WellFormed(f) && AnyFrame(f) && Pci(f) != PCI_CF
    ensures Counts(CountFrame(c, |t.rx|, f).now, Receive(t, f).tp)
  {
    hide Pci, FfLength, Patch, IsDlc, FlowControl, ReceiveCf;
  }

  // --- the exact bound ----------------------------------------------------------------------------------

  /** A full first frame, and a full consecutive frame after it. */
  const SAFE_ROOM := FF_DATA_CANFD + MAX_DL_CANFD - 1

  /** While receiving: either bytes are missing, and the announced length fits, or the first frame alone
      has filled more than was announced. */
  predicate Safe(c: Counters, room: nat) {
    c.receiving ==> 8 <= c.msgLen <= room && (c.done < c.msgLen || c.done <= FF_DATA_CANFD)
  }

  lemma SafeStep(c: Counters, fd: bool, room: nat, e: TpEvent)
    requires AnyEvent(e) && Safe(c, room) && (room < 8 || room >= SAFE_ROOM)
    ensures var r := CountEvent(c, fd, room, e); Inside(r.copy, room) && Safe(r.now, room)
  {
    hide Pci, FfLength;
  }

  lemma {:induction false} SafeRun(c: Counters, fd: bool, room: nat, evs: seq<TpEvent>)
    requires AllAny(evs) && Safe(c, room) && (room < 8 || room >= SAFE_ROOM)
    ensures AllInside(c, fd, room, evs)
    decreases |evs|
  {
    hide AnyEvent, Safe, CountEvent, Inside;
    if evs != [] {
      SafeStep(c, fd, room, evs[0]);
      SafeRun(CountEvent(c, fd, room, evs[0]).now, fd, room, evs[1..]);
    }
  }

  const NOT_RECEIVING := Counters(false, 0, 0, 0)

  /** A full CAN-FD first frame that announces 8 bytes, and a full consecutive frame after it. */
  function ShortOpening(): Frame { Padded([PCI_FF, 8], [], MAX_DL_CANFD) }
  function FullFollower(): Frame { Padded([PCI_CF + 1], [], MAX_DL_CANFD) }

  lemma Overrun(fd: bool, room: nat)
    requires 8 <= room < SAFE_ROOM
    ensures AllAny([Incoming(ShortOpening()), Incoming(FullFollower())])
    ensures !AllInside(NOT_RECEIVING, fd, room, [Incoming(ShortOpening()), Incoming(FullFollower())])
  {
    var f, g := ShortOpening(), FullFollower();
    assert f[..2] == [PCI_FF, 8] && g[..1] == [PCI_CF + 1];
    assert f[0] == PCI_FF && f[1] == 8 && g[0] == PCI_CF + 1;
    OverrunAt(f, g, fd, room);
  }

  lemma OverrunAt(f: Frame, g: Frame, fd: bool, room: nat)
    requires |f| == |g| == MAX_DL_CANFD && f[0] == PCI_FF && f[1] == 8 && g[0] == PCI_CF + 1
    requires 8 <= room < SAFE_ROOM
    ensures AllAny([Incoming(f), Incoming(g)]) && !AllInside(NOT_RECEIVING, fd, room, [Incoming(f), Incoming(g)])
  {
    assert [Incoming(f), Incoming(g)][1..] == [Incoming(g)] && [Incoming(g)][1..] == [];
    var one := CountEvent(NOT_RECEIVING, fd, room, Incoming(f));
    assert one == Counted(Counters(true, 8, 62, 1), Some(Copy(0, 62)));
    var two := CountEvent(one.now, fd, room, Incoming(g));
    assert two.copy == Some(Copy(62, 63));
    assert !AllInside(one.now, fd, room, [Incoming(g)]);
  }

  /** The copies of every run, whatever arrives, stay within the buffer if and only if the buffer is too
      small for any message of more than one frame, or holds a full first and a full consecutive frame. */
  lemma ReceptionInsideIff(fd: bool, room: nat)
    ensures (forall evs :: AllAny(evs) ==> AllInside(NOT_RECEIVING, fd, room, evs)) <==> room < 8 || room >= SAFE_ROOM
    ensures SAFE_ROOM == 125
  {
    if room < 8 || room >= SAFE_ROOM {
      forall evs | AllAny(evs) ensures AllInside(NOT_RECEIVING, fd, room, evs) {
        SafeRun(NOT_RECEIVING, fd, room, evs);
      }
    } else {
      Overrun(fd, room);
    }
  }
}
