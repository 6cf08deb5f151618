/**
 Whole runs of the sending side: what it puts on the bus, that it finishes, and the round trip with
 a receiver in an environment that grants every request to continue.
 */
module Transmission {
  import opened Bytes
  import opened IsoTp
  import opened Segmentation

  // ---------------------------------------------------------------------------------------------
  // Events and runs
  // ---------------------------------------------------------------------------------------------

  datatype TpEvent =
    | Submit(sdu: seq<byte>, canSend: int) // uds_isotp_send
    | Clock(now: u32, canSend: int)        // uds_tp_isotp_process
    | Incoming(frame: Frame)               // uds_isotp_rx_callback

  predicate EventOk(e: TpEvent) {
    match e
    case Submit(sdu, _) => |sdu| < 0x1_0000
    case Clock(_, _) => true
    case Incoming(f) => WellFormed(f)
  }

  function Next(t: Tp, e: TpEvent): (t': Tp)
    requires Valid(t) && EventOk(e)
    ensures Valid(t') && t'.fd == t.fd && |t'.rx| == |t.rx|
  {
    match e
    case Submit(sdu, canSend) => Send(t, sdu, canSend).tp
    case Clock(now, canSend) => Tick(t, now, canSend).tp
    case Incoming(f) => Receive(t, f).tp
  }

  /** The consecutive frame, if any, that an event makes the engine emit. */
  function CfOut(t: Tp, e: TpEvent): seq<Frame>
    requires Valid(t) && EventOk(e)
  {
    if e.Clock? then Tick(t, e.now, e.canSend).frames else []
  }

  predicate AllOk(evs: seq<TpEvent>) { evs == [] || (EventOk(evs[0]) && AllOk(evs[1..])) }

  datatype TpRun = TpRun(tp: Tp, cfs: seq<Frame>)

  function Run(t: Tp, evs: seq<TpEvent>): (r: TpRun)
    requires Valid(t) && AllOk(evs)
    ensures Valid(r.tp) && r.tp.fd == t.fd
    decreases |evs|
  {
    if evs == [] then TpRun(t, [])
    else
      var rest := Run(Next(t, evs[0]), evs[1..]);
      TpRun(rest.tp, CfOut(t, evs[0]) + rest.cfs)
  }

  /** Events that leave a transmission alone: ticks, messages sent in between that are short, or too
      long to be accepted, and frames other than an opening one. */
  predicate Quiet(fd: bool, e: TpEvent) {
    EventOk(e) &&
    match e
    case Submit(sdu, _) => !Multi(sdu, fd)
    case Clock(_, _) => true
    case Incoming(f) => Pci(f) != 0 && Pci(f) != PCI_FF
  }

  predicate AllQuiet(fd: bool, evs: seq<TpEvent>)
    ensures AllQuiet(fd, evs) ==> AllOk(evs)
  {
    evs == [] || (Quiet(fd, evs[0]) && AllQuiet(fd, evs[1..]))
  }

  // ---------------------------------------------------------------------------------------------
  // The invariant of a transmission
  // ---------------------------------------------------------------------------------------------

  /** The sender is about to emit consecutive frame k of sdu, all earlier frames being out. */
  ghost predicate AtFrame(t: Tp, sdu: seq<byte>, k: nat) {
    && Valid(t) && More(sdu, t.fd, k) && Sending(t)
    && t.msgLen == |sdu| && t.done == Offset(t.fd, k) && t.sn == (1 + k) % 16
    && t.pending[..|sdu|] == sdu
  }

  ghost predicate AtFrameOrDone(t: Tp, sdu: seq<byte>, k: nat) {
    && Multi(sdu, t.fd)
    && if More(sdu, t.fd, k) then AtFrame(t, sdu, k) else t.state.Idle?
  }

  lemma AtFrameFacts(t: Tp, sdu: seq<byte>, k: nat)
    requires AtFrame(t, sdu, k)
    ensures Valid(t) && Multi(sdu, t.fd) && More(sdu, t.fd, k) && !t.state.Idle?
  {
  }

  lemma SendStarts(t: Tp, sdu: seq<byte>, canSend: int)
    requires Valid(t) && Multi(sdu, t.fd)
    ensures var r := Send(t, sdu, canSend);
            && AtFrame(r.tp, sdu, 0) && r.tp.state.TxWaitFc? && r.tp.bsCounter == t.bsCounter
            && (canSend == 0 ==> r.frames == [FirstFrame(sdu, t.fd)] && r.code == 0)
  {
    hide FirstFrame, Patch;
    assert Patch(t.pending, 0, sdu)[..|sdu|] == sdu;
  }

  lemma SendsCf(t: Tp, sdu: seq<byte>, k: nat, now: u32)
    requires AtFrame(t, sdu, k) && t.state.TxSendingCf?
    ensures var r := SendCf(t, now, 0);
            && r.frames == [Cf(sdu, t.fd, k)]
            && AtFrameOrDone(r.tp, sdu, k + 1)
            && (More(sdu, t.fd, k + 1) ==> r.tp.state.TxSendingCf?)
  {
    hide ConsecutiveFrame, Pci, WellFormed;
    var n := ChunkSize(sdu, t.fd, k);
    assert n == Min(t.msgLen - t.done, CfData(t.fd));
    SliceOfPrefix(t.pending, |sdu|, t.done, t.done + n);
  }

  /** One quiet event: either nothing is emitted and the sender stays where it is, or exactly the
      next consecutive frame is. */
  lemma SenderStep(t: Tp, sdu: seq<byte>, k: nat, e: TpEvent)
    requires AtFrame(t, sdu, k) && Quiet(t.fd, e)
    ensures var out := CfOut(t, e);
            || (out == [] && AtFrame(Next(t, e), sdu, k))
            || (out == [Cf(sdu, t.fd, k)] && AtFrameOrDone(Next(t, e), sdu, k + 1))
  {
    hide Cf, Pci, SendCf;
    if e.Clock? && t.state.TxSendingCf? && !BlockEnded(t) && Elapsed(e.now, t.timerSt) >= DecodeStMin(t.stMin) {
      if e.canSend == 0 {
        SendsCf(t, sdu, k, e.now);
      } else {
        SendFails(t, e.now, e.canSend);
      }
    }
  }

  lemma TickEmits(t: Tp, now: u32, canSend: int)
    requires Valid(t)
    ensures var out := Tick(t, now, canSend);
            out.frames != [] ==>
              && t.state.TxSendingCf? && !BlockEnded(t) && canSend == 0 && out == SendCf(t, now, 0)
              && out.tp.bsCounter == ToByte(t.bsCounter + 1) && out.tp.blockSize == t.blockSize
  {
  }

  lemma SendFails(t: Tp, now: u32, canSend: int)
    requires Valid(t) && t.state.TxSendingCf? && canSend != 0
    ensures SendCf(t, now, canSend) == TickResult(t, [])
  {
  }

  lemma IdleStep(t: Tp, e: TpEvent)
    requires Valid(t) && t.state.Idle? && Quiet(t.fd, e)
    ensures Next(t, e) == t && CfOut(t, e) == []
  {
    hide Pci;
  }

  lemma {:induction false} IdleRun(t: Tp, evs: seq<TpEvent>)
    requires Valid(t) && t.state.Idle? && AllQuiet(t.fd, evs)
    ensures Run(t, evs) == TpRun(t, [])
  {
    if evs != [] {
      IdleStep(t, evs[0]);
      IdleRun(t, evs[1..]);
    }
  }

  /** Transfer invariant: over any run of quiet events, from frame k on, the engine emits the
      consecutive frames of the message in order and without gaps, whatever the block sizes,
      separation times, driver failures and interleaved short messages, and it is idle exactly
      when the last one is out. */
  lemma {:induction false} TransferInvariant(t: Tp, sdu: seq<byte>, k: nat, evs: seq<TpEvent>) returns (k': nat)
    requires AtFrame(t, sdu, k) && AllQuiet(t.fd, evs)
    ensures k <= k' && (k < k' ==> More(sdu, t.fd, k' - 1))
    ensures Run(t, evs).cfs == CfsBetween(sdu, t.fd, k, k')
    ensures AtFrameOrDone(Run(t, evs).tp, sdu, k')
    decreases |evs|
  {
    hide AtFrame, Valid, Quiet, Next, CfOut, Cf, Offset, MaxSf, Multi, WellFormed;
    AtFrameFacts(t, sdu, k);
    k' := k;
    if evs != [] {
      SenderStep(t, sdu, k, evs[0]);
      var t' := Next(t, evs[0]);
      if CfOut(t, evs[0]) == [] {
        k' := TransferInvariant(t', sdu, k, evs[1..]);
      } else if More(sdu, t.fd, k + 1) {
        k' := TransferInvariant(t', sdu, k + 1, evs[1..]);
      } else {
        IdleRun(t', evs[1..]);
        k' := k + 1;
      }
    }
  }

  /** Exactly the events that end a transmission before its time: an opening frame coming in, of
      whatever content, and the sending of another message that fits no single frame. */
  lemma TransmissionSurvivesIff(t: Tp, sdu: seq<byte>, k: nat, e: TpEvent)
    requires AtFrame(t, sdu, k) && EventOk(e)
    ensures var out, t' := CfOut(t, e), Next(t, e);
            || (out == [] && AtFrame(t', sdu, k))
            || (out == [Cf(sdu, t.fd, k)] && AtFrameOrDone(t', sdu, k + 1))
            <==> Quiet(t.fd, e) || (e.Submit? && e.sdu == sdu && k == 0)
  {
    hide Cf, Pci;
    if Quiet(t.fd, e) {
      SenderStep(t, sdu, k, e);
    } else if e.Submit? {
      SendStarts(t, e.sdu, e.canSend);
    } else {
      OpeningEnds(t, e.frame);
    }
  }

  /** An opening frame that comes in takes the engine away from whatever it was sending. */
  lemma OpeningEnds(t: Tp, f: Frame)
    requires Valid(t) && WellFormed(f) && (Pci(f) == 0 || Pci(f) == PCI_FF)
    ensures !Sending(Receive(t, f).tp)
  {
    hide Pci, FfLength, Patch, FlowControl;
  }

  /** What is lost stays lost: after such a frame the rest of the message is never sent, and nobody
      is told, however long the engine runs. */
  lemma AbandonedForGood(t: Tp, sdu: seq<byte>, k: nat, f: Frame, evs: seq<TpEvent>)
    requires AtFrame(t, sdu, k) && WellFormed(f) && (Pci(f) == 0 || Pci(f) == PCI_FF)
    requires AllQuiet(t.fd, evs)
    ensures Run(t, [Incoming(f)] + evs).cfs == []
  {
    hide Receive, Pci, AtFrame, Valid, AllQuiet;
    AtFrameFacts(t, sdu, k);
    OpeningEnds(t, f);
    assert ([Incoming(f)] + evs)[1..] == evs;
    SilentRun(Receive(t, f).tp, evs);
  }

  lemma {:induction false} SilentRun(t: Tp, evs: seq<TpEvent>)
    requires Valid(t) && !Sending(t) && AllQuiet(t.fd, evs)
    ensures Run(t, evs).cfs == [] && !Sending(Run(t, evs).tp)
    decreases |evs|
  {
    if evs != [] {
      SilentStep(t, evs[0]);
      SilentRun(Next(t, evs[0]), evs[1..]);
    }
  }

  lemma SilentStep(t: Tp, e: TpEvent)
    requires Valid(t) && !Sending(t) && Quiet(t.fd, e)
    ensures CfOut(t, e) == [] && !Sending(Next(t, e))
  {
    hide Pci, Patch;
  }

  // ---------------------------------------------------------------------------------------------
  // Termination
  // ---------------------------------------------------------------------------------------------

  /** The environment does its part: a waiting sender gets a clear to send (with any block size and
      separation time), a sending one a tick after its separation time that the driver accepts. */
  predicate Fair(t: Tp, e: TpEvent)
    requires EventOk(e)
  {
    && (t.state.TxWaitFc? ==> e.Incoming? && Pci(e.frame) == PCI_FC && e.frame[0] % 16 == FC_CTS)
    && (t.state.TxSendingCf? ==> e.Clock? && e.canSend == 0 && Elapsed(e.now, t.timerSt) >= DecodeStMin(t.stMin))
  }

  predicate FairRun(t: Tp, evs: seq<TpEvent>)
    requires Valid(t)
    ensures FairRun(t, evs) ==> AllOk(evs)
    decreases |evs|
  {
    evs == [] || (Quiet(t.fd, evs[0]) && Fair(t, evs[0]) && FairRun(Next(t, evs[0]), evs[1..]))
  }

  /** Fair steps a sender with so many consecutive frames left may still need. */
  function Potential(t: Tp, left: nat): nat {
    if left == 0 then 0
    else 3 * left - 3 + (if t.state.TxSendingCf? then (if BlockEnded(t) then 3 else 1)
                         else if t.bsCounter == 0 then 2 else 4)
  }

  lemma FairStep(t: Tp, sdu: seq<byte>, k: nat, e: TpEvent)
    requires AtFrame(t, sdu, k) && Quiet(t.fd, e) && Fair(t, e)
    ensures var left := |CfsFrom(sdu, t.fd, k)|;
            var t' := Next(t, e);
            || (CfOut(t, e) == [] && AtFrame(t', sdu, k) && Potential(t', left) < Potential(t, left))
            || (CfOut(t, e) == [Cf(sdu, t.fd, k)] && AtFrameOrDone(t', sdu, k + 1)
                && Potential(t', left - 1) < Potential(t, left))
  {
    SenderStep(t, sdu, k, e);
    hide Cf, CfsFrom, AtFrame, AtFrameOrDone, Pci;
  }

  /** A transmission terminates: whatever block sizes and separation times the grants carry and
      however stale the block counter is, a fair run of Potential steps ends idle with every
      consecutive frame emitted. */
  lemma {:induction false} Terminates(t: Tp, sdu: seq<byte>, k: nat, evs: seq<TpEvent>)
    requires AtFrame(t, sdu, k) && FairRun(t, evs)
    requires |evs| >= Potential(t, |CfsFrom(sdu, t.fd, k)|)
    ensures Run(t, evs).tp.state.Idle? && Run(t, evs).cfs == CfsFrom(sdu, t.fd, k)
    decreases |evs|
  {
    hide AtFrame, Valid, Quiet, Next, CfOut, Cf, Fair, Offset, MaxSf, Multi, WellFormed, BlockEnded;
    AtFrameFacts(t, sdu, k);
    FairStep(t, sdu, k, evs[0]);
    var t' := Next(t, evs[0]);
    if CfOut(t, evs[0]) == [] {
      Terminates(t', sdu, k, evs[1..]);
    } else if More(sdu, t.fd, k + 1) {
      Terminates(t', sdu, k + 1, evs[1..]);
    } else {
      FairIdleRun(t', evs[1..]);
    }
  }

  /** Fair runs of every length exist, from every state of a transmission and with any choice of block
      size and separation time in the grants. */
  lemma {:induction false} FairRunExists(t: Tp, n: nat, blockSize: byte, stMin: byte) returns (evs: seq<TpEvent>)
    requires Valid(t)
    ensures FairRun(t, evs) && |evs| == n
    decreases n
  {
    hide Next, Valid, FlowControl;
    evs := [];
    if n > 0 {
      var e := if t.state.TxWaitFc? then Incoming(FlowControl(blockSize, stMin)) else FairTick(t);
      FcFacts(blockSize, stMin);
      FairTickFacts(t);
      var rest := FairRunExists(Next(t, e), n - 1, blockSize, stMin);
      evs := [e] + rest;
      assert evs[1..] == rest;
    }
  }

  /** A tick of an accepting driver at the moment the separation time is over. */
  function FairTick(t: Tp): TpEvent { Clock((t.timerSt + DecodeStMin(t.stMin)) % 0x1_0000_0000, 0) }

  lemma FairTickFacts(t: Tp)
    ensures Elapsed(FairTick(t).now, t.timerSt) == DecodeStMin(t.stMin)
  {
  }

  lemma {:induction false} FairIdleRun(t: Tp, evs: seq<TpEvent>)
    requires Valid(t) && t.state.Idle? && FairRun(t, evs)
    ensures Run(t, evs) == TpRun(t, [])
    decreases |evs|
  {
    if evs != [] {
      IdleStep(t, evs[0]);
      FairIdleRun(t, evs[1..]);
    }
  }

  // ---------------------------------------------------------------------------------------------
  // A first frame that the driver refuses
  // ---------------------------------------------------------------------------------------------

  predicate ClearToSend(e: TpEvent) {
    e.Incoming? && WellFormed(e.frame) && Pci(e.frame) == PCI_FC && e.frame[0] % 16 == FC_CTS
  }

  predicate NoneClear(evs: seq<TpEvent>) { evs == [] || (!ClearToSend(evs[0]) && NoneClear(evs[1..])) }

  /** Without a clear to send a waiting sender does nothing, and goes on waiting. */
  lemma {:induction false} WaitsForClear(t: Tp, sdu: seq<byte>, evs: seq<TpEvent>)
    requires AtFrame(t, sdu, 0) && t.state.TxWaitFc? && AllQuiet(t.fd, evs) && NoneClear(evs)
    ensures Run(t, evs).cfs == [] && AtFrame(Run(t, evs).tp, sdu, 0) && Run(t, evs).tp.state.TxWaitFc?
    decreases |evs|
  {
    hide AtFrame, Valid, Quiet, Next, CfOut, Cf, WellFormed, ClearToSend;
    AtFrameFacts(t, sdu, 0);
    if evs != [] {
      WaitsStep(t, sdu, evs[0]);
      WaitsForClear(Next(t, evs[0]), sdu, evs[1..]);
    }
  }

  lemma WaitsStep(t: Tp, sdu: seq<byte>, e: TpEvent)
    requires AtFrame(t, sdu, 0) && t.state.TxWaitFc? && Quiet(t.fd, e) && !ClearToSend(e)
    ensures CfOut(t, e) == [] && AtFrame(Next(t, e), sdu, 0) && Next(t, e).state.TxWaitFc?
    ensures Next(t, e).fd == t.fd
  {
    hide Pci, Patch;
  }

  /** A multi-frame message whose first frame the driver refuses is reported as failed and yet not
      given up: nothing of it is sent as long as no clear to send comes in, and after one, in a fair
      environment, all of its consecutive frames are, though its first frame never was. A receiver
      that is not receiving takes no notice of them. */
  lemma RefusedOpening(t: Tp, sdu: seq<byte>, canSend: int, quiet: seq<TpEvent>, fair: seq<TpEvent>, r: Tp)
    requires Valid(t) && Multi(sdu, t.fd) && canSend != 0 && Valid(r) && !r.state.RxWaitCf?
    ensures var start := Send(t, sdu, canSend);
            && start.code == -1 && start.frames == []
            && (AllQuiet(t.fd, quiet) && NoneClear(quiet) ==>
                  Run(start.tp, quiet).cfs == [] && Run(start.tp, quiet).tp.state.TxWaitFc?)
            && (FairRun(start.tp, fair) && fair != [] ==> ClearToSend(fair[0]))
            && (FairRun(start.tp, fair) && |fair| >= 3 * |CfsFrom(sdu, t.fd, 0)| + 1 ==>
                  && Run(start.tp, fair).cfs == CfsFrom(sdu, t.fd, 0)
                  && ReceiveAll(r, Run(start.tp, fair).cfs) == Reception(r, [], []))
  {
    hide Run, FairRun, AllQuiet, NoneClear, CfsFrom, ReceiveAll, WellFormed, FirstFrame;
    SendStarts(t, sdu, canSend);
    var start := Send(t, sdu, canSend).tp;
    if AllQuiet(t.fd, quiet) && NoneClear(quiet) {
      WaitsForClear(start, sdu, quiet);
    }
    if FairRun(start, fair) && fair != [] {
      FairFirst(start, fair);
    }
    if FairRun(start, fair) && |fair| >= 3 * |CfsFrom(sdu, t.fd, 0)| + 1 {
      Terminates(start, sdu, 0, fair);
      CfsIgnored(r, sdu, t.fd, 0);
    }
  }

  lemma FairFirst(t: Tp, evs: seq<TpEvent>)
    requires Valid(t) && t.state.TxWaitFc? && FairRun(t, evs) && evs != []
    ensures ClearToSend(evs[0])
  {
  }

  // ---------------------------------------------------------------------------------------------
  // Round trip
  // ---------------------------------------------------------------------------------------------

  /** Round trip: an idle sender is given any SDU and a fair environment for three steps a frame; a
      receiver in any state that gets the emitted frames delivers exactly that SDU, once. The only
      exceptions are an empty SDU, one over the 1024 bytes of the cache, and a multi-frame one
      larger than the receiver's buffer, for which nothing is delivered. */
  lemma RoundTrip(s: Tp, r: Tp, sdu: seq<byte>, evs: seq<TpEvent>)
    requires Valid(s) && s.state.Idle? && Valid(r) && |sdu| < 0x1_0000
    requires FairRun(Send(s, sdu, 0).tp, evs)
    requires |sdu| <= PENDING_SIZE ==> |evs| >= 3 * |Segments(sdu, s.fd)|
    ensures var start := Send(s, sdu, 0);
            var run := Run(start.tp, evs);
            var bus := start.frames + run.cfs;
            && AllWellFormed(bus)
            && run.tp.state.Idle?
            && ReceiveAll(r, bus).sdus ==
               if |sdu| <= PENDING_SIZE && Receivable(|r.rx|, sdu, s.fd) then [sdu] else []
  {
    hide Send, Valid, FairRun, Run, ReceiveAll, Segments, WellFormed;
    if |sdu| <= PENDING_SIZE {
      SendsSegments(s, sdu, evs);
      ReassembleSegments(r, sdu, s.fd);
    } else {
      TooLong(s, sdu);
      FairIdleRun(s, evs);
      ReceiveNil(r);
    }
  }

  lemma TooLong(s: Tp, sdu: seq<byte>)
    requires Valid(s) && PENDING_SIZE < |sdu| < 0x1_0000
    ensures Send(s, sdu, 0) == SendResult(s, [], -2)
  {
  }

  /** A fair run puts exactly the segments of the message on the bus. */
  lemma SendsSegments(s: Tp, sdu: seq<byte>, evs: seq<TpEvent>)
    requires Valid(s) && s.state.Idle? && |sdu| <= PENDING_SIZE
    requires FairRun(Send(s, sdu, 0).tp, evs) && |evs| >= 3 * |Segments(sdu, s.fd)|
    ensures var start := Send(s, sdu, 0);
            var run := Run(start.tp, evs);
            start.frames + run.cfs == Segments(sdu, s.fd) && run.tp.state.Idle?
  {
    hide FirstFrame, SingleFrame, CfsFrom, Run, FairRun, WellFormed;
    var start := Send(s, sdu, 0);
    if |sdu| <= MaxSf(s.fd) {
      FairIdleRun(start.tp, evs);
      assert start.frames + [] == start.frames;
    } else {
      SendStarts(s, sdu, 0);
      Terminates(start.tp, sdu, 0, evs);
    }
  }
}
