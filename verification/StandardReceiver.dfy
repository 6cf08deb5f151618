/**
 This sender against a receiver that follows the standard: it grants a block, counts the consecutive
 frames, and grants the next one as soon as the block is full. Exactly which messages get through, for
 grants that arrive before and after the sender has noticed the end of the block.
 */
module StandardReceiver {
  import opened Bytes
  import opened IsoTp
  import opened Segmentation
  import opened Transmission
  import opened Reassembly

  /** What the receiver grants each time, and how large its buffer is. */
  datatype Terms = Terms(blockSize: byte, stMin: byte, room: nat)

  /** The receiver: the message under way, the frames of the current block, what it has delivered. */
  datatype Peer = Peer(a: Assembly, inBlock: nat, heard: seq<seq<byte>>)

  /** Sender, receiver, and whether a grant is on its way to the sender. */
  datatype Link = Link(s: Tp, peer: Peer, flight: bool)

  datatype Move =
    | Tick(now: u32, canSend: int) // of the sender; a frame arrives at once
    | Arrive                       // of the grant, if one is on its way

  /** A consecutive frame arrives: when it fills the block of an unfinished message, the block starts
      again and the next grant is sent. */
  function Hear(x: Link, w: Terms, f: Frame): Link
    requires WellFormed(f)
  {
    var m := Assemble(x.peer.a, w.room, f);
    var full := m.now.Partial? && w.blockSize > 0 && x.peer.inBlock + 1 == w.blockSize;
    x.(peer := Peer(m.now, if full then 0 else x.peer.inBlock + 1, x.peer.heard + m.sdus), flight := x.flight || full)
  }

  function Next(x: Link, w: Terms, mv: Move): (x': Link)
    requires Valid(x.s)
    ensures Valid(x'.s)
  {
    match mv
    case Tick(now, canSend) =>
      var out := IsoTp.Tick(x.s, now, canSend);
      TickFrame(x.s, now, canSend);
      if out.frames == [] then x.(s := out.tp) else Hear(x.(s := out.tp), w, out.frames[0])
    case Arrive =>
      FcFacts(w.blockSize, w.stMin);
      if x.flight then x.(s := Receive(x.s, FlowControl(w.blockSize, w.stMin)).tp, flight := false) else x
  }

  lemma TickFrame(t: Tp, now: u32, canSend: int)
    requires Valid(t)
    ensures var out := IsoTp.Tick(t, now, canSend).frames; |out| <= 1 && (out != [] ==> WellFormed(out[0]))
  {
    var out := IsoTp.Tick(t, now, canSend).frames;
    if out != [] {
      assert out[0][..1] == [PCI_CF + t.sn];
      assert out[0][0] == PCI_CF + t.sn;
    }
  }

  function Moves(x: Link, w: Terms, mvs: seq<Move>): Link
    requires Valid(x.s)
    decreases |mvs|
  {
    if mvs == [] then x else Moves(Next(x, w, mvs[0]), w, mvs[1..])
  }

  /** The first frame is out and received, and the first grant on its way. */
  function Start(s: Tp, w: Terms, sdu: seq<byte>): (x: Link)
    requires Valid(s) && Multi(sdu, s.fd)
    ensures Valid(x.s)
  {
    FirstFrameFacts(sdu, s.fd);
    Link(Send(s, sdu, 0).tp, Peer(Assemble(Waiting, w.room, FirstFrame(sdu, s.fd)).now, 0, []), true)
  }

  // ---------------------------------------------------------------------------------------------
  // States of an exchange
  // ---------------------------------------------------------------------------------------------

  /** Both ends have exchanged the consecutive frames before number k. */
  ghost predicate AtBoth(x: Link, sdu: seq<byte>, k: nat) {
    && AtFrame(x.s, sdu, k)
    && x.peer.a == Partial(|sdu|, (1 + k) % 16, sdu[..Offset(x.s.fd, k)]) && x.peer.heard == []
  }

  predicate Through(x: Link, sdu: seq<byte>) { x.peer.heard == [sdu] }

  /** Nothing will ever happen again. */
  ghost predicate Stalled(x: Link, sdu: seq<byte>, k: nat) {
    AtBoth(x, sdu, k) && !x.flight && (x.s.state.TxWaitFc? || (x.s.state.TxSendingCf? && BlockEnded(x.s)))
  }

  /** The exchange is going on: c is the counter the sender started with. The first grant is on its way;
      or a block is being sent, as far as both ends have counted; or a block is over, the next grant on
      its way, and the sender has noticed the end or not. */
  ghost predicate Going(x: Link, w: Terms, sdu: seq<byte>, k: nat, c: byte) {
    && AtBoth(x, sdu, k)
    && (|| (x.s.state.TxWaitFc? && k == 0 && x.flight && x.s.bsCounter == c && x.peer.inBlock == 0)
        || Sends(x, w, k, c)
        || Between(x, w, c))
  }

  predicate Sends(x: Link, w: Terms, k: nat, c: byte) {
    && x.s.state.TxSendingCf? && x.s.blockSize == w.blockSize && !x.flight
    && (w.blockSize > 0 ==>
          && x.s.bsCounter == c + x.peer.inBlock && x.s.bsCounter < w.blockSize
          && (c > 0 ==> x.peer.inBlock == k))
  }

  predicate Between(x: Link, w: Terms, c: byte) {
    && w.blockSize > 0 && c == 0 && x.flight && x.peer.inBlock == 0
    && (|| (x.s.state.TxSendingCf? && x.s.blockSize == w.blockSize && x.s.bsCounter == w.blockSize)
        || (x.s.state.TxWaitFc? && x.s.bsCounter == 0))
  }

  lemma AtBothFacts(x: Link, sdu: seq<byte>, k: nat)
    requires AtBoth(x, sdu, k)
    ensures Valid(x.s) && AtFrame(x.s, sdu, k) && Multi(sdu, x.s.fd) && More(sdu, x.s.fd, k)
    ensures x.s.state.TxWaitFc? || x.s.state.TxSendingCf?
  {
  }

  lemma GoingFacts(x: Link, w: Terms, sdu: seq<byte>, k: nat, c: byte)
    requires Going(x, w, sdu, k, c)
    ensures Valid(x.s) && Multi(sdu, x.s.fd) && More(sdu, x.s.fd, k) && !Through(x, sdu)
  {
  }

  /** What the receiver makes of the next frame. */
  lemma HearsCf(x: Link, w: Terms, sdu: seq<byte>, fd: bool, k: nat)
    requires More(sdu, fd, k)
    requires x.peer.a == Partial(|sdu|, (1 + k) % 16, sdu[..Offset(fd, k)]) && x.peer.heard == []
    ensures var m := Assemble(x.peer.a, w.room, Cf(sdu, fd, k));
            if More(sdu, fd, k + 1) then
              m == Assembled(Partial(|sdu|, (1 + (k + 1)) % 16, sdu[..Offset(fd, k + 1)]), [])
            else m == Assembled(Waiting, [sdu])
  {
    hide Cf, Pci, WellFormed;
    CfFacts(sdu, fd, k);
    NextTurn(k);
    var f, n := Cf(sdu, fd, k), ChunkSize(sdu, fd, k);
    var got := sdu[..Offset(fd, k)] + f[1..];
    if More(sdu, fd, k + 1) {
      assert f[1..] == f[1..1 + n];
      assert got == sdu[..Offset(fd, k + 1)];
    } else {
      assert got[..|sdu|] == sdu[..Offset(fd, k)] + f[1..1 + n] == sdu;
    }
  }

  /** A tick that emits nothing, and one that emits the next frame. */
  lemma TickMove(x: Link, w: Terms, sdu: seq<byte>, k: nat, now: u32, canSend: int)
    requires AtBoth(x, sdu, k)
    ensures var out := IsoTp.Tick(x.s, now, canSend);
            var x' := Next(x, w, Tick(now, canSend));
            if out.frames == [] then x' == x.(s := out.tp) && AtBoth(x', sdu, k)
            else
              && x.s.state.TxSendingCf? && !BlockEnded(x.s)
              && out.tp.bsCounter == ToByte(x.s.bsCounter + 1) && out.tp.blockSize == x.s.blockSize
              && x'.s == out.tp
              && if More(sdu, x.s.fd, k + 1) then
                   var full := w.blockSize > 0 && x.peer.inBlock + 1 == w.blockSize;
                   && AtBoth(x', sdu, k + 1) && out.tp.state.TxSendingCf?
                   && x'.flight == (x.flight || full) && x'.peer.inBlock == if full then 0 else x.peer.inBlock + 1
                 else x'.s.state.Idle? && Through(x', sdu) && x'.peer.a == Waiting
  {
    hide IsoTp.Tick, Cf, WellFormed, Assemble, AtFrame;
    AtBothFacts(x, sdu, k);
    TickFrame(x.s, now, canSend);
    TickEmits(x.s, now, canSend);
    if IsoTp.Tick(x.s, now, canSend).frames == [] {
      SenderStep(x.s, sdu, k, Clock(now, canSend));
    } else {
      hide SendCf;
      SendsCf(x.s, sdu, k, now);
      HearsCf(x, w, sdu, x.s.fd, k);
      AfterCf(x.s, sdu, k, now);
    }
  }

  lemma AfterCf(t: Tp, sdu: seq<byte>, k: nat, now: u32)
    requires AtFrame(t, sdu, k) && t.state.TxSendingCf?
    ensures var t' := SendCf(t, now, 0).tp;
            t'.fd == t.fd && (!More(sdu, t.fd, k + 1) ==> t'.state.Idle?)
            && (More(sdu, t.fd, k + 1) ==> AtFrame(t', sdu, k + 1))
  {
    hide Cf, ConsecutiveFrame;
    SendsCf(t, sdu, k, now);
  }

  lemma ArriveMove(x: Link, w: Terms)
    requires Valid(x.s)
    ensures Next(x, w, Arrive) ==
            if !x.flight then x
            else if x.s.state.TxWaitFc? then
              x.(s := x.s.(state := TxSendingCf, blockSize := w.blockSize, stMin := w.stMin), flight := false)
            else x.(flight := false)
  {
    FcFacts(w.blockSize, w.stMin);
    hide FlowControl, Pci;
  }

  /** A grant arrives while the sender has not noticed the end of the block: it is ignored. */
  predicate Early(x: Link, mv: Move) { mv.Arrive? && x.flight && x.s.state.TxSendingCf? }

  /** One move of an exchange that is going on. */
  lemma GoingStep(x: Link, w: Terms, sdu: seq<byte>, k: nat, c: byte, mv: Move)
    requires Going(x, w, sdu, k, c)
    ensures var x' := Next(x, w, mv);
            || Going(x', w, sdu, k, c)
            || Stalled(x', sdu, k)
            || (More(sdu, x.s.fd, k + 1) && (Going(x', w, sdu, k + 1, c) || Stalled(x', sdu, k + 1)))
            || (!More(sdu, x.s.fd, k + 1) && Through(x', sdu) && x'.s.state.Idle? && x'.peer.a == Waiting
                && (w.blockSize > 0 && c > 0 ==> c + k + 1 <= w.blockSize))
    ensures Early(x, mv) ==> Stalled(Next(x, w, mv), sdu, k)
  {
    hide Next, AtFrame, IsoTp.Tick, More, Multi, Offset, Valid;
    AtBothFacts(x, sdu, k);
    if mv.Arrive? {
      ArriveMove(x, w);
      GrantKeeps(x.s, sdu, k, w);
    } else {
      TickMove(x, w, sdu, k, mv.now, mv.canSend);
      TickState(x.s, mv.now, mv.canSend);
    }
  }

  lemma GrantKeeps(t: Tp, sdu: seq<byte>, k: nat, w: Terms)
    requires AtFrame(t, sdu, k)
    ensures t.state.TxWaitFc? ==>
              AtFrame(t.(state := TxSendingCf, blockSize := w.blockSize, stMin := w.stMin), sdu, k)
  {
  }

  /** A tick that emits nothing either changes nothing or notices the end of the block. */
  lemma TickState(t: Tp, now: u32, canSend: int)
    requires Valid(t) && (t.state.TxSendingCf? ==> t.done < t.msgLen)
    ensures var out := IsoTp.Tick(t, now, canSend);
            out.frames == [] ==>
              || out.tp == t
              || (t.state.TxSendingCf? && BlockEnded(t) && out.tp == t.(state := TxWaitFc, bsCounter := 0))
  {
    hide ConsecutiveFrame;
  }

  // ---------------------------------------------------------------------------------------------
  // Any schedule
  // ---------------------------------------------------------------------------------------------

  /** How many consecutive frames the message has. */
  function Frames(sdu: seq<byte>, fd: bool): nat
    requires Multi(sdu, fd)
  {
    |CfsFrom(sdu, fd, 0)|
  }

  /** No grant of the schedule arrives early. */
  predicate NoneEarly(x: Link, w: Terms, mvs: seq<Move>)
    requires Valid(x.s)
    decreases |mvs|
  {
    mvs == [] || (!Early(x, mvs[0]) && NoneEarly(Next(x, w, mvs[0]), w, mvs[1..]))
  }

  lemma StalledStep(x: Link, w: Terms, sdu: seq<byte>, k: nat, mv: Move)
    requires Stalled(x, sdu, k)
    ensures Stalled(Next(x, w, mv), sdu, k) && !Early(x, mv)
  {
    hide AtFrame, IsoTp.Tick, More, Multi, Offset, Valid;
    AtBothFacts(x, sdu, k);
    if mv.Arrive? {
      ArriveMove(x, w);
    } else {
      TickMove(x, w, sdu, k, mv.now, mv.canSend);
      TickState(x.s, mv.now, mv.canSend);
    }
  }

  lemma {:induction false} StalledMoves(x: Link, w: Terms, sdu: seq<byte>, k: nat, mvs: seq<Move>)
    requires Stalled(x, sdu, k)
    ensures Valid(x.s) && !Through(Moves(x, w, mvs), sdu)
    decreases |mvs|
  {
    hide Next;
    AtBothFacts(x, sdu, k);
    if mvs != [] {
      StalledStep(x, w, sdu, k, mvs[0]);
      StalledMoves(Next(x, w, mvs[0]), w, sdu, k, mvs[1..]);
    }
  }

  /** A delivered message stays delivered. */
  ghost predicate Done(x: Link, sdu: seq<byte>) {
    Valid(x.s) && x.s.state.Idle? && x.peer.a == Waiting && Through(x, sdu)
  }

  lemma {:induction false} DoneMoves(x: Link, w: Terms, sdu: seq<byte>, mvs: seq<Move>)
    requires Done(x, sdu)
    ensures Through(Moves(x, w, mvs), sdu) && NoneEarly(x, w, mvs) && LateSchedule(x, w, mvs)
    decreases |mvs|
  {
    if mvs != [] {
      DoneStep(x, w, sdu, mvs[0]);
      hide Next;
      DoneMoves(Next(x, w, mvs[0]), w, sdu, mvs[1..]);
    }
  }

  lemma DoneStep(x: Link, w: Terms, sdu: seq<byte>, mv: Move)
    requires Done(x, sdu)
    ensures Done(Next(x, w, mv), sdu) && !Early(x, mv)
  {
    if mv.Arrive? {
      ArriveMove(x, w);
    }
  }

  lemma FramesLeft(sdu: seq<byte>, fd: bool, k: nat)
    requires More(sdu, fd, k)
    ensures Multi(sdu, fd) && |CfsFrom(sdu, fd, k)| == 1 + |CfsFrom(sdu, fd, k + 1)|
    ensures !More(sdu, fd, k + 1) ==> |CfsFrom(sdu, fd, k + 1)| == 0
  {
    CfsCons(sdu, fd, k);
    CfsCons(sdu, fd, k + 1);
  }

  lemma NextFd(x: Link, w: Terms, mv: Move)
    requires Valid(x.s)
    ensures Next(x, w, mv).s.fd == x.s.fd
  {
    hide IsoTp.Tick, Receive, Assemble;
  }

  /** The grants that are needed come in time, and the counter the sender starts with is in step with
      the receiver's, or does not matter. */
  predicate InStep(w: Terms, c: byte, n: nat) { w.blockSize == 0 || c == 0 || c + n <= w.blockSize }

  lemma {:induction false} ThroughNeeds(x: Link, w: Terms, sdu: seq<byte>, k: nat, c: byte, mvs: seq<Move>)
    requires Going(x, w, sdu, k, c)
    ensures Valid(x.s) && Multi(sdu, x.s.fd)
    ensures Through(Moves(x, w, mvs), sdu) ==>
              NoneEarly(x, w, mvs) && InStep(w, c, k + |CfsFrom(sdu, x.s.fd, k)|)
    decreases |mvs|
  {
    hide Next, CfsFrom, More, Multi, Valid, Early, Going, Stalled, Through, InStep, Frames;
    GoingFacts(x, w, sdu, k, c);
    InStepLast(w, c, k + 1);
    if mvs != [] {
      GoingStep(x, w, sdu, k, c, mvs[0]);
      NextFd(x, w, mvs[0]);
      FramesLeft(sdu, x.s.fd, k);
      var x' := Next(x, w, mvs[0]);
      if Stalled(x', sdu, k) {
        StalledMoves(x', w, sdu, k, mvs[1..]);
      } else if Going(x', w, sdu, k, c) {
        ThroughNeeds(x', w, sdu, k, c, mvs[1..]);
      } else if Stalled(x', sdu, k + 1) {
        StalledMoves(x', w, sdu, k + 1, mvs[1..]);
      } else if Going(x', w, sdu, k + 1, c) {
        ThroughNeeds(x', w, sdu, k + 1, c, mvs[1..]);
      } else {
        NextValid(x, w, mvs[0]);
        DoneMoves(x', w, sdu, mvs[1..]);
      }
    }
  }

  lemma InStepLast(w: Terms, c: byte, n: nat)
    ensures (w.blockSize > 0 && c > 0 ==> c + n <= w.blockSize) ==> InStep(w, c, n)
  {
  }

  lemma NextValid(x: Link, w: Terms, mv: Move)
    requires Valid(x.s)
    ensures Valid(Next(x, w, mv).s)
  {
    hide Valid, IsoTp.Tick, Assemble, Receive;
  }

  // ---------------------------------------------------------------------------------------------
  // Late grants
  // ---------------------------------------------------------------------------------------------

  /** The environment does its part, and a grant arrives when the sender waits for it. */
  predicate LateMove(x: Link, mv: Move) {
    && (x.s.state.TxWaitFc? ==> mv.Arrive?)
    && (x.s.state.TxSendingCf? ==>
          mv.Tick? && mv.canSend == 0 && Elapsed(mv.now, x.s.timerSt) >= DecodeStMin(x.s.stMin))
  }

  predicate LateSchedule(x: Link, w: Terms, mvs: seq<Move>)
    requires Valid(x.s)
    decreases |mvs|
  {
    mvs == [] || (LateMove(x, mvs[0]) && LateSchedule(Next(x, w, mvs[0]), w, mvs[1..]))
  }

  /** Moves that may still be needed with so many frames left. */
  function Needed(x: Link, left: nat): nat {
    if left == 0 then 0
    else 3 * left - 3 + if x.s.state.TxSendingCf? then (if BlockEnded(x.s) then 3 else 1) else 2
  }

  lemma LateStep(x: Link, w: Terms, sdu: seq<byte>, k: nat, c: byte, mv: Move)
    requires Going(x, w, sdu, k, c) && LateMove(x, mv)
    requires Multi(sdu, x.s.fd) && InStep(w, c, k + |CfsFrom(sdu, x.s.fd, k)|)
    ensures var x', left := Next(x, w, mv), |CfsFrom(sdu, x.s.fd, k)|;
            || (Going(x', w, sdu, k, c) && Needed(x', left) < Needed(x, left))
            || (More(sdu, x.s.fd, k + 1) && Going(x', w, sdu, k + 1, c) && Needed(x', left - 1) < Needed(x, left))
            || Done(x', sdu)
  {
    hide Next, AtFrame, IsoTp.Tick, Multi, Offset, Valid, CfsFrom;
    AtBothFacts(x, sdu, k);
    FramesLeft(sdu, x.s.fd, k);
    MoreLeft(sdu, x.s.fd, k);
    if mv.Arrive? {
      ArriveMove(x, w);
      GrantKeeps(x.s, sdu, k, w);
    } else {
      TickMove(x, w, sdu, k, mv.now, mv.canSend);
      TickFair(x.s, mv.now);
    }
  }

  lemma MoreLeft(sdu: seq<byte>, fd: bool, k: nat)
    requires Multi(sdu, fd)
    ensures More(sdu, fd, k + 1) ==> |CfsFrom(sdu, fd, k + 1)| > 0
  {
  }

  /** A tick an accepting driver sees after the separation time. */
  lemma TickFair(t: Tp, now: u32)
    requires Valid(t) && t.state.TxSendingCf? && t.done < t.msgLen && Elapsed(now, t.timerSt) >= DecodeStMin(t.stMin)
    ensures var out := IsoTp.Tick(t, now, 0);
            if BlockEnded(t) then out == TickResult(t.(state := TxWaitFc, bsCounter := 0), []) else out.frames != []
  {
    hide ConsecutiveFrame;
  }

  lemma {:induction false} LateDelivers(x: Link, w: Terms, sdu: seq<byte>, k: nat, c: byte, mvs: seq<Move>)
    requires Going(x, w, sdu, k, c) && Valid(x.s) && LateSchedule(x, w, mvs)
    requires Multi(sdu, x.s.fd) && InStep(w, c, k + |CfsFrom(sdu, x.s.fd, k)|)
    requires |mvs| >= Needed(x, |CfsFrom(sdu, x.s.fd, k)|)
    ensures Through(Moves(x, w, mvs), sdu)
    decreases |mvs|
  {
    hide Next, CfsFrom, More, Multi, Valid, Going, LateMove, BlockEnded, InStep, Through, Done, Needed;
    GoingFacts(x, w, sdu, k, c);
    FramesLeft(sdu, x.s.fd, k);
    NeededMore(x, |CfsFrom(sdu, x.s.fd, k)|);
    LateStep(x, w, sdu, k, c, mvs[0]);
    NextFd(x, w, mvs[0]);
    NextValid(x, w, mvs[0]);
    var x' := Next(x, w, mvs[0]);
    if Done(x', sdu) {
      DoneMoves(x', w, sdu, mvs[1..]);
    } else if Going(x', w, sdu, k, c) && Needed(x', |CfsFrom(sdu, x.s.fd, k)|) < Needed(x, |CfsFrom(sdu, x.s.fd, k)|) {
      LateDelivers(x', w, sdu, k, c, mvs[1..]);
    } else {
      LateDelivers(x', w, sdu, k + 1, c, mvs[1..]);
    }
  }

  lemma NeededMore(x: Link, left: nat)
    requires left > 0
    ensures Needed(x, left) > 0
  {
  }

  // ---------------------------------------------------------------------------------------------
  // Early grants
  // ---------------------------------------------------------------------------------------------

  /** The environment does its part, and a grant arrives at once. */
  predicate PromptMove(x: Link, mv: Move) {
    && (x.flight ==> mv.Arrive?)
    && (!x.flight && x.s.state.TxSendingCf? ==>
          mv.Tick? && mv.canSend == 0 && Elapsed(mv.now, x.s.timerSt) >= DecodeStMin(x.s.stMin))
  }

  predicate PromptSchedule(x: Link, w: Terms, mvs: seq<Move>)
    requires Valid(x.s)
    decreases |mvs|
  {
    mvs == [] || (PromptMove(x, mvs[0]) && PromptSchedule(Next(x, w, mvs[0]), w, mvs[1..]))
  }

  /** The whole message fits the first block. */
  predicate FitsFirst(w: Terms, c: byte, n: nat) { w.blockSize == 0 || c + n <= w.blockSize }

  /** The exchange is in its first block. */
  predicate FirstBlock(x: Link, k: nat) { x.peer.inBlock == k && (x.flight ==> x.s.state.TxWaitFc?) }

  lemma FirstBlockStep(x: Link, w: Terms, sdu: seq<byte>, k: nat, c: byte, mv: Move)
    requires Going(x, w, sdu, k, c) && FirstBlock(x, k) && PromptMove(x, mv)
    ensures LateMove(x, mv)
    ensures var x' := Next(x, w, mv);
            && (Going(x', w, sdu, k, c) ==> FirstBlock(x', k))
            && (More(sdu, x.s.fd, k + 1) && Going(x', w, sdu, k + 1, c) ==>
                FirstBlock(x', k + 1) ||
                (x'.flight && x'.s.state.TxSendingCf? && w.blockSize > 0 && c == 0 && k + 1 == w.blockSize))
            && (Through(x', sdu) && w.blockSize > 0 ==> c + k + 1 <= w.blockSize)
  {
    hide Next, AtFrame, IsoTp.Tick, Multi, Offset, Valid;
    AtBothFacts(x, sdu, k);
    if mv.Arrive? {
      ArriveMove(x, w);
      OneFrame(x, Next(x, w, mv), sdu, k);
    } else {
      TickMove(x, w, sdu, k, mv.now, mv.canSend);
      TickState(x.s, mv.now, mv.canSend);
      if IsoTp.Tick(x.s, mv.now, mv.canSend).frames == [] {
        OneFrame(x, Next(x, w, mv), sdu, k);
      } else {
        OneFrame(x, Next(x, w, mv), sdu, k);
      }
    }
  }

  /** The receiver's part tells at which frame an exchange is. */
  lemma OneFrame(x: Link, x': Link, sdu: seq<byte>, k: nat)
    requires AtBoth(x, sdu, k)
    ensures x'.s.fd == x.s.fd && x'.peer == x.peer ==> !AtBoth(x', sdu, k + 1)
    ensures x'.s.fd == x.s.fd && AtBoth(x', sdu, k + 1) ==> !AtBoth(x', sdu, k)
  {
  }

  lemma {:induction false} PromptRun(x: Link, w: Terms, sdu: seq<byte>, k: nat, c: byte, mvs: seq<Move>)
    requires Going(x, w, sdu, k, c) && FirstBlock(x, k) && Valid(x.s) && PromptSchedule(x, w, mvs)
    ensures Multi(sdu, x.s.fd)
    ensures Through(Moves(x, w, mvs), sdu) ==> FitsFirst(w, c, k + |CfsFrom(sdu, x.s.fd, k)|)
    ensures FitsFirst(w, c, k + |CfsFrom(sdu, x.s.fd, k)|) ==> LateSchedule(x, w, mvs)
    decreases |mvs|
  {
    hide Next, CfsFrom, More, Multi, Valid, Early, Going, Stalled, Through, LateMove, FirstBlock, PromptMove, Done,
         Needed;
    GoingFacts(x, w, sdu, k, c);
    if mvs != [] {
      GoingStep(x, w, sdu, k, c, mvs[0]);
      FirstBlockStep(x, w, sdu, k, c, mvs[0]);
      NextFd(x, w, mvs[0]);
      NextValid(x, w, mvs[0]);
      FramesLeft(sdu, x.s.fd, k);
      MoreLeft(sdu, x.s.fd, k);
      var x' := Next(x, w, mvs[0]);
      if FitsFirst(w, c, k + |CfsFrom(sdu, x.s.fd, k)|) {
        LateStep(x, w, sdu, k, c, mvs[0]);
      }
      NextDone(x', sdu);
      if Done(x', sdu) {
        DoneExcludes(x', w, sdu, k, c);
        DoneExcludes(x', w, sdu, k + 1, c);
        DoneMoves(x', w, sdu, mvs[1..]);
      } else if Going(x', w, sdu, k, c) {
        PromptRun(x', w, sdu, k, c, mvs[1..]);
      } else if More(sdu, x.s.fd, k + 1) && Going(x', w, sdu, k + 1, c) {
        if FirstBlock(x', k + 1) {
          PromptRun(x', w, sdu, k + 1, c, mvs[1..]);
        } else {
          PromptIsEarly(x', w, sdu, k + 1, c, mvs[1..]);
        }
      } else if Stalled(x', sdu, k) {
        StalledMoves(x', w, sdu, k, mvs[1..]);
      } else {
        StalledMoves(x', w, sdu, k + 1, mvs[1..]);
      }
    }
  }

  lemma NextDone(x: Link, sdu: seq<byte>)
    ensures Done(x, sdu) <==> Valid(x.s) && x.s.state.Idle? && x.peer.a == Waiting && Through(x, sdu)
  {
  }

  lemma DoneExcludes(x: Link, w: Terms, sdu: seq<byte>, k: nat, c: byte)
    requires Done(x, sdu)
    ensures !Going(x, w, sdu, k, c) && !Stalled(x, sdu, k)
  {
  }

  /** With a full block behind it and the sender still unaware, a prompt grant is lost. */
  lemma PromptIsEarly(x: Link, w: Terms, sdu: seq<byte>, k: nat, c: byte, mvs: seq<Move>)
    requires Going(x, w, sdu, k, c) && x.flight && x.s.state.TxSendingCf? && Valid(x.s) && PromptSchedule(x, w, mvs)
    ensures !Through(Moves(x, w, mvs), sdu)
  {
    hide Next, Valid, Going, Stalled;
    GoingFacts(x, w, sdu, k, c);
    if mvs != [] {
      GoingStep(x, w, sdu, k, c, mvs[0]);
      StalledMoves(Next(x, w, mvs[0]), w, sdu, k, mvs[1..]);
    }
  }

  // ---------------------------------------------------------------------------------------------
  // Which messages get through
  // ---------------------------------------------------------------------------------------------

  lemma StartGoing(s: Tp, w: Terms, sdu: seq<byte>)
    requires Valid(s) && Multi(sdu, s.fd) && |sdu| <= w.room
    ensures var x := Start(s, w, sdu);
            && Going(x, w, sdu, 0, s.bsCounter) && FirstBlock(x, 0) && x.s.fd == s.fd
            && Needed(x, Frames(sdu, s.fd)) <= 3 * Frames(sdu, s.fd)
  {
    hide Send, Pci, FirstFrame, CfsFrom;
    SendStarts(s, sdu, 0);
    FirstFrameFacts(sdu, s.fd);
    FirstFrameLength(sdu, s.fd);
  }

  lemma FirstFrameLength(sdu: seq<byte>, fd: bool)
    requires Multi(sdu, fd)
    ensures FirstFrame(sdu, fd)[2..] == sdu[..FfData(fd)] && 8 <= |sdu|
  {
    FirstFrameFacts(sdu, fd);
    var f := FirstFrame(sdu, fd);
    assert f[2..] == f[2..2 + FfData(fd)];
  }

  /** A multi-frame message to a receiver that grants a new block whenever one is full. Whatever the
      schedule, it gets through only if no grant arrives before the sender has noticed the end of the
      block, and only if the sender's block counter starts at 0 or the message fits the first block as
      that counter has it. When every grant arrives while the sender waits for it, that is enough. When
      every grant arrives at once, it gets through if and only if the message fits the first block. */
  lemma StandardReceiverIff(s: Tp, w: Terms, sdu: seq<byte>, mvs: seq<Move>)
    requires Valid(s) && Multi(sdu, s.fd) && |sdu| <= w.room
    ensures var x, n := Start(s, w, sdu), Frames(sdu, s.fd);
            var through := Through(Moves(x, w, mvs), sdu);
            && (through ==> NoneEarly(x, w, mvs) && InStep(w, s.bsCounter, n))
            && (LateSchedule(x, w, mvs) && |mvs| >= 3 * n ==> (through <==> InStep(w, s.bsCounter, n)))
            && (PromptSchedule(x, w, mvs) && |mvs| >= 3 * n ==> (through <==> FitsFirst(w, s.bsCounter, n)))
  {
    hide Start, Moves, Going, Valid, CfsFrom, LateSchedule, PromptSchedule, NoneEarly, FirstBlock, Needed, Through;
    StartGoing(s, w, sdu);
    var x, n := Start(s, w, sdu), Frames(sdu, s.fd);
    ThroughNeeds(x, w, sdu, 0, s.bsCounter, mvs);
    if PromptSchedule(x, w, mvs) {
      PromptRun(x, w, sdu, 0, s.bsCounter, mvs);
    }
    if |mvs| >= 3 * n && LateSchedule(x, w, mvs) && InStep(w, s.bsCounter, n) {
      LateDelivers(x, w, sdu, 0, s.bsCounter, mvs);
    }
  }
}
