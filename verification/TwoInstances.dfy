/**
 A sender and a receiver that are both instances of this engine, over a perfect bus: exactly which
 messages get through.
 */
module TwoInstances {
  import opened Bytes
  import opened IsoTp
  import opened Segmentation
  import opened Transmission

  datatype Pair = Pair(sender: Tp, receiver: Tp, sdus: seq<seq<byte>>)

  /** Clock ticks of the sender; every frame reaches the receiver, every reply the sender. */
  function Exchange(s: Tp, r: Tp, ticks: seq<(u32, int)>): (p: Pair)
    requires Valid(s) && Valid(r)
    decreases |ticks|
  {
    if ticks == [] then Pair(s, r, [])
    else
      var out := Tick(s, ticks[0].0, ticks[0].1);
      TickWellFormed(s, ticks[0].0, ticks[0].1);
      var heard := ReceiveAll(r, out.frames);
      RepliesWellFormed(r, out.frames);
      var rest := Exchange(ReceiveAll(out.tp, heard.replies).tp, heard.tp, ticks[1..]);
      Pair(rest.sender, rest.receiver, heard.sdus + rest.sdus)
  }

  /** A sender hands an SDU to its engine and the far end is another instance of the engine. */
  function Conversation(s: Tp, r: Tp, sdu: seq<byte>, ticks: seq<(u32, int)>): (p: Pair)
    requires Valid(s) && Valid(r) && |sdu| <= PENDING_SIZE
  {
    var start := Send(s, sdu, 0);
    assert AllWellFormed(start.frames) by {
      if |sdu| <= MaxSf(s.fd) { SingleFrameFacts(sdu); } else { FirstFrameFacts(sdu, s.fd); }
    }
    var heard := ReceiveAll(r, start.frames);
    RepliesWellFormed(r, start.frames);
    var rest := Exchange(ReceiveAll(start.tp, heard.replies).tp, heard.tp, ticks);
    Pair(rest.sender, rest.receiver, heard.sdus + rest.sdus)
  }

  lemma TickWellFormed(t: Tp, now: u32, canSend: int)
    requires Valid(t)
    ensures AllWellFormed(Tick(t, now, canSend).frames)
  {
    var out := Tick(t, now, canSend).frames;
    if out != [] {
      assert out[0][..1] == [PCI_CF + t.sn];
      assert out[0][0] == PCI_CF + t.sn;
    }
  }

  lemma {:induction false} RepliesWellFormed(t: Tp, fs: seq<Frame>)
    requires Valid(t) && AllWellFormed(fs)
    ensures AllWellFormed(ReceiveAll(t, fs).replies)
    decreases |fs|
  {
    if fs != [] {
      var one := Receive(t, fs[0]);
      RepliesWellFormed(one.tp, fs[1..]);
      FcFacts(t.blockSize, t.stMin);
      WellFormedAppend(one.frames, ReceiveAll(one.tp, fs[1..]).replies);
    }
  }

  /** The whole message fits the one block the receiver ever grants, given the sender's counter. */
  predicate FitsGrant(s: Tp, r: Tp, sdu: seq<byte>)
    requires Multi(sdu, s.fd)
  {
    r.blockSize == 0 || s.bsCounter + |CfsFrom(sdu, s.fd, 0)| <= r.blockSize
  }

  predicate FairTicks(s: Tp, ticks: seq<(u32, int)>)
    requires Valid(s)
    decreases |ticks|
  {
    ticks == [] ||
    (&& ticks[0].1 == 0 && Elapsed(ticks[0].0, s.timerSt) >= DecodeStMin(s.stMin)
     && FairTicks(Tick(s, ticks[0].0, 0).tp, ticks[1..]))
  }

  /** Both ends agree on what is left, and no further grant will come. */
  ghost predicate Coupled(s: Tp, r: Tp, sdu: seq<byte>, k: nat) {
    AtFrame(s, sdu, k) && InSync(r, sdu, s.fd, k)
  }

  /** One tick of a coupled pair. */
  lemma CoupledTick(s: Tp, r: Tp, sdu: seq<byte>, k: nat, now: u32, canSend: int)
    requires Coupled(s, r, sdu, k)
    ensures var out := Tick(s, now, canSend);
            AllWellFormed(out.frames) &&
            var heard := ReceiveAll(r, out.frames);
            && heard.replies == []
            && (out.frames == [] ==> Coupled(out.tp, r, sdu, k) && heard == Reception(r, [], []))
            && (out.frames != [] ==>
                && s.state.TxSendingCf? && !BlockEnded(s)
                && out.tp.bsCounter == ToByte(s.bsCounter + 1) && out.tp.blockSize == s.blockSize
                && if More(sdu, s.fd, k + 1)
                   then Coupled(out.tp, heard.tp, sdu, k + 1) && heard.sdus == [] && out.tp.state.TxSendingCf?
                   else out.tp.state.Idle? && heard.tp.state.Idle? && heard.sdus == [sdu])
  {
    hide Tick, Receive, Cf, InSync, AtFrame, WellFormed, Valid;
    CoupledFacts(s, r, sdu, k);
    TickWellFormed(s, now, canSend);
    TickEmits(s, now, canSend);
    if Tick(s, now, canSend).frames != [] {
      hide SendCf;
      SendsCf(s, sdu, k, now);
      CfAccepted(r, sdu, s.fd, k);
      ReceiveOne(r, Cf(sdu, s.fd, k));
    } else {
      SenderStep(s, sdu, k, Clock(now, canSend));
      ReceiveNil(r);
    }
  }

  lemma ExchangeStep(s: Tp, r: Tp, ticks: seq<(u32, int)>)
    requires Valid(s) && Valid(r) && ticks != []
    ensures var out := Tick(s, ticks[0].0, ticks[0].1);
            AllWellFormed(out.frames) &&
            var heard := ReceiveAll(r, out.frames);
            heard.replies == [] ==>
              var rest := Exchange(out.tp, heard.tp, ticks[1..]);
              Exchange(s, r, ticks) == Pair(rest.sender, rest.receiver, heard.sdus + rest.sdus)
  {
    hide Tick, Receive, Valid, WellFormed;
    TickWellFormed(s, ticks[0].0, ticks[0].1);
    var out := Tick(s, ticks[0].0, ticks[0].1);
    ReceiveNil(out.tp);
  }

  lemma CoupledFacts(s: Tp, r: Tp, sdu: seq<byte>, k: nat)
    requires Coupled(s, r, sdu, k)
    ensures Valid(s) && Valid(r) && AtFrame(s, sdu, k) && More(sdu, s.fd, k)
    ensures Sending(s) && s.done < s.msgLen && r.state.RxWaitCf?
    ensures |CfsFrom(sdu, s.fd, k)| == 1 + |CfsFrom(sdu, s.fd, k + 1)|
  {
  }

  /** A block that cannot hold what is left: no schedule of ticks ever delivers the message. */
  lemma {:induction false} ShortGrantStalls(s: Tp, r: Tp, sdu: seq<byte>, k: nat, ticks: seq<(u32, int)>)
    requires Coupled(s, r, sdu, k)
    requires s.state.TxSendingCf? ==> s.blockSize > 0 && s.bsCounter + |CfsFrom(sdu, s.fd, k)| > s.blockSize
    ensures var p := Exchange(s, r, ticks);
            p.sdus == [] && Sending(p.sender) && p.receiver.state.RxWaitCf?
    decreases |ticks|
  {
    hide Coupled, Valid, ReceiveAll, CfsFrom, Cf, WellFormed, Offset, More, Tick;
    CoupledFacts(s, r, sdu, k);
    if ticks == [] {
      hide Sending;
      assert Exchange(s, r, ticks) == Pair(s, r, []);
    } else {
      var out := Tick(s, ticks[0].0, ticks[0].1);
      CoupledTick(s, r, sdu, k, ticks[0].0, ticks[0].1);
      ExchangeStep(s, r, ticks);
      hide Exchange;
      var heard := ReceiveAll(r, out.frames);
      if out.frames == [] {
        StaysShort(s, sdu, k, ticks[0].0, ticks[0].1);
        ShortGrantStalls(out.tp, heard.tp, sdu, k, ticks[1..]);
      } else {
        ShortGrantStalls(out.tp, heard.tp, sdu, k + 1, ticks[1..]);
      }
    }
  }

  /** A tick that emits nothing keeps the sender's grant too short, or withdraws it. */
  lemma StaysShort(s: Tp, sdu: seq<byte>, k: nat, now: u32, canSend: int)
    requires Valid(s) && Multi(sdu, s.fd) && s.done < s.msgLen
    requires s.state.TxSendingCf? ==> s.blockSize > 0 && s.bsCounter + |CfsFrom(sdu, s.fd, k)| > s.blockSize
    requires Tick(s, now, canSend).frames == []
    ensures var s' := Tick(s, now, canSend).tp;
            s'.state.TxSendingCf? ==> s'.blockSize > 0 && s'.bsCounter + |CfsFrom(sdu, s.fd, k)| > s'.blockSize
  {
    hide CfsFrom;
  }

  /** A block large enough for what is left: that many fair ticks deliver the message. */
  lemma {:induction false} GrantSuffices(s: Tp, r: Tp, sdu: seq<byte>, k: nat, ticks: seq<(u32, int)>)
    requires Coupled(s, r, sdu, k) && s.state.TxSendingCf?
    requires s.blockSize == 0 || s.bsCounter + |CfsFrom(sdu, s.fd, k)| <= s.blockSize
    requires FairTicks(s, ticks) && |ticks| >= |CfsFrom(sdu, s.fd, k)|
    ensures var p := Exchange(s, r, ticks);
            && p.sdus == [sdu] && p.sender.state.Idle? && p.receiver.state.Idle?
            && p.sender.bsCounter == ToByte(s.bsCounter + |CfsFrom(sdu, s.fd, k)|)
    decreases |ticks|
  {
    hide Coupled, Valid, ReceiveAll, CfsFrom, Cf, WellFormed, Offset, More, Exchange;
    CoupledFacts(s, r, sdu, k);
    FairTickSends(s, sdu, k, ticks[0].0);
    hide Tick, AtFrame, Multi, MaxSf, BlockEnded, ToByte;
    CoupledTick(s, r, sdu, k, ticks[0].0, 0);
    ExchangeStep(s, r, ticks);
    var out := Tick(s, ticks[0].0, 0);
    var heard := ReceiveAll(r, out.frames);
    ByteCount(s.bsCounter + 1, |CfsFrom(sdu, s.fd, k + 1)|);
    if More(sdu, s.fd, k + 1) {
      GrantSuffices(out.tp, heard.tp, sdu, k + 1, ticks[1..]);
    } else {
      IdleExchange(out.tp, heard.tp, ticks[1..]);
    }
  }

  lemma ByteCount(a: nat, b: nat)
    ensures ToByte(ToByte(a) + b) == ToByte(a + b)
    ensures a < 0x100 ==> ToByte(a) == a
  {
  }

  lemma FairTickSends(s: Tp, sdu: seq<byte>, k: nat, now: u32)
    requires AtFrame(s, sdu, k) && s.state.TxSendingCf? && !BlockEnded(s)
    requires Elapsed(now, s.timerSt) >= DecodeStMin(s.stMin)
    ensures Tick(s, now, 0).frames == [Cf(sdu, s.fd, k)]
  {
    SendsCf(s, sdu, k, now);
  }

  lemma {:induction false} IdleExchange(s: Tp, r: Tp, ticks: seq<(u32, int)>)
    requires Valid(s) && Valid(r) && s.state.Idle?
    ensures Exchange(s, r, ticks) == Pair(s, r, [])
    decreases |ticks|
  {
    if ticks != [] {
      ReceiveNil(r);
      ReceiveNil(s);
      IdleExchange(s, r, ticks[1..]);
    }
  }

  /** The sender once the receiver's only flow control has arrived. */
  function Granted(s: Tp, r: Tp, sdu: seq<byte>): (t: Tp)
    requires Valid(s) && Valid(r) && Multi(sdu, s.fd)
    ensures Valid(t)
  {
    FcFacts(r.blockSize, r.stMin);
    Receive(Send(s, sdu, 0).tp, FlowControl(r.blockSize, r.stMin)).tp
  }

  lemma GrantFacts(s: Tp, r: Tp, sdu: seq<byte>)
    requires Valid(s) && Valid(r) && Multi(sdu, s.fd)
    ensures var g := Granted(s, r, sdu);
            && AtFrame(g, sdu, 0) && g.state.TxSendingCf? && g.fd == s.fd
            && g.bsCounter == s.bsCounter && g.blockSize == r.blockSize
    ensures Receive(Send(s, sdu, 0).tp, FlowControl(r.blockSize, r.stMin)) == RecvResult(Granted(s, r, sdu), [], None)
  {
    SendStarts(s, sdu, 0);
    FcFacts(r.blockSize, r.stMin);
    hide Send, FlowControl;
  }

  /** The opening of a conversation: first frame, flow control back. */
  lemma Opening(s: Tp, r: Tp, sdu: seq<byte>, ticks: seq<(u32, int)>) returns (r': Tp)
    requires Valid(s) && Valid(r) && Multi(sdu, s.fd) && |sdu| <= |r.rx|
    ensures Coupled(Granted(s, r, sdu), r', sdu, 0)
    ensures Conversation(s, r, sdu, ticks) == Exchange(Granted(s, r, sdu), r', ticks)
  {
    hide Send, Receive, FlowControl, FirstFrame, Valid, AtFrame, InSync, WellFormed, Exchange, ReceiveAll, Granted;
    SendStarts(s, sdu, 0);
    GrantFacts(s, r, sdu);
    FirstFrameSyncs(r, sdu, s.fd);
    ReceiveOne(r, FirstFrame(sdu, s.fd));
    FcFacts(r.blockSize, r.stMin);
    ReceiveOne(Send(s, sdu, 0).tp, FlowControl(r.blockSize, r.stMin));
    r' := Receive(r, FirstFrame(sdu, s.fd)).tp;
  }

  /** Two instances of the engine talking to each other over a perfect bus: a multi-frame message
      gets through exactly when it fits the single block that the receiver grants, because the
      receiver answers a first frame only and never the end of a block, and the sender's block
      counter keeps its value from the previous message. Otherwise no number of ticks delivers it. */
  lemma DeliversIffFitsGrant(s: Tp, r: Tp, sdu: seq<byte>, ticks: seq<(u32, int)>)
    requires Valid(s) && Valid(r) && Multi(sdu, s.fd) && |sdu| <= |r.rx|
    ensures var p := Conversation(s, r, sdu, ticks);
            && (!FitsGrant(s, r, sdu) ==> p.sdus == [] && Sending(p.sender) && p.receiver.state.RxWaitCf?)
            && (FitsGrant(s, r, sdu) && |ticks| >= |CfsFrom(sdu, s.fd, 0)|
                && FairTicks(Granted(s, r, sdu), ticks) ==>
                && p.sdus == [sdu] && p.sender.state.Idle?
                && p.sender.bsCounter == ToByte(s.bsCounter + |CfsFrom(sdu, s.fd, 0)|))
  {
    hide Conversation, Exchange, Valid, Granted, Coupled, FairTicks, CfsFrom, WellFormed, AtFrame;
    GrantFacts(s, r, sdu);
    var r' := Opening(s, r, sdu, ticks);
    if !FitsGrant(s, r, sdu) {
      ShortGrantStalls(Granted(s, r, sdu), r', sdu, 0, ticks);
    } else if |ticks| >= |CfsFrom(sdu, s.fd, 0)| && FairTicks(Granted(s, r, sdu), ticks) {
      GrantSuffices(Granted(s, r, sdu), r', sdu, 0, ticks);
    }
  }

  lemma {:induction false} CfsLength(sdu: seq<byte>, fd: bool, k: nat)
    requires More(sdu, fd, k)
    ensures var n := |CfsFrom(sdu, fd, k)|;
            n >= 1 && Offset(fd, k + n - 1) < |sdu| <= Offset(fd, k + n)
    decreases |sdu| - Offset(fd, k)
  {
    hide Cf, WellFormed;
    if More(sdu, fd, k + 1) {
      CfsLength(sdu, fd, k + 1);
    }
  }

  /** What that comes to for two freshly initialised instances, which grant blocks of 8: messages of
      at most 62 bytes on classic CAN and at most 566 on CAN-FD, out of the 1024 the cache holds. */
  lemma FreshInstancesLimit(s: Tp, r: Tp, sdu: seq<byte>)
    requires Multi(sdu, s.fd) && s.bsCounter == 0 && r.blockSize == 8
    ensures FitsGrant(s, r, sdu) <==> |sdu| <= if s.fd then 566 else 62
  {
    CfsLength(sdu, s.fd, 0);
  }
}
