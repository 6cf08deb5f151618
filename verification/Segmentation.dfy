/**
 What a message looks like on the bus, as a closed formula over the whole SDU, and what a receiver
 makes of those frames: complete delivery, and safety under any loss.
 */
module Segmentation {
  import opened Bytes
  import opened IsoTp

  // ---------------------------------------------------------------------------------------------
  // The frames of a message
  // ---------------------------------------------------------------------------------------------

  /** SDU position at which consecutive frame k starts. */
  function Offset(fd: bool, k: nat): nat { if fd then 62 + 63 * k else 6 + 7 * k }

  predicate Multi(sdu: seq<byte>, fd: bool) { MaxSf(fd) < |sdu| <= PENDING_SIZE }

  /** The message has a consecutive frame number k. */
  predicate More(sdu: seq<byte>, fd: bool, k: nat) { Multi(sdu, fd) && Offset(fd, k) < |sdu| }

  /** Size of the part of the SDU in consecutive frame k. */
  function ChunkSize(sdu: seq<byte>, fd: bool, k: nat): (n: nat)
    requires More(sdu, fd, k)
  {
    Min(|sdu| - Offset(fd, k), CfData(fd))
  }

  function Cf(sdu: seq<byte>, fd: bool, k: nat): (f: Frame)
    requires More(sdu, fd, k)
    ensures WellFormed(f)
  {
    var f := ConsecutiveFrame((1 + k) % 16, sdu[Offset(fd, k)..Offset(fd, k) + ChunkSize(sdu, fd, k)], fd);
    assert f[..1] == [PCI_CF + (1 + k) % 16];
    assert f[0] == PCI_CF + (1 + k) % 16;
    f
  }

  predicate AllWellFormed(fs: seq<Frame>) { fs == [] || (WellFormed(fs[0]) && AllWellFormed(fs[1..])) }

  lemma {:induction false} WellFormedAppend(a: seq<Frame>, b: seq<Frame>)
    requires AllWellFormed(a) && AllWellFormed(b)
    ensures AllWellFormed(a + b)
  {
    hide WellFormed;
    if a == [] {
      assert a + b == b;
    } else {
      assert (a + b)[1..] == a[1..] + b;
      WellFormedAppend(a[1..], b);
    }
  }

  lemma OneWellFormed(f: Frame)
    requires WellFormed(f)
    ensures AllWellFormed([f]) && AllWellFormed([])
  {
  }

  lemma HeadWellFormed(fs: seq<Frame>)
    requires AllWellFormed(fs) && fs != []
    ensures WellFormed(fs[0]) && AllWellFormed(fs[1..])
  {
  }

  /** The consecutive frames from number k on. */
  function CfsFrom(sdu: seq<byte>, fd: bool, k: nat): (s: seq<Frame>)
    requires Multi(sdu, fd)
    ensures AllWellFormed(s) && (More(sdu, fd, k) <==> |s| > 0)
    decreases |sdu| - Offset(fd, k)
  {
    if More(sdu, fd, k) then
      var rest := CfsFrom(sdu, fd, k + 1);
      assert ([Cf(sdu, fd, k)] + rest)[1..] == rest;
      [Cf(sdu, fd, k)] + rest
    else []
  }

  function Segments(sdu: seq<byte>, fd: bool): (s: seq<Frame>)
    requires |sdu| <= PENDING_SIZE
    ensures |s| >= 1 && AllWellFormed(s)
  {
    if |sdu| <= MaxSf(fd) then
      SingleFrameFacts(sdu);
      [SingleFrame(sdu)]
    else
      FirstFrameFacts(sdu, fd);
      var cfs := CfsFrom(sdu, fd, 0);
      assert ([FirstFrame(sdu, fd)] + cfs)[1..] == cfs;
      [FirstFrame(sdu, fd)] + cfs
  }

  lemma SingleFrameFacts(sdu: seq<byte>)
    requires |sdu| <= SF_MAX_CANFD
    ensures var f := SingleFrame(sdu);
            && WellFormed(f) && Pci(f) == 0
            && (|sdu| <= SF_MAX_CAN ==>
                  |f| == 8 && f[0] == |sdu| && f[1..1 + |sdu|] == sdu && (sdu == [] ==> f[1] == 0))
            && (|sdu| > SF_MAX_CAN ==> f[0] == 0 && f[1] == |sdu| && |f| >= |sdu| + 2 && f[2..2 + |sdu|] == sdu)
  {
    var f := SingleFrame(sdu);
    if |sdu| <= SF_MAX_CAN {
      assert f[..1] == [|sdu|];
      assert f[0] == |sdu|;
    } else {
      assert f[..2] == [0, |sdu|];
      assert f[0] == 0 && f[1] == |sdu|;
    }
  }

  lemma FirstFrameFacts(sdu: seq<byte>, fd: bool)
    requires Multi(sdu, fd)
    ensures var f := FirstFrame(sdu, fd);
            && WellFormed(f) && Pci(f) == PCI_FF && FfLength(f) == |sdu|
            && |f| == (if fd then 64 else 8)
            && f[2..2 + FfData(fd)] == sdu[..FfData(fd)]
  {
    var f := FirstFrame(sdu, fd);
    assert f[..2] == [PCI_FF + |sdu| / 256, |sdu| % 256];
    assert f[0] == PCI_FF + |sdu| / 256 && f[1] == |sdu| % 256;
  }

  lemma FcFacts(bs: byte, st: byte)
    ensures var f := FlowControl(bs, st);
            && WellFormed(f) && AllWellFormed([f]) && Pci(f) == PCI_FC && f[0] % 16 == FC_CTS
            && f[1] == bs && f[2] == st
  {
    var f := FlowControl(bs, st);
    assert f[..3] == [PCI_FC + FC_CTS, bs, st];
    assert f[0] == PCI_FC && f[1] == bs && f[2] == st;
  }

  /** A consecutive frame is full except possibly the last, which may carry padding. */
  lemma CfFacts(sdu: seq<byte>, fd: bool, k: nat)
    requires More(sdu, fd, k)
    ensures var f := Cf(sdu, fd, k);
            var n := ChunkSize(sdu, fd, k);
            && Pci(f) == PCI_CF && f[0] % 16 == (1 + k) % 16
            && 1 <= n <= |f| - 1 <= CfData(fd)
            && f[1..1 + n] == sdu[Offset(fd, k)..Offset(fd, k) + n]
            && (if More(sdu, fd, k + 1) then n == |f| - 1 == CfData(fd) else Offset(fd, k) + n == |sdu|)
            && Offset(fd, k + 1) == Offset(fd, k) + CfData(fd)
  {
    var f := Cf(sdu, fd, k);
    assert f[..1] == [PCI_CF + (1 + k) % 16];
    assert f[0] == PCI_CF + (1 + k) % 16;
  }

  // ---------------------------------------------------------------------------------------------
  // Receiving a list of frames
  // ---------------------------------------------------------------------------------------------

  datatype Reception = Reception(tp: Tp, sdus: seq<seq<byte>>, replies: seq<Frame>)

  function Delivered(o: Option<seq<byte>>): seq<seq<byte>> { if o.Some? then [o.value] else [] }

  function ReceiveAll(t: Tp, fs: seq<Frame>): (r: Reception)
    requires Valid(t) && AllWellFormed(fs)
    ensures Valid(r.tp) && r.tp.fd == t.fd && |r.tp.rx| == |t.rx|
    decreases |fs|
  {
    if fs == [] then Reception(t, [], [])
    else
      var one := Receive(t, fs[0]);
      var rest := ReceiveAll(one.tp, fs[1..]);
      Reception(rest.tp, Delivered(one.sdu) + rest.sdus, one.frames + rest.replies)
  }

  lemma ReceiveCons(t: Tp, f: Frame, fs: seq<Frame>)
    requires Valid(t) && WellFormed(f) && AllWellFormed(fs)
    ensures AllWellFormed([f] + fs)
    ensures var one := Receive(t, f);
            var rest := ReceiveAll(one.tp, fs);
            ReceiveAll(t, [f] + fs) == Reception(rest.tp, Delivered(one.sdu) + rest.sdus, one.frames + rest.replies)
  {
    hide Receive, Valid, WellFormed;
    assert ([f] + fs)[0] == f && ([f] + fs)[1..] == fs;
  }

  lemma {:induction false} ReceiveAllAppend(t: Tp, a: seq<Frame>, b: seq<Frame>)
    requires Valid(t) && AllWellFormed(a) && AllWellFormed(b)
    ensures AllWellFormed(a + b)
    ensures var ra := ReceiveAll(t, a);
            var rb := ReceiveAll(ra.tp, b);
            ReceiveAll(t, a + b) == Reception(rb.tp, ra.sdus + rb.sdus, ra.replies + rb.replies)
    decreases |a|
  {
    hide Receive, ReceiveAll, Valid, WellFormed;
    WellFormedAppend(a, b);
    if a == [] {
      ReceiveNil(t);
      assert a + b == b;
      var rb := ReceiveAll(t, b);
      assert [] + rb.sdus == rb.sdus && [] + rb.replies == rb.replies;
    } else {
      assert a == [a[0]] + a[1..] && a + b == [a[0]] + (a[1..] + b);
      var one := Receive(t, a[0]);
      ReceiveAllAppend(one.tp, a[1..], b);
      ReceiveCons(t, a[0], a[1..]);
      ReceiveCons(t, a[0], a[1..] + b);
      var ra := ReceiveAll(one.tp, a[1..]);
      var rb := ReceiveAll(ra.tp, b);
      assert Delivered(one.sdu) + (ra.sdus + rb.sdus) == Delivered(one.sdu) + ra.sdus + rb.sdus;
      assert one.frames + (ra.replies + rb.replies) == one.frames + ra.replies + rb.replies;
    }
  }

  lemma ReceiveNil(t: Tp)
    requires Valid(t)
    ensures ReceiveAll(t, []) == Reception(t, [], [])
  {
  }

  lemma CfsCons(sdu: seq<byte>, fd: bool, k: nat)
    requires Multi(sdu, fd)
    ensures CfsFrom(sdu, fd, k) == if More(sdu, fd, k) then [Cf(sdu, fd, k)] + CfsFrom(sdu, fd, k + 1) else []
  {
    hide Cf, WellFormed;
  }

  lemma ReceiveOne(t: Tp, f: Frame)
    requires Valid(t) && WellFormed(f)
    ensures ReceiveAll(t, [f]) == var r := Receive(t, f); Reception(r.tp, Delivered(r.sdu), r.frames)
  {
    hide Receive, Valid, WellFormed;
    assert [f][1..] == [];
  }

  /** The receiver holds exactly the first Offset(k) bytes of sdu and expects consecutive frame k. */
  ghost predicate InSync(t: Tp, sdu: seq<byte>, fd: bool, k: nat) {
    && Valid(t) && More(sdu, fd, k)
    && t.state.RxWaitCf?
    && t.msgLen == |sdu| && t.done == Offset(fd, k) && t.sn == (1 + k) % 16
    && t.rx[..t.done] == sdu[..t.done]
  }

  lemma FirstFrameSyncs(t: Tp, sdu: seq<byte>, fd: bool)
    requires Valid(t) && Multi(sdu, fd)
    ensures WellFormed(FirstFrame(sdu, fd))
    ensures var r := Receive(t, FirstFrame(sdu, fd));
            && r.sdu == None
            && (|sdu| <= |t.rx| ==> InSync(r.tp, sdu, fd, 0) && r.frames == [FlowControl(t.blockSize, t.stMin)])
            && (|sdu| > |t.rx| ==> r.tp.state.Idle? && r.frames == [])
            && r.tp.blockSize == t.blockSize && r.tp.stMin == t.stMin && r.tp.bsCounter == t.bsCounter
  {
    hide FirstFrame, FlowControl, Pci, FfLength, ReceiveSf, ReceiveCf, ReceiveFc;
    FirstFrameFacts(sdu, fd);
  }

  lemma PatchGrows(rx: seq<byte>, sdu: seq<byte>, at: nat, n: nat)
    requires at + n <= |rx| && at + n <= |sdu| && rx[..at] == sdu[..at]
    ensures Patch(rx, at, sdu[at..at + n])[..at + n] == sdu[..at + n]
  {
    var p := Patch(rx, at, sdu[at..at + n]);
    assert p[..at + n] == p[..at] + p[at..at + n];
  }

  /** A consecutive frame in turn, of any payload, while receiving. */
  lemma CfInTurn(t: Tp, f: Frame)
    requires Valid(t) && t.state.RxWaitCf? && WellFormed(f) && Pci(f) == PCI_CF && f[0] % 16 == t.sn
    ensures var n := Min(t.msgLen - t.done, |f| - 1);
            var rx := Patch(t.rx, t.done, f[1..1 + n]);
            Receive(t, f) ==
            if t.done + n >= t.msgLen then
              RecvResult(t.(sn := (t.sn + 1) % 16, rx := rx, done := t.done + n, state := Idle), [],
                         Some(rx[..t.msgLen]))
            else RecvResult(t.(sn := (t.sn + 1) % 16, rx := rx, done := t.done + n), [], None)
  {
    hide Pci, Patch, ReceiveSf, ReceiveFf, ReceiveFc;
  }

  lemma CfAccepted(t: Tp, sdu: seq<byte>, fd: bool, k: nat)
    requires InSync(t, sdu, fd, k)
    ensures var r := Receive(t, Cf(sdu, fd, k));
            && r.frames == []
            && (if More(sdu, fd, k + 1) then r.sdu == None && InSync(r.tp, sdu, fd, k + 1)
                else r.sdu == Some(sdu) && r.tp.state.Idle?)
  {
    hide Cf, Pci, WellFormed, Patch, Receive;
    var f, n := Cf(sdu, fd, k), ChunkSize(sdu, fd, k);
    CfFacts(sdu, fd, k);
    CfInTurn(t, f);
    assert Min(t.msgLen - t.done, |f| - 1) == n;
    var rx := Patch(t.rx, t.done, f[1..1 + n]);
    assert rx[..t.done + n] == sdu[..t.done + n] by {
      PatchGrows(t.rx, sdu, t.done, n);
    }
    NextSn(k);
    if !More(sdu, fd, k + 1) {
      assert sdu[..|sdu|] == sdu;
    }
  }

  lemma NextSn(k: nat)
    ensures ((1 + k) % 16 + 1) % 16 == (1 + (k + 1)) % 16
  {
  }

  /** A receiver in step with the sender ends up with the message, once. */
  lemma {:induction false} SyncedTail(t: Tp, sdu: seq<byte>, fd: bool, k: nat)
    requires InSync(t, sdu, fd, k)
    ensures var r := ReceiveAll(t, CfsFrom(sdu, fd, k));
            r.sdus == [sdu] && r.replies == [] && r.tp.state.Idle?
    decreases |sdu| - Offset(fd, k)
  {
    hide Receive, Valid, WellFormed, Cf, More, InSync, Offset;
    SyncedFacts(t, sdu, fd, k);
    CfAccepted(t, sdu, fd, k);
    assert CfsFrom(sdu, fd, k)[1..] == CfsFrom(sdu, fd, k + 1);
    if More(sdu, fd, k + 1) {
      SyncedTail(Receive(t, Cf(sdu, fd, k)).tp, sdu, fd, k + 1);
    }
  }

  lemma CfIgnored(t: Tp, sdu: seq<byte>, fd: bool, k: nat)
    requires Valid(t) && !t.state.RxWaitCf? && More(sdu, fd, k)
    ensures Receive(t, Cf(sdu, fd, k)) == RecvResult(t, [], None)
  {
    hide Cf, Pci, WellFormed;
    CfFacts(sdu, fd, k);
  }

  /** Outside a reception, consecutive frames change nothing. */
  lemma {:induction false} CfsIgnored(t: Tp, sdu: seq<byte>, fd: bool, k: nat)
    requires Valid(t) && !t.state.RxWaitCf? && Multi(sdu, fd)
    ensures ReceiveAll(t, CfsFrom(sdu, fd, k)) == Reception(t, [], [])
    decreases |sdu| - Offset(fd, k)
  {
    if More(sdu, fd, k) {
      CfIgnored(t, sdu, fd, k);
      hide Receive, Valid, WellFormed, Cf;
      assert CfsFrom(sdu, fd, k)[1..] == CfsFrom(sdu, fd, k + 1);
      CfsIgnored(t, sdu, fd, k + 1);
    }
  }

  lemma SingleFrameDelivers(t: Tp, sdu: seq<byte>)
    requires Valid(t) && |sdu| <= SF_MAX_CANFD
    ensures WellFormed(SingleFrame(sdu))
    ensures Receive(t, SingleFrame(sdu)) ==
            RecvResult(t.(state := Idle), [], if sdu == [] then None else Some(sdu))
  {
    hide SingleFrame, Pci, WellFormed;
    SingleFrameFacts(sdu);
  }

  /** What the receiver's buffers allow: a single frame needs none. */
  predicate Receivable(rxSize: nat, sdu: seq<byte>, fd: bool) {
    sdu != [] && (|sdu| <= MaxSf(fd) || |sdu| <= rxSize)
  }

  /** The frames of a message, all received in order from whatever state, deliver exactly that
      message, once; a message that is empty or too long for the receiver is not delivered at all. */
  lemma ReassembleSegments(t: Tp, sdu: seq<byte>, fd: bool)
    requires Valid(t) && |sdu| <= PENDING_SIZE
    ensures var r := ReceiveAll(t, Segments(sdu, fd));
            && r.sdus == (if Receivable(|t.rx|, sdu, fd) then [sdu] else [])
            && r.tp.state.Idle?
            && r.replies == (if Multi(sdu, fd) && |sdu| <= |t.rx| then [FlowControl(t.blockSize, t.stMin)] else [])
  {
    hide Receive, Valid, WellFormed, ReceiveAll, CfsFrom, FirstFrame, SingleFrame;
    var segs := Segments(sdu, fd);
    if |sdu| <= MaxSf(fd) {
      SingleFrameDelivers(t, sdu);
      ReceiveOne(t, SingleFrame(sdu));
    } else {
      var f := FirstFrame(sdu, fd);
      FirstFrameSyncs(t, sdu, fd);
      ReceiveOne(t, f);
      ReceiveAllAppend(t, [f], CfsFrom(sdu, fd, 0));
      var next := Receive(t, f).tp;
      if |sdu| <= |t.rx| {
        SyncedTail(next, sdu, fd, 0);
      } else {
        CfsIgnored(next, sdu, fd, 0);
      }
    }
  }

  // ---------------------------------------------------------------------------------------------
  // Loss
  // ---------------------------------------------------------------------------------------------

  /** The frames of fs a lossy bus lets through: those whose flag is set, in order. */
  function Surviving(fs: seq<Frame>, keep: seq<bool>): (s: seq<Frame>)
    requires |fs| == |keep| && AllWellFormed(fs)
    ensures AllWellFormed(s)
    decreases |fs|
  {
    if fs == [] then []
    else
      var rest := Surviving(fs[1..], keep[1..]);
      if keep[0] then
        assert ([fs[0]] + rest)[1..] == rest;
        [fs[0]] + rest
      else rest
  }

  predicate All(keep: seq<bool>) { keep == [] || (keep[0] && All(keep[1..])) }

  /** Reception of a lossy list, one frame at a time. */
  lemma SurvivingCons(t: Tp, f: Frame, fs: seq<Frame>, keep: seq<bool>)
    requires Valid(t) && |fs| + 1 == |keep| && WellFormed(f) && AllWellFormed(fs)
    ensures AllWellFormed([f] + fs)
    ensures var one := Receive(t, f);
            var rest := ReceiveAll(if keep[0] then one.tp else t, Surviving(fs, keep[1..]));
            var all := ReceiveAll(t, Surviving([f] + fs, keep));
            && all.tp == rest.tp
            && all.sdus == (if keep[0] then Delivered(one.sdu) else []) + rest.sdus
  {
    hide Receive, Valid, WellFormed;
    var rest := Surviving(fs, keep[1..]);
    assert ([f] + fs)[1..] == fs;
    if keep[0] {
      assert Surviving([f] + fs, keep)[0] == f && Surviving([f] + fs, keep)[1..] == rest;
    } else {
      assert Surviving([f] + fs, keep) == rest;
    }
  }

  /** Before consecutive frame k, something of the message is already missing for good. */
  ghost predicate Lagging(t: Tp, sdu: seq<byte>, fd: bool, k: nat) {
    && Valid(t) && Multi(sdu, fd)
    && (t.state.Idle? || (t.state.RxWaitCf? && k >= 1 && t.msgLen == |sdu| && t.done <= Offset(fd, k - 1)))
  }

  lemma LaggingStep(t: Tp, sdu: seq<byte>, fd: bool, k: nat)
    requires Lagging(t, sdu, fd, k) && More(sdu, fd, k)
    ensures var r := Receive(t, Cf(sdu, fd, k));
            r.sdu == None && Lagging(r.tp, sdu, fd, k + 1) && (t.state.Idle? ==> r.tp.state.Idle?)
    ensures Lagging(t, sdu, fd, k + 1)
  {
    hide Cf, Pci, WellFormed, Patch;
    CfFacts(sdu, fd, k);
  }

  lemma {:induction false} LaggingTail(t: Tp, sdu: seq<byte>, fd: bool, k: nat, keep: seq<bool>)
    requires Lagging(t, sdu, fd, k) && |keep| == |CfsFrom(sdu, fd, k)|
    ensures var r := ReceiveAll(t, Surviving(CfsFrom(sdu, fd, k), keep));
            r.sdus == [] && (t.state.Idle? ==> r.tp.state.Idle?)
    decreases |sdu| - Offset(fd, k)
  {
    if More(sdu, fd, k) {
      LaggingStep(t, sdu, fd, k);
      hide Receive, ReceiveAll, Surviving, Valid, Lagging, Cf, WellFormed;
      SurvivingCons(t, Cf(sdu, fd, k), CfsFrom(sdu, fd, k + 1), keep);
      LaggingTail(if keep[0] then Receive(t, Cf(sdu, fd, k)).tp else t, sdu, fd, k + 1, keep[1..]);
    }
  }

  /** Losing the frame it waits for makes a synchronised receiver lag. */
  lemma SyncedFacts(t: Tp, sdu: seq<byte>, fd: bool, k: nat)
    requires InSync(t, sdu, fd, k)
    ensures Valid(t) && Multi(sdu, fd) && More(sdu, fd, k) && Lagging(t, sdu, fd, k + 1)
    ensures Offset(fd, k) < Offset(fd, k + 1)
  {
  }

  lemma {:induction false} SyncedLossyTail(t: Tp, sdu: seq<byte>, fd: bool, k: nat, keep: seq<bool>)
    requires InSync(t, sdu, fd, k) && |keep| == |CfsFrom(sdu, fd, k)|
    ensures var r := ReceiveAll(t, Surviving(CfsFrom(sdu, fd, k), keep));
            && r.sdus == (if All(keep) then [sdu] else [])
            && (All(keep) ==> r.tp.state.Idle?)
    decreases |sdu| - Offset(fd, k)
  {
    hide Receive, Valid, Cf, WellFormed, InSync, Lagging, ReceiveAll, Surviving, Offset;
    SyncedFacts(t, sdu, fd, k);
    CfAccepted(t, sdu, fd, k);
    var next := Receive(t, Cf(sdu, fd, k)).tp;
    SurvivingCons(t, Cf(sdu, fd, k), CfsFrom(sdu, fd, k + 1), keep);
    if !keep[0] {
      LaggingTail(t, sdu, fd, k + 1, keep[1..]);
    } else if |keep| > 1 {
      SyncedLossyTail(next, sdu, fd, k + 1, keep[1..]);
    } else {
      ReceiveNothing(next, CfsFrom(sdu, fd, k + 1), keep[1..]);
    }
  }

  lemma ReceiveNothing(t: Tp, fs: seq<Frame>, keep: seq<bool>)
    requires Valid(t) && fs == [] && keep == []
    ensures ReceiveAll(t, Surviving(fs, keep)) == Reception(t, [], [])
  {
  }

  /** Loss safety for one message: whatever frames the bus loses, however many in a row, the receiver
      delivers the whole message when none is lost and nothing when any is. The message must find
      the receiver idle, unless its opening frame gets through and resets it. */
  lemma LossSafety(t: Tp, sdu: seq<byte>, fd: bool, keep: seq<bool>)
    requires Valid(t) && |sdu| <= PENDING_SIZE && |keep| == |Segments(sdu, fd)|
    requires t.state.Idle? || keep[0]
    ensures var r := ReceiveAll(t, Surviving(Segments(sdu, fd), keep));
            && r.sdus == (if All(keep) && Receivable(|t.rx|, sdu, fd) then [sdu] else [])
            && (All(keep) || !keep[0] ==> r.tp.state.Idle?)
  {
    hide Receive, ReceiveAll, Surviving, WellFormed, CfsFrom, FirstFrame, SingleFrame, All;
    if |sdu| <= MaxSf(fd) {
      SingleLoss(t, sdu, keep);
    } else {
      MultiLoss(t, sdu, fd, keep);
    }
  }

  lemma SingleLoss(t: Tp, sdu: seq<byte>, keep: seq<bool>)
    requires Valid(t) && |sdu| <= SF_MAX_CANFD && |keep| == 1
    ensures AllWellFormed([SingleFrame(sdu)])
    ensures var r := ReceiveAll(t, Surviving([SingleFrame(sdu)], keep));
            && r.sdus == (if All(keep) && sdu != [] then [sdu] else [])
            && r.tp.state == (if keep[0] then Idle else t.state)
  {
    hide Receive, ReceiveAll, Surviving, WellFormed, SingleFrame;
    SingleFrameDelivers(t, sdu);
    SurvivingCons(t, SingleFrame(sdu), [], keep);
    ReceiveNothing(if keep[0] then Receive(t, SingleFrame(sdu)).tp else t, [], keep[1..]);
    assert [SingleFrame(sdu)] + [] == [SingleFrame(sdu)];
  }

  lemma MultiLoss(t: Tp, sdu: seq<byte>, fd: bool, keep: seq<bool>)
    requires Valid(t) && Multi(sdu, fd) && |keep| == |Segments(sdu, fd)|
    requires t.state.Idle? || keep[0]
    ensures var r := ReceiveAll(t, Surviving(Segments(sdu, fd), keep));
            && r.sdus == (if All(keep) && |sdu| <= |t.rx| then [sdu] else [])
            && (All(keep) || !keep[0] ==> r.tp.state.Idle?)
  {
    hide Receive, ReceiveAll, Surviving, WellFormed, CfsFrom, FirstFrame, InSync;
    FirstFrameSyncs(t, sdu, fd);
    SurvivingCons(t, FirstFrame(sdu, fd), CfsFrom(sdu, fd, 0), keep);
    var next := if keep[0] then Receive(t, FirstFrame(sdu, fd)).tp else t;
    if keep[0] && |sdu| <= |t.rx| {
      SyncedLossyTail(next, sdu, fd, 0, keep[1..]);
    } else {
      LaggingTail(next, sdu, fd, 0, keep[1..]);
    }
  }

  // --- streams of messages ---------------------------------------------------------------------

  datatype Sent = Sent(sdu: seq<byte>, keep: seq<bool>)

  predicate SentOk(m: Sent, fd: bool) {
    |m.sdu| <= PENDING_SIZE && |m.keep| == |Segments(m.sdu, fd)|
  }

  predicate AllSentOk(ms: seq<Sent>, fd: bool) {
    ms == [] || (SentOk(ms[0], fd) && AllSentOk(ms[1..], fd))
  }

  /** No opening frame is lost while the receiver still waits for the rest of an earlier message. */
  predicate OpeningsGuarded(ms: seq<Sent>, idle: bool) {
    ms == [] ||
    (&& ms[0].keep != []
     && (idle || ms[0].keep[0])
     && OpeningsGuarded(ms[1..], All(ms[0].keep) || !ms[0].keep[0]))
  }

  /** What reaches the receiver of a whole stream. */
  function Bus(ms: seq<Sent>, fd: bool): (fs: seq<Frame>)
    requires AllSentOk(ms, fd)
    ensures AllWellFormed(fs)
  {
    if ms == [] then []
    else
      var head, rest := Surviving(Segments(ms[0].sdu, fd), ms[0].keep), Bus(ms[1..], fd);
      WellFormedAppend(head, rest);
      head + rest
  }

  /** The messages of a stream no frame of which is lost. */
  function Whole(ms: seq<Sent>, rxSize: nat, fd: bool): seq<seq<byte>> {
    if ms == [] then []
    else (if All(ms[0].keep) && Receivable(rxSize, ms[0].sdu, fd) then [ms[0].sdu] else []) + Whole(ms[1..], rxSize, fd)
  }

  /** Loss safety for a stream: exactly the messages that got through whole are delivered, in order. */
  lemma {:induction false} StreamLossSafety(t: Tp, ms: seq<Sent>, fd: bool, idle: bool)
    requires Valid(t) && (idle ==> t.state.Idle?)
    requires AllSentOk(ms, fd) && OpeningsGuarded(ms, idle)
    ensures ReceiveAll(t, Bus(ms, fd)).sdus == Whole(ms, |t.rx|, fd)
    decreases |ms|
  {
    hide Receive, Valid, WellFormed, Segments, Receivable;
    if ms != [] {
      var m := ms[0];
      var head := Surviving(Segments(m.sdu, fd), m.keep);
      LossSafety(t, m.sdu, fd, m.keep);
      ReceiveAllAppend(t, head, Bus(ms[1..], fd));
      StreamLossSafety(ReceiveAll(t, head).tp, ms[1..], fd, All(m.keep) || !m.keep[0]);
    }
  }

  // --- a single frame in the middle --------------------------------------------------------------

  /** The consecutive frames number j up to, but not including, k. */
  function CfsBetween(sdu: seq<byte>, fd: bool, j: nat, k: nat): (s: seq<Frame>)
    requires Multi(sdu, fd) && j <= k && (j < k ==> More(sdu, fd, k - 1))
    ensures |s| == k - j && AllWellFormed(s)
    decreases k - j
  {
    if j == k then []
    else
      var rest := CfsBetween(sdu, fd, j + 1, k);
      assert ([Cf(sdu, fd, j)] + rest)[1..] == rest;
      [Cf(sdu, fd, j)] + rest
  }

  lemma {:induction false} CfsSplit(sdu: seq<byte>, fd: bool, j: nat, k: nat)
    requires Multi(sdu, fd) && j <= k && (j < k ==> More(sdu, fd, k - 1))
    ensures CfsFrom(sdu, fd, j) == CfsBetween(sdu, fd, j, k) + CfsFrom(sdu, fd, k)
    decreases k - j
  {
    hide Cf, WellFormed;
    if j < k {
      CfsSplit(sdu, fd, j + 1, k);
    }
  }

  lemma EarlierMore(sdu: seq<byte>, fd: bool, j: nat, k: nat)
    requires More(sdu, fd, k) && j <= k
    ensures More(sdu, fd, j) && (0 < k ==> More(sdu, fd, k - 1))
  {
  }

  lemma BetweenCons(sdu: seq<byte>, fd: bool, j: nat, k: nat)
    requires j < k && More(sdu, fd, k)
    ensures More(sdu, fd, k - 1) && More(sdu, fd, j) && Multi(sdu, fd)
    ensures CfsBetween(sdu, fd, j, k) == [Cf(sdu, fd, j)] + CfsBetween(sdu, fd, j + 1, k)
  {
    hide Cf, WellFormed;
  }

  lemma NoneBetween(t: Tp, sdu: seq<byte>, fd: bool, k: nat)
    requires Valid(t) && Multi(sdu, fd)
    ensures ReceiveAll(t, CfsBetween(sdu, fd, k, k)) == Reception(t, [], [])
  {
  }

  /** After the consecutive frames j..k the receiver is in step at k and has delivered nothing. */
  lemma {:induction false} SyncedPrefix(t: Tp, sdu: seq<byte>, fd: bool, j: nat, k: nat)
    requires InSync(t, sdu, fd, j) && j <= k && More(sdu, fd, k)
    ensures var r := ReceiveAll(t, CfsBetween(sdu, fd, j, k));
            InSync(r.tp, sdu, fd, k) && r.sdus == [] && r.replies == []
    decreases k - j
  {
    hide Receive, ReceiveAll, Valid, WellFormed, Cf, InSync, Offset, More, Multi, CfsBetween;
    SyncedFacts(t, sdu, fd, j);
    if j == k {
      NoneBetween(t, sdu, fd, k);
    } else {
      CfAccepted(t, sdu, fd, j);
      EarlierMore(sdu, fd, j + 1, k);
      BetweenCons(sdu, fd, j, k);
      ReceiveCons(t, Cf(sdu, fd, j), CfsBetween(sdu, fd, j + 1, k));
      SyncedPrefix(Receive(t, Cf(sdu, fd, j)).tp, sdu, fd, j + 1, k);
    }
  }

  /** A single frame sent in the middle of a multi-frame message (which the sender allows) makes the
      receiver drop that message: it delivers the single frame's content, if any, and nothing else. */
  lemma SingleFrameInterrupts(t: Tp, sdu: seq<byte>, fd: bool, k: nat, other: seq<byte>)
    requires Valid(t) && More(sdu, fd, k) && |sdu| <= |t.rx|
    requires |other| <= MaxSf(fd)
    ensures Segments(sdu, fd) == [FirstFrame(sdu, fd)] + CfsBetween(sdu, fd, 0, k) + CfsFrom(sdu, fd, k)
    ensures var bus := [FirstFrame(sdu, fd)] + CfsBetween(sdu, fd, 0, k) + [SingleFrame(other)] + CfsFrom(sdu, fd, k);
            AllWellFormed(bus) && ReceiveAll(t, bus).sdus == if other == [] then [] else [other]
  {
    hide Receive, Valid, ReceiveAll, WellFormed, AllWellFormed, InSync, FirstFrame, CfsFrom, CfsBetween;
    CfsSplit(sdu, fd, 0, k);
    var f, cfs := FirstFrame(sdu, fd), CfsBetween(sdu, fd, 0, k);
    assert [f] + (cfs + CfsFrom(sdu, fd, k)) == [f] + cfs + CfsFrom(sdu, fd, k);
    FirstFrameSyncs(t, sdu, fd);
    OneWellFormed(f);
    ReceiveOne(t, f);
    SyncedPrefix(Receive(t, f).tp, sdu, fd, 0, k);
    ReceiveAllAppend(t, [f], cfs);
    SingleFrameCuts(t, [f] + cfs, sdu, fd, k, other);
  }

  lemma SingleFrameCuts(t: Tp, head: seq<Frame>, sdu: seq<byte>, fd: bool, k: nat, other: seq<byte>)
    requires Valid(t) && AllWellFormed(head) && ReceiveAll(t, head).sdus == []
    requires Multi(sdu, fd) && |other| <= SF_MAX_CANFD
    ensures var bus := head + [SingleFrame(other)] + CfsFrom(sdu, fd, k);
            AllWellFormed(bus) && ReceiveAll(t, bus).sdus == if other == [] then [] else [other]
  {
    hide Receive, Valid, ReceiveAll, WellFormed, AllWellFormed, SingleFrame, CfsFrom, Multi;
    var sf, mid := SingleFrame(other), ReceiveAll(t, head).tp;
    SingleFrameDelivers(mid, other);
    OneWellFormed(sf);
    ReceiveOne(mid, sf);
    ReceiveAllAppend(t, head, [sf]);
    ReceiveAllAppend(t, head + [sf], CfsFrom(sdu, fd, k));
    CfsIgnored(ReceiveAll(t, head + [sf]).tp, sdu, fd, k);
  }
}
