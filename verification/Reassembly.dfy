/**
 The receiving side over runs of any events. A reference reassembler, which has no buffer and no
 offsets and only appends what frames carry, is refined by the engine; from it follow delivery for
 peers that fill their frames differently, and exactly what a receiver makes of consecutive frames
 that come from several messages.
 */
module Reassembly {
  import opened Bytes
  import opened IsoTp
  import opened Segmentation
  import opened Transmission

  // ---------------------------------------------------------------------------------------------
  // The reference
  // ---------------------------------------------------------------------------------------------

  /** Nothing under way, or a message of length len of which got has arrived. */
  datatype Assembly = Waiting | Partial(len: nat, next: byte, got: seq<byte>)

  datatype Assembled = Assembled(now: Assembly, sdus: seq<seq<byte>>)

  /** The message of a single frame, if its length field makes sense. */
  function SingleContent(f: Frame): Option<seq<byte>>
    requires WellFormed(f)
  {
    var h := if f[0] % 16 != 0 then 1 else 2;
    var n := if h == 1 then f[0] % 16 else if |f| < 2 then 0 else f[1];
    if 1 <= n <= |f| - h then Some(f[h..h + n]) else None
  }

  /** A frame: an opening one starts afresh, a consecutive one in turn is appended, one out of turn
      ends the reception. Bytes beyond the announced length are padding. */
  function Assemble(a: Assembly, room: nat, f: Frame): Assembled
    requires WellFormed(f)
  {
    if Pci(f) == 0 then Assembled(Waiting, Delivered(SingleContent(f)))
    else if Pci(f) == PCI_FF then
      Assembled(if 8 <= FfLength(f) <= room then Partial(FfLength(f), 1, f[2..]) else Waiting, [])
    else if Pci(f) != PCI_CF || a.Waiting? then Assembled(a, [])
    else if f[0] % 16 != a.next then Assembled(Waiting, [])
    else
      var got := a.got + f[1..];
      if |got| >= a.len then Assembled(Waiting, [got[..a.len]])
      else Assembled(Partial(a.len, (a.next + 1) % 16, got), [])
  }

  /** Of the engine's other calls only the start of a multi-frame transmission matters. */
  function AssembleEvent(a: Assembly, fd: bool, room: nat, e: TpEvent): Assembled
    requires EventOk(e)
  {
    match e
    case Submit(sdu, _) => Assembled(if Multi(sdu, fd) then Waiting else a, [])
    case Clock(_, _) => Assembled(a, [])
    case Incoming(f) => Assemble(a, room, f)
  }

  function AssembleRun(a: Assembly, fd: bool, room: nat, evs: seq<TpEvent>): Assembled
    requires AllOk(evs)
    decreases |evs|
  {
    if evs == [] then Assembled(a, [])
    else
      var one := AssembleEvent(a, fd, room, evs[0]);
      var rest := AssembleRun(one.now, fd, room, evs[1..]);
      Assembled(rest.now, one.sdus + rest.sdus)
  }

  // ---------------------------------------------------------------------------------------------
  // The engine refines it
  // ---------------------------------------------------------------------------------------------

  /** What an event makes the engine hand up. */
  function HandsUp(t: Tp, e: TpEvent): seq<seq<byte>>
    requires Valid(t) && EventOk(e)
  {
    if e.Incoming? then Delivered(Receive(t, e.frame).sdu) else []
  }

  function HandsUpAll(t: Tp, evs: seq<TpEvent>): seq<seq<byte>>
    requires Valid(t) && AllOk(evs)
    decreases |evs|
  {
    if evs == [] then [] else HandsUp(t, evs[0]) + HandsUpAll(Next(t, evs[0]), evs[1..])
  }

  /** The receive invariant: while receiving, the buffer holds, in order, exactly the data of the
      frames accepted for this message, and less than the message. */
  ghost predicate Holds(t: Tp, a: Assembly) {
    && Valid(t)
    && match a
       case Waiting => !t.state.RxWaitCf?
       case Partial(len, next, got) =>
         && t.state.RxWaitCf? && t.msgLen == len && t.sn == next
         && t.done == |got| && t.rx[..t.done] == got
  }

  /** The assembly a state of the engine stands for. */
  ghost function Abstract(t: Tp): (a: Assembly)
    requires Valid(t)
    ensures Holds(t, a)
  {
    if t.state.RxWaitCf? then Partial(t.msgLen, t.sn, t.rx[..t.done]) else Waiting
  }

  lemma PatchAppends(rx: seq<byte>, at: nat, data: seq<byte>)
    requires at + |data| <= |rx|
    ensures Patch(rx, at, data)[..at + |data|] == rx[..at] + data
  {
    var p := Patch(rx, at, data);
    assert p[..at + |data|] == p[..at] + p[at..at + |data|];
  }

  lemma FfStep(t: Tp, a: Assembly, f: Frame)
    requires Holds(t, a) && WellFormed(f) && Pci(f) == PCI_FF
    ensures var r := Receive(t, f);
            Holds(r.tp, Assemble(a, |t.rx|, f).now) && r.sdu == None
  {
    hide Pci, FfLength, Patch, FlowControl;
    if 8 <= FfLength(f) <= |t.rx| {
      PatchAppends(t.rx, 0, f[2..]);
      assert f[2..] == f[2..2 + (if |f| > MAX_DL_CAN then |f| - 2 else FF_DATA_CAN)];
      assert t.rx[..0] + f[2..] == f[2..];
    }
  }

  lemma CfStep(t: Tp, a: Assembly, f: Frame)
    requires Holds(t, a) && WellFormed(f) && Pci(f) == PCI_CF
    ensures var r := Receive(t, f);
            var m := Assemble(a, |t.rx|, f);
            Holds(r.tp, m.now) && Delivered(r.sdu) == m.sdus
  {
    hide Pci, Patch;
    if a.Partial? && f[0] % 16 == a.next {
      var n := Min(t.msgLen - t.done, |f| - 1);
      PatchAppends(t.rx, t.done, f[1..1 + n]);
      assert (a.got + f[1..])[..t.done + n] == a.got + f[1..1 + n];
      if t.done + n < t.msgLen {
        assert f[1..1 + n] == f[1..];
      }
    }
  }

  /** One event of any kind. */
  lemma RefinesStep(t: Tp, a: Assembly, e: TpEvent)
    requires Holds(t, a) && EventOk(e)
    ensures var m := AssembleEvent(a, t.fd, |t.rx|, e);
            Holds(Next(t, e), m.now) && HandsUp(t, e) == m.sdus
  {
    hide Pci, FfLength, Patch;
    if e.Incoming? && Pci(e.frame) == PCI_FF {
      FfStep(t, a, e.frame);
    } else if e.Incoming? && Pci(e.frame) == PCI_CF {
      CfStep(t, a, e.frame);
    }
  }

  /** Receive invariant over whole runs: whatever frames, ticks and sends are interleaved, the engine
      holds what the reference holds and hands up, in order, exactly the messages it completes. */
  lemma {:induction false} EngineRefinesAssembly(t: Tp, a: Assembly, evs: seq<TpEvent>)
    requires Holds(t, a) && AllOk(evs)
    ensures var m := AssembleRun(a, t.fd, |t.rx|, evs);
            Holds(Run(t, evs).tp, m.now) && HandsUpAll(t, evs) == m.sdus
    decreases |evs|
  {
    hide Holds, Valid, Next, AssembleEvent, HandsUp, EventOk;
    HoldsValid(t, a);
    if evs != [] {
      RefinesStep(t, a, evs[0]);
      EngineRefinesAssembly(Next(t, evs[0]), AssembleEvent(a, t.fd, |t.rx|, evs[0]).now, evs[1..]);
    }
  }

  lemma HoldsValid(t: Tp, a: Assembly)
    requires Holds(t, a)
    ensures Valid(t)
  {
  }

  // ---------------------------------------------------------------------------------------------
  // Peers with other frame sizes
  // ---------------------------------------------------------------------------------------------

  /** Events that have nothing to do with a reception: ticks, sends that start no multi-frame
      transmission, frames that are neither opening nor consecutive. */
  predicate Bystander(fd: bool, e: TpEvent) {
    EventOk(e) &&
    match e
    case Submit(sdu, _) => !Multi(sdu, fd)
    case Clock(_, _) => true
    case Incoming(f) => Pci(f) != 0 && Pci(f) != PCI_FF && Pci(f) != PCI_CF
  }

  /** The events bring the rest of a message in consecutive frames of any sizes, numbered from next
      on, with bystanders anywhere in between; the last frame may be padded. */
  predicate Carries(fd: bool, evs: seq<TpEvent>, next: byte, rest: seq<byte>)
    ensures Carries(fd, evs, next, rest) ==> AllOk(evs)
    decreases |evs|
  {
    && evs != []
    && if Bystander(fd, evs[0]) then Carries(fd, evs[1..], next, rest)
       else
         && evs[0].Incoming? && WellFormed(evs[0].frame)
         && var f := evs[0].frame;
         && Pci(f) == PCI_CF && f[0] % 16 == next
         && if |evs| == 1 then |rest| <= |f| - 1 && f[1..][..|rest|] == rest
            else
              && |f| - 1 < |rest| && f[1..] == rest[..|f| - 1]
              && Carries(fd, evs[1..], (next + 1) % 16, rest[|f| - 1..])
  }

  lemma {:induction false} CarriedCompletes(a: Assembly, fd: bool, room: nat, evs: seq<TpEvent>, sdu: seq<byte>)
    requires a.Partial? && a.len == |sdu| && |a.got| < |sdu| && a.got == sdu[..|a.got|]
    requires Carries(fd, evs, a.next, sdu[|a.got|..])
    ensures AssembleRun(a, fd, room, evs) == Assembled(Waiting, [sdu])
    decreases |evs|
  {
    hide Pci, FfLength;
    if Bystander(fd, evs[0]) {
      CarriedCompletes(a, fd, room, evs[1..], sdu);
    } else {
      var f, rest := evs[0].frame, sdu[|a.got|..];
      if |evs| == 1 {
        assert evs[1..] == [];
        assert (a.got + f[1..])[..|sdu|] == a.got + f[1..][..|rest|] == sdu;
      } else {
        var got := a.got + f[1..];
        assert got == sdu[..|got|];
        assert rest[|f| - 1..] == sdu[|got|..];
        CarriedCompletes(Partial(a.len, (a.next + 1) % 16, got), fd, room, evs[1..], sdu);
      }
    }
  }

  /** A message that any peer sends, with consecutive frames of whatever sizes and interleaved with
      whatever else the engine does, is delivered, once, by a receiver in any state. */
  lemma AnyPeerDelivers(t: Tp, first: Frame, evs: seq<TpEvent>, sdu: seq<byte>)
    requires Valid(t) && 8 <= |sdu| <= |t.rx|
    requires WellFormed(first) && Pci(first) == PCI_FF && FfLength(first) == |sdu|
    requires first[2..] == sdu[..|first| - 2]
    requires Carries(t.fd, evs, 1, sdu[|first| - 2..])
    ensures AllOk([Incoming(first)] + evs)
    ensures HandsUpAll(t, [Incoming(first)] + evs) == [sdu]
    ensures !Run(t, [Incoming(first)] + evs).tp.state.RxWaitCf?
  {
    hide Pci, Carries, Receive, Valid;
    var all := [Incoming(first)] + evs;
    assert all[1..] == evs;
    CarriedCompletes(Partial(|sdu|, 1, first[2..]), t.fd, |t.rx|, evs, sdu);
    EngineRefinesAssembly(t, Abstract(t), all);
  }

  /** The frame opens the same message again, with the same data. */
  predicate RepeatsOpening(sdu: seq<byte>, fd: bool, f: Frame)
    requires WellFormed(f) && Multi(sdu, fd)
  {
    Pci(f) == PCI_FF && FfLength(f) == |sdu| && f[2..] == sdu[..FfData(fd)]
  }

  /** Exactly the events that leave a receiver in step: any other opening frame, any consecutive frame
      before its turn, and any multi-frame transmission of its own end the reception or move it on. */
  lemma ReceptionSurvivesIff(t: Tp, sdu: seq<byte>, fd: bool, k: nat, e: TpEvent)
    requires InSync(t, sdu, fd, k) && EventOk(e)
    ensures InSync(Next(t, e), sdu, fd, k) <==>
            Bystander(t.fd, e) || (k == 0 && e.Incoming? && RepeatsOpening(sdu, fd, e.frame))
  {
    hide Pci, FfLength, Patch;
    var a := Partial(|sdu|, (1 + k) % 16, sdu[..Offset(fd, k)]);
    RefinesStep(t, a, e);
    HoldsIsInSync(t, sdu, fd, k);
    HoldsIsInSync(Next(t, e), sdu, fd, k);
    var m := AssembleEvent(a, t.fd, |t.rx|, e).now;
    HoldsOne(Next(t, e), m, a);
    if e.Incoming? && Pci(e.frame) == PCI_CF && m.Partial? {
      assert m.next != a.next;
    }
  }

  lemma HoldsIsInSync(t: Tp, sdu: seq<byte>, fd: bool, k: nat)
    requires Valid(t) && More(sdu, fd, k)
    ensures InSync(t, sdu, fd, k) <==> Holds(t, Partial(|sdu|, (1 + k) % 16, sdu[..Offset(fd, k)]))
  {
  }

  lemma HoldsOne(t: Tp, a: Assembly, b: Assembly)
    requires Holds(t, a)
    ensures Holds(t, b) <==> a == b
  {
  }

  // ---------------------------------------------------------------------------------------------
  // Consecutive frames of several messages
  // ---------------------------------------------------------------------------------------------

  predicate AllCf(fs: seq<Frame>)
    ensures AllCf(fs) ==> AllWellFormed(fs)
  {
    fs == [] || (WellFormed(fs[0]) && Pci(fs[0]) == PCI_CF && AllCf(fs[1..]))
  }

  /** Everything the frames carry after their first byte, padding included. */
  function Payload(fs: seq<Frame>): seq<byte>
    requires AllCf(fs)
  {
    if fs == [] then [] else fs[0][1..] + Payload(fs[1..])
  }

  predicate InSequence(fs: seq<Frame>, next: byte)
    requires AllCf(fs)
    decreases |fs|
  {
    fs == [] || (fs[0][0] % 16 == next && InSequence(fs[1..], (next + 1) % 16))
  }

  lemma {:induction false} PrefixIsCf(fs: seq<Frame>, n: nat)
    requires AllCf(fs) && n <= |fs|
    ensures AllCf(fs[..n])
  {
    if n > 0 {
      PrefixIsCf(fs[1..], n - 1);
      assert fs[..n][1..] == fs[1..][..n - 1];
    }
  }

  /** The first n frames are numbered in sequence from next on and carry at least need bytes. */
  predicate Supplies(fs: seq<Frame>, next: byte, need: nat, n: nat)
    requires AllCf(fs)
  {
    n <= |fs| &&
    (PrefixIsCf(fs, n);
     InSequence(fs[..n], next) && |Payload(fs[..n])| >= need)
  }

  /** What is still needed after a frame. */
  function Rest(need: nat, f: Frame): nat
    requires WellFormed(f)
  {
    if need <= |f| - 1 then 0 else need - (|f| - 1)
  }

  lemma SuppliesCons(fs: seq<Frame>, next: byte, need: nat, n: nat)
    requires AllCf(fs) && 0 < n <= |fs|
    ensures AllCf(fs[..n]) && AllCf(fs[1..][..n - 1])
    ensures Payload(fs[..n]) == fs[0][1..] + Payload(fs[1..][..n - 1])
    ensures Supplies(fs, next, need, n) <==>
            fs[0][0] % 16 == next && Supplies(fs[1..], (next + 1) % 16, Rest(need, fs[0]), n - 1)
  {
    hide Pci;
    PrefixIsCf(fs, n);
    PrefixIsCf(fs[1..], n - 1);
    assert fs[..n][1..] == fs[1..][..n - 1];
    assert |Payload(fs[..n])| == |fs[0]| - 1 + |Payload(fs[1..][..n - 1])|;
  }

  /** The least number of leading frames that supply what is needed, if any does. */
  function Enough(fs: seq<Frame>, next: byte, need: nat): Option<nat>
    requires AllCf(fs)
    decreases |fs|
  {
    if need == 0 then Some(0)
    else if fs == [] || fs[0][0] % 16 != next then None
    else
      var rest := Enough(fs[1..], (next + 1) % 16, Rest(need, fs[0]));
      if rest.Some? then Some(rest.value + 1) else None
  }

  lemma {:induction false} EnoughIsLeast(fs: seq<Frame>, next: byte, need: nat, n: nat)
    requires AllCf(fs)
    ensures var e := Enough(fs, next, need);
            && (e.Some? ==> Supplies(fs, next, need, e.value))
            && (Supplies(fs, next, need, n) ==> e.Some? && e.value <= n)
    decreases |fs|
  {
    hide Pci, WellFormed, Supplies;
    SuppliesNone(fs, next, need);
    if need > 0 && fs != [] {
      var e := Enough(fs[1..], (next + 1) % 16, Rest(need, fs[0]));
      EnoughIsLeast(fs[1..], (next + 1) % 16, Rest(need, fs[0]), if n > 0 then n - 1 else 0);
      if 0 < n <= |fs| {
        SuppliesCons(fs, next, need, n);
      }
      if e.Some? {
        SuppliesBound(fs[1..], (next + 1) % 16, Rest(need, fs[0]), e.value);
        SuppliesCons(fs, next, need, e.value + 1);
      }
    }
    SuppliesBound(fs, next, need, n);
  }

  lemma SuppliesNone(fs: seq<Frame>, next: byte, need: nat)
    requires AllCf(fs)
    ensures Supplies(fs, next, need, 0) <==> need == 0
  {
  }

  lemma SuppliesBound(fs: seq<Frame>, next: byte, need: nat, n: nat)
    requires AllCf(fs)
    ensures Supplies(fs, next, need, n) ==> n <= |fs|
  {
  }

  function AssembleAll(a: Assembly, room: nat, fs: seq<Frame>): Assembled
    requires AllWellFormed(fs)
    decreases |fs|
  {
    if fs == [] then Assembled(a, [])
    else
      var one := Assemble(a, room, fs[0]);
      var rest := AssembleAll(one.now, room, fs[1..]);
      Assembled(rest.now, one.sdus + rest.sdus)
  }

  lemma {:induction false} ReceiveAllRefines(t: Tp, a: Assembly, fs: seq<Frame>)
    requires Holds(t, a) && AllWellFormed(fs)
    ensures var m := AssembleAll(a, |t.rx|, fs);
            Holds(ReceiveAll(t, fs).tp, m.now) && ReceiveAll(t, fs).sdus == m.sdus
    decreases |fs|
  {
    hide Holds, Valid, Receive, Assemble, WellFormed;
    HoldsValid(t, a);
    if fs != [] {
      RefinesStep(t, a, Incoming(fs[0]));
      ReceiveAllRefines(Receive(t, fs[0]).tp, Assemble(a, |t.rx|, fs[0]).now, fs[1..]);
    }
  }

  lemma {:induction false} WaitingIgnores(room: nat, fs: seq<Frame>)
    requires AllCf(fs)
    ensures AssembleAll(Waiting, room, fs) == Assembled(Waiting, [])
  {
    if fs != [] {
      WaitingIgnores(room, fs[1..]);
    }
  }

  /** A message under way, then consecutive frames of whatever origin: if enough of them are in
      sequence, what they carry completes the message, and otherwise nothing is delivered. */
  lemma {:induction false} CfsComplete(a: Assembly, room: nat, fs: seq<Frame>)
    requires a.Partial? && |a.got| < a.len && AllCf(fs)
    ensures match Enough(fs, a.next, a.len - |a.got|)
            case None => AssembleAll(a, room, fs).sdus == []
            case Some(n) =>
              && n <= |fs| && AllCf(fs[..n]) && |a.got + Payload(fs[..n])| >= a.len
              && AssembleAll(a, room, fs) == Assembled(Waiting, [(a.got + Payload(fs[..n]))[..a.len]])
    decreases |fs|
  {
    hide Pci, FfLength, Supplies;
    if fs != [] {
      var need, one := a.len - |a.got|, Assemble(a, room, fs[0]);
      var rest := Enough(fs[1..], (a.next + 1) % 16, Rest(need, fs[0]));
      if one.now.Waiting? {
        WaitingIgnores(room, fs[1..]);
        assert AllCf(fs[..1]) && Payload(fs[..1]) == fs[0][1..] by {
          SuppliesCons(fs, a.next, need, 1);
        }
      } else {
        CfsComplete(one.now, room, fs[1..]);
        if rest.Some? {
          EnoughIsLeast(fs[1..], (a.next + 1) % 16, Rest(need, fs[0]), 0);
          SuppliesCons(fs, a.next, need, rest.value + 1);
          assert a.got + (fs[0][1..] + Payload(fs[1..][..rest.value])) == one.now.got + Payload(fs[1..][..rest.value]);
        }
      }
    }
  }

  // --- an opened message, then anything --------------------------------------------------------------

  /** What comes of a message whose opening frame was received, and the consecutive frames after it. */
  function Mixed(a: seq<byte>, fd: bool, fs: seq<Frame>): seq<seq<byte>>
    requires Multi(a, fd) && AllCf(fs)
  {
    var need := |a| - FfData(fd);
    EnoughIsLeast(fs, 1, need, 0);
    match Enough(fs, 1, need)
    case None => []
    case Some(n) =>
      PrefixIsCf(fs, n);
      [(a[..FfData(fd)] + Payload(fs[..n]))[..|a|]]
  }

  lemma OpenedThenCfs(t: Tp, a: seq<byte>, fd: bool, fs: seq<Frame>)
    requires Valid(t) && Multi(a, fd) && AllCf(fs)
    ensures AllWellFormed([FirstFrame(a, fd)] + fs)
    ensures ReceiveAll(t, [FirstFrame(a, fd)] + fs).sdus == if |a| <= |t.rx| then Mixed(a, fd, fs) else []
  {
    hide FirstFrame, Receive, ReceiveAll, WellFormed, AssembleAll, InSync, Enough, Valid, Holds, AllCf, Payload;
    FirstFrameSyncs(t, a, fd);
    CfWellFormed(fs);
    var f := FirstFrame(a, fd);
    ReceiveCons(t, f, fs);
    var next := Receive(t, f).tp;
    if |a| <= |t.rx| {
      InSyncFacts(next, a, fd, 0);
      var p := Partial(|a|, 1, a[..FfData(fd)]);
      HoldsIsInSync(next, a, fd, 0);
      ReceiveAllRefines(next, p, fs);
      CfsComplete(p, |t.rx|, fs);
    } else {
      HoldsWaiting(next);
      ReceiveAllRefines(next, Waiting, fs);
      WaitingIgnores(|t.rx|, fs);
    }
  }

  lemma CfWellFormed(fs: seq<Frame>)
    requires AllCf(fs)
    ensures AllWellFormed(fs)
  {
  }

  lemma InSyncFacts(t: Tp, sdu: seq<byte>, fd: bool, k: nat)
    requires InSync(t, sdu, fd, k)
    ensures Valid(t) && More(sdu, fd, k) && Offset(fd, k) < |sdu|
  {
  }

  lemma {:induction false} SurvivingCfs(sdu: seq<byte>, fd: bool, k: nat, keep: seq<bool>)
    requires Multi(sdu, fd) && |keep| == |CfsFrom(sdu, fd, k)|
    ensures AllCf(Surviving(CfsFrom(sdu, fd, k), keep))
    decreases |sdu| - Offset(fd, k)
  {
    hide Cf, WellFormed, Pci;
    if More(sdu, fd, k) {
      CfFacts(sdu, fd, k);
      assert CfsFrom(sdu, fd, k)[1..] == CfsFrom(sdu, fd, k + 1);
      SurvivingCfs(sdu, fd, k + 1, keep[1..]);
      var rest := Surviving(CfsFrom(sdu, fd, k + 1), keep[1..]);
      assert ([Cf(sdu, fd, k)] + rest)[1..] == rest;
    }
  }

  lemma {:induction false} AllCfAppend(a: seq<Frame>, b: seq<Frame>)
    requires AllCf(a) && AllCf(b)
    ensures AllCf(a + b)
  {
    hide WellFormed, Pci;
    if a == [] {
      assert a + b == b;
    } else {
      assert (a + b)[1..] == a[1..] + b;
      AllCfAppend(a[1..], b);
    }
  }

  // --- streams ---------------------------------------------------------------------------------

  /** The surviving consecutive frames of a message. */
  function Tail(m: Sent, fd: bool): (fs: seq<Frame>)
    requires SentOk(m, fd)
    ensures AllCf(fs)
  {
    if Multi(m.sdu, fd) then
      SurvivingCfs(m.sdu, fd, 0, m.keep[1..]);
      Surviving(CfsFrom(m.sdu, fd, 0), m.keep[1..])
    else []
  }

  function Opening(m: Sent, fd: bool): (f: Frame)
    requires SentOk(m, fd)
    ensures WellFormed(f)
  {
    if |m.sdu| <= MaxSf(fd) then SingleFrameFacts(m.sdu); SingleFrame(m.sdu)
    else FirstFrameFacts(m.sdu, fd); FirstFrame(m.sdu, fd)
  }

  lemma SurvivingSplit(m: Sent, fd: bool)
    requires SentOk(m, fd)
    ensures Surviving(Segments(m.sdu, fd), m.keep) == (if m.keep[0] then [Opening(m, fd)] else []) + Tail(m, fd)
  {
    hide CfsFrom, FirstFrame, SingleFrame, WellFormed;
    if Multi(m.sdu, fd) {
      assert Segments(m.sdu, fd)[1..] == CfsFrom(m.sdu, fd, 0);
    } else {
      assert Segments(m.sdu, fd)[1..] == [];
    }
  }

  /** The message a receiver is at work on, and the consecutive frames since its opening frame. */
  datatype Span = Span(open: Option<Sent>, fs: seq<Frame>)

  ghost predicate SpanOk(s: Span, fd: bool) {
    && AllCf(s.fs)
    && (s.open.Some? ==>
          && SentOk(s.open.value, fd) && Multi(s.open.value.sdu, fd) && s.open.value.keep[0]
          && Tail(s.open.value, fd) <= s.fs)
  }

  /** The message of the span is incomplete, but it and later messages whose opening frames were lost
      together have enough frames in sequence to make up its length. */
  predicate Splices(s: Span, room: nat, fd: bool)
    requires AllCf(s.fs) && (s.open.Some? ==> Multi(s.open.value.sdu, fd))
  {
    && s.open.Some? && |s.open.value.sdu| <= room && !All(s.open.value.keep)
    && Enough(s.fs, 1, |s.open.value.sdu| - FfData(fd)).Some?
  }

  /** The span after another message of the stream. */
  function Continue(s: Span, m: Sent, fd: bool): Span
    requires SentOk(m, fd)
  {
    if !m.keep[0] then s.(fs := s.fs + Tail(m, fd))
    else if Multi(m.sdu, fd) then Span(Some(m), Tail(m, fd))
    else Span(None, [])
  }

  /** The spans of a stream that splice. */
  function SpliceCount(s: Span, ms: seq<Sent>, room: nat, fd: bool): nat
    requires SpanOk(s, fd) && AllSentOk(ms, fd)
    decreases |ms|
  {
    if ms == [] then if Splices(s, room, fd) then 1 else 0
    else
      ContinueOk(s, ms[0], fd);
      (if ms[0].keep[0] && Splices(s, room, fd) then 1 else 0) + SpliceCount(Continue(s, ms[0], fd), ms[1..], room, fd)
  }

  lemma ContinueOk(s: Span, m: Sent, fd: bool)
    requires SpanOk(s, fd) && SentOk(m, fd)
    ensures SpanOk(Continue(s, m, fd), fd)
  {
    hide WellFormed, CfsFrom, Surviving;
    AllCfAppend(s.fs, Tail(m, fd));
  }

  /** The frames of a span. */
  function SpanFrames(s: Span, fd: bool): (fs: seq<Frame>)
    requires SpanOk(s, fd)
    ensures AllWellFormed(fs)
  {
    if s.open.Some? then
      FirstFrameFacts(s.open.value.sdu, fd);
      assert ([FirstFrame(s.open.value.sdu, fd)] + s.fs)[1..] == s.fs;
      [FirstFrame(s.open.value.sdu, fd)] + s.fs
    else s.fs
  }

  /** What a span ought to deliver. */
  function Due(s: Span, room: nat): seq<seq<byte>> {
    if s.open.Some? && All(s.open.value.keep) && |s.open.value.sdu| <= room then [s.open.value.sdu] else []
  }

  /** A span delivers what it ought to and, exactly when it splices, a message that was never sent. */
  lemma SpanOutcome(t: Tp, s: Span, fd: bool)
    requires Valid(t) && SpanOk(s, fd) && (s.open.None? ==> !t.state.RxWaitCf?)
    ensures var heard := ReceiveAll(t, SpanFrames(s, fd)).sdus;
            if Splices(s, |t.rx|, fd) then
              heard == Mixed(s.open.value.sdu, fd, s.fs) && |heard| == 1 && Due(s, |t.rx|) == []
            else heard == Due(s, |t.rx|)
  {
    hide ReceiveAll, Surviving, CfsFrom, FirstFrame, WellFormed, Enough, Valid, Tail;
    if s.open.None? {
      ReceiveAllRefines(t, Waiting, s.fs) by { HoldsWaiting(t); }
      WaitingIgnores(|t.rx|, s.fs);
    } else {
      OpenedThenCfs(t, s.open.value.sdu, fd, s.fs);
      if All(s.open.value.keep) {
        WholeThenTail(t, s, fd);
      }
    }
  }

  lemma HoldsWaiting(t: Tp)
    requires Valid(t) && !t.state.RxWaitCf?
    ensures Holds(t, Waiting)
  {
  }

  lemma WholeThenTail(t: Tp, s: Span, fd: bool)
    requires Valid(t) && SpanOk(s, fd) && s.open.Some? && All(s.open.value.keep)
    ensures ReceiveAll(t, SpanFrames(s, fd)).sdus == if |s.open.value.sdu| <= |t.rx| then [s.open.value.sdu] else []
  {
    hide ReceiveAll, Surviving, CfsFrom, FirstFrame, WellFormed, Valid, Segments, Tail, AllCf, AllWellFormed, Assemble,
         AssembleAll;
    var m := s.open.value;
    var head, tail := Surviving(Segments(m.sdu, fd), m.keep), s.fs[|Tail(m, fd)|..];
    SurvivingSplit(m, fd);
    LossSafety(t, m.sdu, fd, m.keep);
    SuffixIsCf(s.fs, |Tail(m, fd)|);
    assert SpanFrames(s, fd) == head + tail;
    ReceiveAllAppend(t, head, tail);
    var mid := ReceiveAll(t, head).tp;
    ReceiveAllRefines(mid, Waiting, tail) by { HoldsWaiting(mid); }
    WaitingIgnores(|t.rx|, tail);
  }

  lemma {:induction false} SuffixIsCf(fs: seq<Frame>, n: nat)
    requires AllCf(fs) && n <= |fs|
    ensures AllCf(fs[n..])
    decreases n
  {
    if n > 0 {
      SuffixIsCf(fs[1..], n - 1);
      assert fs[1..][n - 1..] == fs[n..];
    }
  }

  /** The next message of the stream, whose opening frame arrives. */
  lemma OpeningArrives(t: Tp, m: Sent, fd: bool)
    requires Valid(t) && SentOk(m, fd) && m.keep[0] && !Multi(m.sdu, fd)
    ensures var r := ReceiveAll(t, [Opening(m, fd)]);
            r.tp.state.Idle? && r.sdus == (if m.sdu == [] then [] else [m.sdu]) && All(m.keep) && |m.keep| == 1
  {
    hide WellFormed, Receive, SingleFrame;
    SingleFrameDelivers(t, m.sdu);
    ReceiveOne(t, Opening(m, fd));
  }

  lemma BusCons(ms: seq<Sent>, fd: bool)
    requires AllSentOk(ms, fd) && ms != []
    ensures SentOk(ms[0], fd) && AllSentOk(ms[1..], fd)
    ensures var opening := if ms[0].keep[0] then [Opening(ms[0], fd)] else [];
            Bus(ms, fd) == opening + Tail(ms[0], fd) + Bus(ms[1..], fd)
  {
    hide Opening, Tail, Segments, Surviving;
    SurvivingSplit(ms[0], fd);
  }

  /** The stream goes on with a message whose opening frame is lost. */
  lemma LostContinues(s: Span, ms: seq<Sent>, fd: bool)
    requires SpanOk(s, fd) && AllSentOk(ms, fd) && ms != [] && !ms[0].keep[0]
    ensures SpanOk(Continue(s, ms[0], fd), fd) && AllSentOk(ms[1..], fd)
    ensures SpanFrames(s, fd) + Bus(ms, fd) == SpanFrames(Continue(s, ms[0], fd), fd) + Bus(ms[1..], fd)
  {
    hide Tail, Bus, SpanOk, SpanFrames;
    BusCons(ms, fd);
    ContinueOk(s, ms[0], fd);
    SpanGrows(s, Continue(s, ms[0], fd), Tail(ms[0], fd), fd);
    Regroup(SpanFrames(s, fd), Tail(ms[0], fd), Bus(ms[1..], fd));
  }

  lemma Regroup(a: seq<Frame>, b: seq<Frame>, c: seq<Frame>)
    ensures a + ([] + b + c) == a + b + c
  {
  }

  lemma SpanGrows(s: Span, s': Span, fs: seq<Frame>, fd: bool)
    requires SpanOk(s, fd) && SpanOk(s', fd) && s' == s.(fs := s.fs + fs)
    ensures SpanFrames(s', fd) == SpanFrames(s, fd) + fs
  {
    hide FirstFrame, AllCf;
  }

  /** The stream goes on with a message whose opening frame arrives: what was under way is over. */
  lemma OpenedContinues(t: Tp, ms: seq<Sent>, fd: bool) returns (t': Tp, first: seq<seq<byte>>)
    requires Valid(t) && AllSentOk(ms, fd) && ms != [] && ms[0].keep[0]
    ensures var next := Continue(Span(None, []), ms[0], fd);
            && SpanOk(next, fd) && AllSentOk(ms[1..], fd)
            && Valid(t') && |t'.rx| == |t.rx| && (next.open.None? ==> !t'.state.RxWaitCf?)
            && AllWellFormed(SpanFrames(next, fd) + Bus(ms[1..], fd))
            && ReceiveAll(t, Bus(ms, fd)).sdus ==
               first + ReceiveAll(t', SpanFrames(next, fd) + Bus(ms[1..], fd)).sdus
            && Whole(ms, |t.rx|, fd) == first + (Due(next, |t.rx|) + Whole(ms[1..], |t.rx|, fd))
  {
    hide Tail, Bus, FirstFrame, SingleFrame, ReceiveAll, Valid, WellFormed, Surviving, CfsFrom, All, Whole, Segments;
    KeepsOne(ms, fd);
    var m := ms[0];
    ContinueOk(Span(None, []), m, fd);
    WholeCons(ms, |t.rx|, fd);
    t', first := t, [];
    if Multi(m.sdu, fd) {
      MultiOpens(ms, fd);
    } else {
      OpeningArrives(t, m, fd);
      t', first := ReceiveAll(t, [Opening(m, fd)]).tp, ReceiveAll(t, [Opening(m, fd)]).sdus;
      SingleOpens(ms, fd);
      ReceiveAllAppend(t, [Opening(m, fd)], Bus(ms[1..], fd));
    }
  }

  lemma MultiOpens(ms: seq<Sent>, fd: bool)
    requires AllSentOk(ms, fd) && ms != [] && SentOk(ms[0], fd) && ms[0].keep[0] && Multi(ms[0].sdu, fd)
    ensures var next := Span(Some(ms[0]), Tail(ms[0], fd));
            SpanOk(next, fd) && AllSentOk(ms[1..], fd) && Bus(ms, fd) == SpanFrames(next, fd) + Bus(ms[1..], fd)
  {
    hide Tail, Bus, FirstFrame, AllCf;
    BusCons(ms, fd);
  }

  lemma SingleOpens(ms: seq<Sent>, fd: bool)
    requires AllSentOk(ms, fd) && ms != [] && SentOk(ms[0], fd) && ms[0].keep[0] && !Multi(ms[0].sdu, fd)
    ensures AllSentOk(ms[1..], fd) && Bus(ms, fd) == [Opening(ms[0], fd)] + Bus(ms[1..], fd)
    ensures [] + Bus(ms[1..], fd) == Bus(ms[1..], fd)
  {
    hide Tail, Bus, Opening, Segments, Surviving, AllWellFormed, AllCf;
    BusCons(ms, fd);
    NoTail(ms[0], fd);
  }

  lemma NoTail(m: Sent, fd: bool)
    requires SentOk(m, fd) && !Multi(m.sdu, fd)
    ensures Tail(m, fd) == []
  {
  }

  lemma KeepsOne(ms: seq<Sent>, fd: bool)
    requires AllSentOk(ms, fd) && ms != []
    ensures SentOk(ms[0], fd) && ms[0].keep != [] && AllSentOk(ms[1..], fd)
  {
  }

  lemma WholeCons(ms: seq<Sent>, room: nat, fd: bool)
    requires ms != []
    ensures Whole(ms, room, fd) ==
            (if All(ms[0].keep) && Receivable(room, ms[0].sdu, fd) then [ms[0].sdu] else []) + Whole(ms[1..], room, fd)
  {
  }

  lemma {:induction false} StreamFrom(t: Tp, s: Span, ms: seq<Sent>, fd: bool)
    requires Valid(t) && SpanOk(s, fd) && AllSentOk(ms, fd) && (s.open.None? ==> !t.state.RxWaitCf?)
    ensures AllWellFormed(SpanFrames(s, fd) + Bus(ms, fd))
    ensures var heard := ReceiveAll(t, SpanFrames(s, fd) + Bus(ms, fd)).sdus;
            var due := Due(s, |t.rx|) + Whole(ms, |t.rx|, fd);
            var extra := SpliceCount(s, ms, |t.rx|, fd);
            |heard| == |due| + extra && (extra == 0 ==> heard == due)
    decreases |ms|
  {
    hide Bus, ReceiveAll, Valid, WellFormed, SpanOk, SpanFrames, Splices, Due, Tail, Whole, SentOk, Continue, Mixed;
    SpanOutcome(t, s, fd);
    if ms == [] {
      NothingMore(s, |t.rx|, fd);
      return;
    }
    KeepsOne(ms, fd);
    WholeCons(ms, |t.rx|, fd);
    if !ms[0].keep[0] {
      LostContinues(s, ms, fd);
      SameDue(s, ms[0], |t.rx|, fd);
      StreamFrom(t, Continue(s, ms[0], fd), ms[1..], fd);
    } else {
      var frames := SpanFrames(s, fd);
      ReceiveAllAppend(t, frames, Bus(ms, fd));
      var t', first := OpenedContinues(ReceiveAll(t, frames).tp, ms, fd);
      NextSpan(s, ms[0], fd);
      StreamFrom(t', Continue(s, ms[0], fd), ms[1..], fd);
    }
  }

  lemma NothingMore(s: Span, room: nat, fd: bool)
    requires SpanOk(s, fd)
    ensures SpanFrames(s, fd) + Bus([], fd) == SpanFrames(s, fd) && Whole([], room, fd) == []
  {
  }

  lemma SameDue(s: Span, m: Sent, room: nat, fd: bool)
    requires SentOk(m, fd) && !m.keep[0]
    ensures Due(Continue(s, m, fd), room) == Due(s, room) && Continue(s, m, fd).open == s.open && !All(m.keep)
  {
  }

  lemma NextSpan(s: Span, m: Sent, fd: bool)
    requires SentOk(m, fd) && m.keep[0]
    ensures Continue(s, m, fd) == Continue(Span(None, []), m, fd)
  {
  }

  /** Loss safety for a stream, exactly: whatever frames of whatever messages are lost, the receiver
      delivers the messages that came through whole and, for each splice, one message more; so it
      delivers what it should if and only if nothing splices. */
  lemma StreamSafeIff(t: Tp, ms: seq<Sent>, fd: bool)
    requires Valid(t) && !t.state.RxWaitCf? && AllSentOk(ms, fd)
    ensures var heard, due := ReceiveAll(t, Bus(ms, fd)).sdus, Whole(ms, |t.rx|, fd);
            && |heard| == |due| + SpliceCount(Span(None, []), ms, |t.rx|, fd)
            && (heard == due <==> SpliceCount(Span(None, []), ms, |t.rx|, fd) == 0)
  {
    StreamFrom(t, Span(None, []), ms, fd);
    assert [] + Bus(ms, fd) == Bus(ms, fd);
    assert [] + Whole(ms, |t.rx|, fd) == Whole(ms, |t.rx|, fd);
  }

  // --- the end of one message after the beginning of another ----------------------------------------

  lemma {:induction false} PayloadSplit(fs: seq<Frame>, n: nat)
    requires AllCf(fs) && n <= |fs|
    ensures AllCf(fs[..n]) && Payload(fs[..n]) <= Payload(fs)
    decreases n
  {
    hide WellFormed, Pci;
    if n > 0 {
      PayloadSplit(fs[1..], n - 1);
      assert fs[..n][1..] == fs[1..][..n - 1];
    }
  }

  /** Frames that are all in sequence suffice exactly when together they carry enough. */
  lemma EnoughInSequence(fs: seq<Frame>, next: byte, need: nat)
    requires AllCf(fs) && InSequence(fs, next)
    ensures Enough(fs, next, need).Some? <==> |Payload(fs)| >= need
  {
    hide InSequence, Enough, WellFormed, Pci;
    assert fs[..|fs|] == fs;
    EnoughIsLeast(fs, next, need, |fs|);
    var e := Enough(fs, next, need);
    if e.Some? {
      PayloadSplit(fs, e.value);
    }
  }

  /** How many bytes of padding the last frame of a message has. */
  function Padding(sdu: seq<byte>, fd: bool): nat
    requires Multi(sdu, fd)
  {
    var last := (|sdu| - FfData(fd)) % CfData(fd);
    if last == 0 then 0 else if fd then DlcAlign(1 + last) - 1 - last else CfData(fd) - last
  }

  lemma PaddedTail(header: byte, payload: seq<byte>, dl: nat)
    requires 1 + |payload| <= dl
    ensures Padded([header], payload, dl)[1..] == payload + Zeros(dl - 1 - |payload|)
  {
  }

  lemma PaddingOfLast(sdu: seq<byte>, fd: bool, k: nat)
    requires More(sdu, fd, k) && !More(sdu, fd, k + 1)
    ensures var n := |sdu| - Offset(fd, k);
            && 1 <= n <= CfData(fd) && ChunkSize(sdu, fd, k) == n
            && Padding(sdu, fd) == (if fd then DlcAlign(1 + n) else MAX_DL_CAN) - 1 - n
  {
    hide DlcAlign;
    var n := |sdu| - Offset(fd, k);
    FullDlc();
    if fd {
      Remainder63(k, n);
      assert |sdu| - FfData(fd) == 63 * k + n;
    } else {
      Remainder7(k, n);
      assert |sdu| - FfData(fd) == 7 * k + n;
    }
  }

  lemma Remainder63(k: nat, n: nat)
    requires 1 <= n <= 63
    ensures (63 * k + n) % 63 == if n == 63 then 0 else n
  {
  }

  lemma Remainder7(k: nat, n: nat)
    requires 1 <= n <= 7
    ensures (7 * k + n) % 7 == if n == 7 then 0 else n
  {
  }

  lemma FullDlc()
    ensures DlcAlign(MAX_DL_CANFD) == MAX_DL_CANFD
  {
  }

  lemma LastCfPadded(sdu: seq<byte>, fd: bool, k: nat)
    requires More(sdu, fd, k) && !More(sdu, fd, k + 1)
    ensures Cf(sdu, fd, k)[1..] == sdu[Offset(fd, k)..] + Zeros(Padding(sdu, fd))
  {
    hide Padding, Padded, More, Zeros, DlcAlign, Pci, WellFormed;
    PaddingOfLast(sdu, fd, k);
    var at := Offset(fd, k);
    var chunk := sdu[at..at + ChunkSize(sdu, fd, k)];
    assert chunk == sdu[at..];
    PaddedTail(PCI_CF + (1 + k) % 16, chunk, if fd then DlcAlign(1 + |chunk|) else MAX_DL_CAN);
  }

  /** A full consecutive frame carries the bytes up to the next one. */
  lemma FullCfCarries(sdu: seq<byte>, fd: bool, k: nat)
    requires More(sdu, fd, k) && More(sdu, fd, k + 1)
    ensures Offset(fd, k + 1) <= |sdu|
    ensures Cf(sdu, fd, k)[1..] + sdu[Offset(fd, k + 1)..] == sdu[Offset(fd, k)..]
  {
    hide Cf, Pci, WellFormed;
    CfFacts(sdu, fd, k);
    var f := Cf(sdu, fd, k);
    assert f[1..] == f[1..1 + ChunkSize(sdu, fd, k)];
  }

  /** A frame in front of frames that are in sequence after it. */
  lemma CarryCons(f: Frame, rest: seq<Frame>, next: byte)
    requires WellFormed(f) && Pci(f) == PCI_CF && f[0] % 16 == next
    requires AllCf(rest) && InSequence(rest, (next + 1) % 16)
    ensures AllCf([f] + rest) && InSequence([f] + rest, next) && Payload([f] + rest) == f[1..] + Payload(rest)
  {
    hide WellFormed, Pci;
    assert ([f] + rest)[1..] == rest;
  }

  lemma {:induction false} TailCarries(sdu: seq<byte>, fd: bool, k: nat)
    requires More(sdu, fd, k)
    ensures Multi(sdu, fd) && Offset(fd, k) < |sdu|
    ensures var fs := CfsFrom(sdu, fd, k);
            && AllCf(fs) && InSequence(fs, (1 + k) % 16)
            && Payload(fs) == sdu[Offset(fd, k)..] + Zeros(Padding(sdu, fd))
    decreases |sdu| - Offset(fd, k)
  {
    hide Cf, WellFormed, Pci, Padding, Zeros, AllCf, InSequence, Payload, CfsFrom, More, Offset;
    CfFacts(sdu, fd, k);
    MoreFacts(sdu, fd, k);
    CfsCons(sdu, fd, k);
    CfsCons(sdu, fd, k + 1);
    NextTurn(k);
    var f, z := Cf(sdu, fd, k), Zeros(Padding(sdu, fd));
    if More(sdu, fd, k + 1) {
      TailCarries(sdu, fd, k + 1);
      FullCfCarries(sdu, fd, k);
      Associate(f[1..], sdu[Offset(fd, k + 1)..], z);
    } else {
      NoneCarried((2 + k) % 16);
      LastCfPadded(sdu, fd, k);
      assert f[1..] + [] == f[1..];
    }
    CarryCons(f, CfsFrom(sdu, fd, k + 1), (1 + k) % 16);
  }

  lemma MoreFacts(sdu: seq<byte>, fd: bool, k: nat)
    requires More(sdu, fd, k)
    ensures Multi(sdu, fd) && Offset(fd, k) < |sdu| && Offset(fd, k) < Offset(fd, k + 1)
  {
  }

  lemma NextTurn(k: nat)
    ensures ((1 + k) % 16 + 1) % 16 == (1 + (k + 1)) % 16 == (2 + k) % 16
  {
    NextSn(k);
  }

  lemma Associate(a: seq<byte>, b: seq<byte>, c: seq<byte>)
    ensures a + (b + c) == a + b + c
  {
  }

  lemma NoneCarried(next: byte)
    ensures AllCf([]) && InSequence([], next) && Payload([]) == []
  {
  }

  /** All of a up to consecutive frame k, then b from its consecutive frame j on, for messages of any
      lengths: a receiver delivers something exactly when j and k agree modulo 16 and b's end, padding
      included, is as long as what a lacks. It delivers one message of a's length: the beginning of a,
      the end of b, and padding where b is too short. */
  lemma SplicesIff(t: Tp, a: seq<byte>, k: nat, b: seq<byte>, j: nat, fd: bool)
    requires Valid(t) && More(a, fd, k) && More(b, fd, j) && |a| <= |t.rx|
    ensures var bus := [FirstFrame(a, fd)] + CfsBetween(a, fd, 0, k) + CfsFrom(b, fd, j);
            var mix := a[..Offset(fd, k)] + (b[Offset(fd, j)..] + Zeros(Padding(b, fd)));
            && AllWellFormed(bus)
            && ReceiveAll(t, bus).sdus == if j % 16 == k % 16 && |mix| >= |a| then [mix[..|a|]] else []
  {
    hide FirstFrame, Receive, ReceiveAll, WellFormed, InSync, Cf, CfsFrom, CfsBetween, Padding, Zeros, Valid;
    var f, cfs, tail := FirstFrame(a, fd), CfsBetween(a, fd, 0, k), CfsFrom(b, fd, j);
    FirstFrameSyncs(t, a, fd);
    ReceiveOne(t, f);
    SyncedPrefix(Receive(t, f).tp, a, fd, 0, k);
    ReceiveAllAppend(t, [f], cfs);
    ReceiveAllAppend(t, [f] + cfs, tail);
    SyncedSplice(ReceiveAll(t, [f] + cfs).tp, a, k, b, j, fd);
  }

  lemma SyncedSplice(t: Tp, a: seq<byte>, k: nat, b: seq<byte>, j: nat, fd: bool)
    requires InSync(t, a, fd, k) && More(b, fd, j)
    ensures var mix := a[..Offset(fd, k)] + (b[Offset(fd, j)..] + Zeros(Padding(b, fd)));
            ReceiveAll(t, CfsFrom(b, fd, j)).sdus == if j % 16 == k % 16 && |mix| >= |a| then [mix[..|a|]] else []
  {
    hide ReceiveAll, WellFormed, AssembleAll, InSync, CfsFrom, Padding, Zeros, Valid, Holds, More, Offset, Multi,
         AllCf, InSequence, Payload, AllWellFormed;
    InSyncFacts(t, a, fd, k);
    HoldsIsInSync(t, a, fd, k);
    var p := Partial(|a|, (1 + k) % 16, a[..Offset(fd, k)]);
    TailCarries(b, fd, j);
    ReceiveAllRefines(t, p, CfsFrom(b, fd, j));
    TailCompletes(p, |t.rx|, b, j, fd);
    SameTurn(j, k);
  }

  lemma SameTurn(j: nat, k: nat)
    ensures (1 + j) % 16 == (1 + k) % 16 <==> j % 16 == k % 16
  {
    Turn(j);
    Turn(k);
  }

  lemma Turn(k: nat)
    ensures (1 + k) % 16 == if k % 16 == 15 then 0 else k % 16 + 1
  {
    var q, r := k / 16, k % 16;
    assert k == 16 * q + r;
    if r == 15 {
      assert 1 + k == 16 * (q + 1);
    } else {
      assert 1 + k == 16 * q + (r + 1);
    }
  }

  lemma TailCompletes(p: Assembly, room: nat, b: seq<byte>, j: nat, fd: bool)
    requires p.Partial? && |p.got| < p.len && p.next < 16 && More(b, fd, j)
    ensures var mix := p.got + (b[Offset(fd, j)..] + Zeros(Padding(b, fd)));
            AssembleAll(p, room, CfsFrom(b, fd, j)).sdus ==
            if p.next == (1 + j) % 16 && |mix| >= p.len then [mix[..p.len]] else []
  {
    hide WellFormed, AssembleAll, CfsFrom, Enough, Padding, Zeros, Payload, InSequence, More, Offset;
    TailCarries(b, fd, j);
    var tail := CfsFrom(b, fd, j);
    CfsComplete(p, room, tail);
    TailEnough(b, fd, j, p.next, p.len - |p.got|);
    var e := Enough(tail, p.next, p.len - |p.got|);
    if e.Some? {
      PayloadSplit(tail, e.value);
      PrefixCut(p.got, Payload(tail[..e.value]), Payload(tail), p.len);
    }
  }

  lemma PrefixCut(got: seq<byte>, p: seq<byte>, q: seq<byte>, n: nat)
    requires p <= q && |got + p| >= n
    ensures (got + p)[..n] == (got + q)[..n]
  {
  }

  lemma TailEnough(b: seq<byte>, fd: bool, j: nat, next: byte, need: nat)
    requires More(b, fd, j) && need > 0 && next < 16
    ensures AllCf(CfsFrom(b, fd, j))
    ensures Enough(CfsFrom(b, fd, j), next, need).Some? <==>
            next == (1 + j) % 16 && |b| - Offset(fd, j) + Padding(b, fd) >= need
  {
    hide Cf, WellFormed, Pci, Padding;
    TailCarries(b, fd, j);
    CfFacts(b, fd, j);
    if next == (1 + j) % 16 {
      EnoughInSequence(CfsFrom(b, fd, j), next, need);
    }
  }
}
