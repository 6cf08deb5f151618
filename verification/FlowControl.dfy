/**
 Flow control as a receiver observes it: a monitor that looks only at the messages the engine opens, the
 grants it accepts and the consecutive frames it emits, over runs of any events at all.
 */
module FlowControl {
  import opened Bytes
  import opened IsoTp
  import opened Segmentation
  import opened Transmission

  datatype Observation =
    | Opened                                // a multi-frame message is begun
    | Granted(blockSize: byte, stMin: byte) // a clear to send is accepted
    | SentCf(at: u32)                       // the driver accepts a consecutive frame

  /** What an event shows: a message begun, an accepted grant (a clear to send for a waiting engine, with
      the block size in byte 1 and the separation time in byte 2), or an emitted consecutive frame. */
  function Observe(t: Tp, e: TpEvent): seq<Observation>
    requires Valid(t) && EventOk(e)
  {
    if e.Submit? && Multi(e.sdu, t.fd) then [Opened]
    else if e.Clock? && Tick(t, e.now, e.canSend).frames != [] then [SentCf(e.now)]
    else if e.Incoming? && t.state.TxWaitFc? && |e.frame| >= 3 && e.frame[0] == 0x30 then
      [Granted(e.frame[1], e.frame[2])]
    else []
  }

  function Trace(t: Tp, evs: seq<TpEvent>): seq<Observation>
    requires Valid(t) && AllOk(evs)
    decreases |evs|
  {
    if evs == [] then [] else Observe(t, evs[0]) + Trace(Next(t, evs[0]), evs[1..])
  }

  /** The grant in force, what was sent under it, and when the last consecutive frame went out. */
  datatype Monitor = Monitor(granted: bool, blockSize: byte, stMin: byte, sent: nat, last: Option<u32>)

  const NO_GRANT := Monitor(false, 0, 0, 0, None)

  /** Time at is as long after last, on a clock that wraps, as the byte asks: 0x00 to 0x7F are
      milliseconds, 0xF1 to 0xF9 are fractions of one, anything else asks for nothing. */
  predicate Apart(at: u32, last: u32, stMin: byte) {
    var gap := (at - last) % 0x1_0000_0000;
    (stMin <= 0x7F ==> gap >= stMin) && (0xF1 <= stMin <= 0xF9 ==> gap >= 1)
  }

  /** Every consecutive frame is sent under a grant for the message begun last, at most blockSize of them
      a grant when that is positive, and no sooner after the previous one than the granted separation time. */
  predicate Conforms(m: Monitor, tr: seq<Observation>)
    decreases |tr|
  {
    tr == [] ||
    match tr[0]
    case Opened => Conforms(m.(granted := false), tr[1..])
    case Granted(bs, st) => Conforms(Monitor(true, bs, st, 0, m.last), tr[1..])
    case SentCf(at) =>
      && m.granted
      && (m.blockSize > 0 ==> m.sent < m.blockSize)
      && (m.last.Some? ==> Apart(at, m.last.value, m.stMin))
      && Conforms(m.(sent := m.sent + 1, last := Some(at)), tr[1..])
  }

  /** How the monitor relates to the engine: its block counter bounds what was sent, even when it
      starts a grant with a value left over from before. */
  ghost predicate Tracks(t: Tp, m: Monitor) {
    && Valid(t)
    && (m.last.Some? ==> t.timerSt == m.last.value)
    && (t.state.TxSendingCf? ==>
      && m.granted && m.blockSize == t.blockSize && m.stMin == t.stMin
      && (t.blockSize > 0 ==> m.sent == 0 || m.sent <= t.bsCounter <= t.blockSize))
  }

  function Advance(m: Monitor, obs: seq<Observation>): Monitor {
    if obs == [] then m
    else match obs[0]
      case Opened => m.(granted := false)
      case Granted(bs, st) => Monitor(true, bs, st, 0, m.last)
      case SentCf(at) => m.(sent := m.sent + 1, last := Some(at))
  }

  lemma MonitorStep(t: Tp, m: Monitor, e: TpEvent)
    requires Tracks(t, m) && EventOk(e)
    ensures var obs := Observe(t, e);
            && |obs| <= 1 && Conforms(m, obs)
            && Tracks(Next(t, e), Advance(m, obs))
  {
    hide Padded, ConsecutiveFrame, Pci, Patch, SingleFrame, FirstFrame, WellFormed;
    if e.Clock? {
      hide Receive, Send;
      MonitorTick(t, m, e.now, e.canSend);
    } else if e.Submit? {
      hide Receive, Tick;
    } else {
      hide Tick, Send;
      MonitorFrame(t, m, e.frame);
    }
  }

  lemma MonitorTick(t: Tp, m: Monitor, now: u32, canSend: int)
    requires Tracks(t, m)
    ensures var e := Clock(now, canSend);
            var obs := Observe(t, e);
            |obs| <= 1 && Conforms(m, obs) && Tracks(Next(t, e), Advance(m, obs))
  {
    hide ConsecutiveFrame;
  }

  lemma MonitorFrame(t: Tp, m: Monitor, f: Frame)
    requires Tracks(t, m) && WellFormed(f)
    ensures var e := Incoming(f);
            var obs := Observe(t, e);
            |obs| <= 1 && Conforms(m, obs) && Tracks(Next(t, e), Advance(m, obs))
  {
    GrantBytes(t, f);
    hide Padded, Pci, Patch, WellFormed;
  }

  /** Which frames the engine takes for a grant. */
  lemma GrantBytes(t: Tp, f: Frame)
    requires Valid(t) && WellFormed(f)
    ensures Pci(f) == PCI_FC && f[0] % 16 == FC_CTS <==> f[0] == 0x30
    ensures f[0] == 0x30 ==> |f| >= 3
    ensures var r := Receive(t, f).tp;
            t.state.TxWaitFc? && f[0] == 0x30 ==>
              r == t.(state := TxSendingCf, blockSize := f[1], stMin := f[2])
  {
  }

  /** Flow-control safety: every run, of any events, from any state the monitor tracks, conforms. */
  lemma {:induction false} FlowControlSafety(t: Tp, m: Monitor, evs: seq<TpEvent>)
    requires Tracks(t, m) && AllOk(evs)
    ensures Conforms(m, Trace(t, evs))
    decreases |evs|
  {
    hide Tracks, Valid, Observe, Next, EventOk;
    if evs != [] {
      MonitorStep(t, m, evs[0]);
      TracksValid(t, m);
      var obs, rest := Observe(t, evs[0]), Trace(Next(t, evs[0]), evs[1..]);
      FlowControlSafety(Next(t, evs[0]), Advance(m, obs), evs[1..]);
      if obs != [] {
        assert obs == [obs[0]] && (obs + rest)[0] == obs[0] && (obs + rest)[1..] == rest;
      } else {
        assert obs + rest == rest;
      }
    }
  }

  /** In particular from an idle engine, whatever its block counter and timer hold. */
  lemma FlowControlFromIdle(t: Tp, evs: seq<TpEvent>)
    requires Valid(t) && t.state.Idle? && AllOk(evs)
    ensures Conforms(NO_GRANT, Trace(t, evs))
  {
    FlowControlSafety(t, NO_GRANT, evs);
  }

  /** One tick, exactly: a consecutive frame goes out if and only if the engine is sending, bytes are
      left, the driver accepts, the block is not full and the separation time is over; the engine
      starts to wait for a grant if and only if, with that time over, the block is full. */
  lemma TickSendsIff(t: Tp, now: u32, canSend: int)
    requires Valid(t)
    ensures var out := Tick(t, now, canSend);
            var full := t.blockSize > 0 && t.bsCounter >= t.blockSize;
            var ready := t.state.TxSendingCf? && t.done < t.msgLen && Apart(now, t.timerSt, t.stMin);
            && (out.frames != [] <==> ready && !full && canSend == 0)
            && (t.state.TxSendingCf? ==> (out.tp.state.TxWaitFc? <==> ready && full))
            && (out.frames != [] ==> out.tp.timerSt == now)
            && (out.frames == [] && !(ready && full) ==> out.tp.(state := t.state) == t)
  {
    hide ConsecutiveFrame;
  }

  lemma TracksValid(t: Tp, m: Monitor)
    requires Tracks(t, m)
    ensures Valid(t)
  {
  }

  // --- what conformance means on a trace ---------------------------------------------------------

  predicate NoGrant(tr: seq<Observation>) { forall o :: o in tr ==> o.SentCf? }

  lemma {:induction false} CountWithinGrant(m: Monitor, tr: seq<Observation>, j: nat)
    requires Conforms(m, tr) && m.granted && m.blockSize > 0 && m.sent <= m.blockSize
    requires j <= |tr| && NoGrant(tr[..j])
    ensures m.sent + j <= m.blockSize
    decreases j
  {
    if j > 0 {
      assert tr[0] in tr[..j] && tr[1..][..j - 1] == tr[..j][1..];
      CountWithinGrant(m.(sent := m.sent + 1, last := Some(tr[0].at)), tr[1..], j - 1);
    }
  }

  /** At most blockSize consecutive frames follow a grant before the next one. */
  lemma {:induction false} BlockSizeRespected(m: Monitor, tr: seq<Observation>, i: nat, j: nat)
    requires Conforms(m, tr) && i < j <= |tr|
    requires tr[i].Granted? && tr[i].blockSize > 0 && NoGrant(tr[i + 1..j])
    ensures j - (i + 1) <= tr[i].blockSize
    decreases i
  {
    if i == 0 {
      assert tr[1..][..j - 1] == tr[1..j];
      CountWithinGrant(Monitor(true, tr[0].blockSize, tr[0].stMin, 0, m.last), tr[1..], j - 1);
    } else {
      assert tr[1..][i..j - 1] == tr[i + 1..j];
      var m' := Advance(m, tr);
      BlockSizeRespected(m', tr[1..], i - 1, j - 1);
    }
  }

  /** Two consecutive frames sent one after the other under a grant are its separation time apart. */
  lemma {:induction false} SeparationRespected(m: Monitor, tr: seq<Observation>, g: nat, i: nat)
    requires Conforms(m, tr) && g < i && i + 1 < |tr|
    requires tr[g].Granted? && NoGrant(tr[g + 1..i + 2])
    ensures tr[i].SentCf? && tr[i + 1].SentCf?
    ensures var gap := (tr[i + 1].at - tr[i].at) % 0x1_0000_0000;
            && (tr[g].stMin <= 0x7F ==> gap >= tr[g].stMin)
            && (0xF1 <= tr[g].stMin <= 0xF9 ==> gap >= 1)
    decreases g
  {
    if g == 0 {
      assert tr[1..][..i + 1] == tr[1..i + 2];
      SeparationFrom(Monitor(true, tr[0].blockSize, tr[0].stMin, 0, m.last), tr[1..], i - 1);
    } else {
      assert tr[1..][g..i + 1] == tr[g + 1..i + 2];
      SeparationRespected(Advance(m, tr), tr[1..], g - 1, i - 1);
    }
  }

  lemma {:induction false} SeparationFrom(m: Monitor, tr: seq<Observation>, i: nat)
    requires Conforms(m, tr) && i + 1 < |tr| && NoGrant(tr[..i + 2])
    ensures tr[i].SentCf? && tr[i + 1].SentCf?
    ensures Apart(tr[i + 1].at, tr[i].at, m.stMin)
    decreases i
  {
    assert tr[0] in tr[..i + 2] && tr[1] in tr[..i + 2];
    var m' := m.(sent := m.sent + 1, last := Some(tr[0].at));
    if i > 0 {
      assert tr[1..][..i + 1] == tr[..i + 2][1..];
      SeparationFrom(m', tr[1..], i - 1);
    } else {
      assert Conforms(m', tr[1..]);
    }
  }

  /** No consecutive frame of a message is sent before a grant that came after its beginning: a grant
      for an earlier message is worth nothing. */
  lemma {:induction false} GrantAfterOpening(m: Monitor, tr: seq<Observation>, i: nat, j: nat) returns (g: nat)
    requires Conforms(m, tr) && i < j < |tr| && tr[i].Opened? && tr[j].SentCf?
    ensures i < g < j && tr[g].Granted?
    decreases i
  {
    if i > 0 {
      g := GrantAfterOpening(Advance(m, tr), tr[1..], i - 1, j - 1);
      g := g + 1;
    } else {
      g := GrantBefore(m.(granted := false), tr[1..], j - 1);
      g := g + 1;
    }
  }

  lemma {:induction false} GrantBefore(m: Monitor, tr: seq<Observation>, j: nat) returns (g: nat)
    requires Conforms(m, tr) && !m.granted && j < |tr| && tr[j].SentCf?
    ensures g < j && tr[g].Granted?
    decreases j
  {
    if tr[0].Granted? {
      g := 0;
    } else {
      g := GrantBefore(Advance(m, tr), tr[1..], j - 1);
      g := g + 1;
    }
  }
}
