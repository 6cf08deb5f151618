/**
 The stack as wired up by an application: CAN frames drive the transport, reassembled SDUs drive the
 core, and what the core sends goes back through the transport.
 */
module Node {
  import opened Bytes
  import opened IsoTp
  import opened Segmentation
  import opened Transmission
  import opened Wiring
  import C = Core

  datatype Node = Node(tp: Tp, ctx: C.Ctx)

  datatype Event =
    | Can(frame: Frame, env: C.Env, canSend: int) // a frame arrives
    | Poll(now: u32, canSend: int)                // uds_tp_isotp_process
    | Local(e: C.Event, canSend: int)             // uds_process and the application's calls

  predicate EventOk(e: Event) { (e.Can? ==> WellFormed(e.frame)) && (e.Local? ==> !e.e.Request?) }

  datatype Result = Result(node: Node, frames: seq<Frame>, obs: seq<C.Obs>)

  /** A core step and the transmission of what it sends. */
  function Answer(t: Tp, s: C.Step, canSend: int): Result
    requires Valid(t)
  {
    var out := SendAll(t, WireAll(s.obs), canSend);
    Result(Node(out.tp, s.ctx), out.frames, s.obs)
  }

  function Next(n: Node, cfg: C.Config, e: Event): (r: Result)
    requires C.ConfigOk(cfg) && Valid(n.tp) && EventOk(e)
    ensures Valid(r.node.tp)
  {
    match e
    case Can(f, env, canSend) =>
      var got := Receive(n.tp, f);
      if got.sdu.None? then Result(Node(got.tp, n.ctx), got.frames, [])
      else
        var a := Answer(got.tp, C.Input(n.ctx, cfg, got.sdu.value, env), canSend);
        a.(frames := got.frames + a.frames)
    case Poll(now, canSend) =>
      var out := Tick(n.tp, now, canSend);
      Result(Node(out.tp, n.ctx), out.frames, [])
    case Local(le, canSend) => Answer(n.tp, C.Apply(n.ctx, cfg, le), canSend)
  }

  /** What the core sees of an event. */
  function CoreEvent(n: Node, e: Event): seq<C.Event>
    requires Valid(n.tp) && EventOk(e)
  {
    match e
    case Can(f, env, _) =>
      var got := Receive(n.tp, f);
      if got.sdu.Some? then [C.Request(got.sdu.value, env)] else []
    case Poll(_, _) => []
    case Local(le, _) => [le]
  }

  predicate AllEventsOk(evs: seq<Event>) { evs == [] || (EventOk(evs[0]) && AllEventsOk(evs[1..])) }

  function RunNode(n: Node, cfg: C.Config, evs: seq<Event>): Result
    requires C.ConfigOk(cfg) && Valid(n.tp) && AllEventsOk(evs)
    decreases |evs|
  {
    if evs == [] then Result(n, [], [])
    else
      var one := Next(n, cfg, evs[0]);
      var rest := RunNode(one.node, cfg, evs[1..]);
      Result(rest.node, one.frames + rest.frames, one.obs + rest.obs)
  }

  function CoreEvents(n: Node, cfg: C.Config, evs: seq<Event>): seq<C.Event>
    requires C.ConfigOk(cfg) && Valid(n.tp) && AllEventsOk(evs)
    decreases |evs|
  {
    if evs == [] then [] else CoreEvent(n, evs[0]) + CoreEvents(Next(n, cfg, evs[0]).node, cfg, evs[1..])
  }

  lemma {:induction false} CoreRunAppend(c: C.Ctx, cfg: C.Config, a: seq<C.Event>, b: seq<C.Event>)
    requires C.ConfigOk(cfg)
    ensures var ra := C.Run(c, cfg, a);
            var rb := C.Run(ra.ctx, cfg, b);
            C.Run(c, cfg, a + b) == C.Step(rb.ctx, ra.obs + rb.obs)
    decreases |a|
  {
    hide C.Apply, C.ConfigOk;
    if a == [] {
      assert a + b == b;
    } else {
      assert (a + b)[0] == a[0] && (a + b)[1..] == a[1..] + b;
      var one := C.Apply(c, cfg, a[0]);
      CoreRunAppend(one.ctx, cfg, a[1..], b);
      var ra := C.Run(one.ctx, cfg, a[1..]);
      assert one.obs + (ra.obs + C.Run(ra.ctx, cfg, b).obs) == one.obs + ra.obs + C.Run(ra.ctx, cfg, b).obs;
    }
  }

  lemma NextRefines(n: Node, cfg: C.Config, e: Event)
    requires C.ConfigOk(cfg) && Valid(n.tp) && EventOk(e)
    ensures var r := Next(n, cfg, e);
            C.Run(n.ctx, cfg, CoreEvent(n, e)) == C.Step(r.node.ctx, r.obs)
  {
    hide C.Input, C.ConfigOk, Receive, Valid, Tick, SendAll, WireAll;
    var evs := CoreEvent(n, e);
    if evs != [] {
      var one := C.Apply(n.ctx, cfg, evs[0]);
      assert C.Run(one.ctx, cfg, evs[1..]) == C.Step(one.ctx, []);
      assert one.obs + [] == one.obs;
    }
  }

  /** Layer refinement: a run driven by CAN frames, ticks and calls takes the core through exactly the
      steps, with the same observations, of a run in which it is given the reassembled SDUs. */
  lemma {:induction false} LayersRefine(n: Node, cfg: C.Config, evs: seq<Event>)
    requires C.ConfigOk(cfg) && Valid(n.tp) && AllEventsOk(evs)
    ensures var r := RunNode(n, cfg, evs);
            C.Run(n.ctx, cfg, CoreEvents(n, cfg, evs)) == C.Step(r.node.ctx, r.obs)
    decreases |evs|
  {
    hide C.Apply, C.ConfigOk, Valid, Next, EventOk, CoreEvent;
    if evs != [] {
      var one := Next(n, cfg, evs[0]);
      NextRefines(n, cfg, evs[0]);
      LayersRefine(one.node, cfg, evs[1..]);
      CoreRunAppend(n.ctx, cfg, CoreEvent(n, evs[0]), CoreEvents(one.node, cfg, evs[1..]));
    }
  }

  // ---------------------------------------------------------------------------------------------
  // One request, one response
  // ---------------------------------------------------------------------------------------------

  predicate AtMostOne(obs: seq<C.Obs>) { |WireAll(obs)| <= 1 }

  lemma AnswersOnce(c: C.Ctx, cfg: C.Config)
    ensures forall sid, nrc :: AtMostOne(C.SendNrc(c, cfg, sid, nrc).obs)
    ensures forall sdu :: AtMostOne(C.SendResponse(c, cfg, sdu).obs)
  {
    hide WireAll, AtMostOne;
    forall sid, nrc ensures AtMostOne(C.SendNrc(c, cfg, sid, nrc).obs) { NrcOnce(c, cfg, sid, nrc); }
    forall sdu ensures AtMostOne(C.SendResponse(c, cfg, sdu).obs) { ResponseOnce(c, cfg, sdu); }
  }

  lemma NrcOnce(c: C.Ctx, cfg: C.Config, sid: byte, nrc: byte)
    ensures AtMostOne(C.SendNrc(c, cfg, sid, nrc).obs)
  {
    WireOne(C.Refused(sid, nrc), []);
  }

  lemma ResponseOnce(c: C.Ctx, cfg: C.Config, sdu: seq<byte>)
    ensures AtMostOne(C.SendResponse(c, cfg, sdu).obs)
  {
    WireOne(C.Replied(sdu), []);
    WireOne(C.Suppressed, []);
  }

  lemma QuietOnce(o: C.Obs, obs: seq<C.Obs>)
    requires Wire(o) == [] && AtMostOne(obs)
    ensures AtMostOne([o] + obs)
  {
    WireOne(o, obs);
  }

  lemma KeyOnce(c: C.Ctx, cfg: C.Config, data: seq<byte>, env: C.Env)
    requires |data| >= 2
    ensures AtMostOne(C.HandleKey(c, cfg, data, env).obs)
  {
    hide AtMostOne, C.SendNrc, C.SendResponse;
    var level := data[1] % 0x80 / 2;
    var attempts := ToByte(c.attempts + 1);
    AnswersOnce(C.Unlocked(c, cfg, level), cfg);
    AnswersOnce(c.(attempts := attempts), cfg);
    AnswersOnce(c.(attempts := attempts, delayEnd := (env.now + C.Delay(cfg)) % 0x1_0000_0000), cfg);
    var obs := C.HandleKey(c, cfg, data, env).obs;
    assert obs == [obs[0]] + obs[1..];
    QuietOnce(obs[0], obs[1..]);
  }

  lemma ExecuteOnce(c: C.Ctx, cfg: C.Config, s: C.Service, data: seq<byte>, env: C.Env)
    requires data != [] && (s.handler != C.Delegated ==> |data| >= 2)
    ensures AtMostOne(C.Execute(c, cfg, s, data, env).obs)
  {
    hide AtMostOne, C.SendNrc, C.SendResponse, C.HandleKey, C.SessionReply;
    AnswersOnce(c, cfg);
    AnswersOnce(c.(delayEnd := 0), cfg);
    match s.handler {
      case SessionHandler =>
        var sub := data[1] % 0x80;
        var mid := C.Entered(c, cfg, sub);
        AnswersOnce(mid, cfg);
        QuietOnce(C.SessionSet(c.session, sub), C.SendResponse(mid, cfg, C.SessionReply(cfg, sub)).obs);
      case SecurityHandler => KeyOnce(c.(delayEnd := 0), cfg, data, env);
      case ResetHandler => SuppressedOnce();
      case TesterHandler =>
      case Delegated => SuppressedOnce();
    }
  }

  lemma SuppressedOnce()
    ensures AtMostOne([C.Suppressed]) && AtMostOne([])
  {
    WireOne(C.Suppressed, []);
  }

  lemma DispatchOnce(c: C.Ctx, cfg: C.Config, data: seq<byte>, env: C.Env)
    requires C.ConfigOk(cfg) && data != []
    ensures AtMostOne(C.Dispatch(c, cfg, data, env).obs)
  {
    hide AtMostOne, C.SendNrc, C.Execute, C.FindService, C.ConfigOk, C.SessionSupported, C.SubSupported;
    C.ServiceFound(cfg, data[0]);
    var s := C.FindService(cfg, data[0]);
    var c1 := if s.Some? && s.value.subMask.Some? && |data| >= 2 then c.(suppress := data[1] >= 0x80) else c;
    AnswersOnce(c, cfg);
    AnswersOnce(c1, cfg);
    if s.Some? && (s.value.handler != C.Delegated ==> |data| >= 2) {
      ExecuteOnce(c1, cfg, s.value, data, env);
    }
  }

  /** A request makes the core send at most one SDU. */
  lemma OneAnswer(c: C.Ctx, cfg: C.Config, data: seq<byte>, env: C.Env)
    requires C.ConfigOk(cfg)
    ensures AtMostOne(C.Input(c, cfg, data, env).obs)
  {
    hide AtMostOne, C.SendNrc, C.Dispatch, C.ConfigOk;
    SuppressedOnce();
    if data != [] {
      var c1 := c.(lastMsg := env.now);
      var c2 := c1.(p2Start := env.now, pending := false, star := false, rcrrp := 0);
      AnswersOnce(c1, cfg);
      DispatchOnce(c2, cfg, data, env);
      QuietOnce(C.Asked(data[0]), C.SendNrc(c1, cfg, data[0], C.BUSY).obs);
      QuietOnce(C.Asked(data[0]), C.Dispatch(c2, cfg, data, env).obs);
      QuietOnce(C.ClientHeard(data), []);
      assert [C.ClientHeard(data)] + [] == [C.ClientHeard(data)];
    }
  }

  /** Frames arriving one after the other, with one environment for the request they carry. */
  function Deliver(n: Node, cfg: C.Config, fs: seq<Frame>, env: C.Env): (r: Result)
    requires C.ConfigOk(cfg) && Valid(n.tp) && AllWellFormed(fs)
    ensures Valid(r.node.tp)
    decreases |fs|
  {
    if fs == [] then Result(n, [], [])
    else
      var one := Next(n, cfg, Can(fs[0], env, 0));
      var rest := Deliver(one.node, cfg, fs[1..], env);
      Result(rest.node, one.frames + rest.frames, one.obs + rest.obs)
  }

  /** A frame that completes no message. */
  lemma NextPart(n: Node, cfg: C.Config, f: Frame, env: C.Env)
    requires C.ConfigOk(cfg) && Valid(n.tp) && WellFormed(f) && Receive(n.tp, f).sdu.None?
    ensures Next(n, cfg, Can(f, env, 0)) == Result(Node(Receive(n.tp, f).tp, n.ctx), Receive(n.tp, f).frames, [])
  {
    hide C.ConfigOk, Valid, WellFormed, Receive;
  }

  /** Until a message is complete the core notices nothing. */
  lemma {:induction false} DeliverPart(n: Node, cfg: C.Config, a: seq<Frame>, last: Frame, env: C.Env)
    requires C.ConfigOk(cfg) && Valid(n.tp) && AllWellFormed(a) && WellFormed(last)
    requires ReceiveAll(n.tp, a).sdus == []
    ensures AllWellFormed(a + [last])
    ensures var part := ReceiveAll(n.tp, a);
            var one := Next(Node(part.tp, n.ctx), cfg, Can(last, env, 0));
            Deliver(n, cfg, a + [last], env) == Result(one.node, part.replies + one.frames, one.obs)
    decreases |a|
  {
    hide C.ConfigOk, Valid, WellFormed, AllWellFormed, Receive, ReceiveAll, Next, Deliver;
    OneWellFormed(last);
    WellFormedAppend(a, [last]);
    if a == [] {
      ReceiveNil(n.tp);
      assert a + [last] == [last] + [];
      DeliverCons(n, cfg, last, [], env);
      var one := Next(n, cfg, Can(last, env, 0));
      assert one.frames + [] == [] + one.frames && one.obs + [] == one.obs;
    } else {
      HeadWellFormed(a);
      assert a == [a[0]] + a[1..] && a + [last] == [a[0]] + (a[1..] + [last]);
      ReceiveCons(n.tp, a[0], a[1..]);
      WellFormedAppend(a[1..], [last]);
      var got := Receive(n.tp, a[0]);
      var part := ReceiveAll(got.tp, a[1..]);
      NextPart(n, cfg, a[0], env);
      DeliverPart(Node(got.tp, n.ctx), cfg, a[1..], last, env);
      DeliverCons(n, cfg, a[0], a[1..] + [last], env);
      var one := Next(Node(part.tp, n.ctx), cfg, Can(last, env, 0));
      assert got.frames + (part.replies + one.frames) == got.frames + part.replies + one.frames;
      assert [] + one.obs == one.obs;
    }
  }

  lemma DeliverCons(n: Node, cfg: C.Config, f: Frame, fs: seq<Frame>, env: C.Env)
    requires C.ConfigOk(cfg) && Valid(n.tp) && WellFormed(f) && AllWellFormed(fs)
    ensures AllWellFormed([f] + fs) && AllWellFormed([])
    ensures var one := Next(n, cfg, Can(f, env, 0));
            var rest := Deliver(one.node, cfg, fs, env);
            && Deliver(n, cfg, [f] + fs, env) == Result(rest.node, one.frames + rest.frames, one.obs + rest.obs)
            && Deliver(one.node, cfg, [], env) == Result(one.node, [], [])
  {
    hide C.ConfigOk, Valid, WellFormed, Next;
    assert ([f] + fs)[0] == f && ([f] + fs)[1..] == fs;
  }

  /** The frame of a message that completes it, and the ones before. */
  lemma Completing(t: Tp, q: seq<byte>, fd: bool) returns (a: seq<Frame>, last: Frame)
    requires Valid(t) && |q| <= PENDING_SIZE && Receivable(|t.rx|, q, fd)
    ensures Segments(q, fd) == a + [last] && AllWellFormed(a) && WellFormed(last)
    ensures ReceiveAll(t, a).sdus == [] && Receive(ReceiveAll(t, a).tp, last).sdu == Some(q)
    ensures Receive(ReceiveAll(t, a).tp, last).frames == []
  {
    hide Receive, Valid, WellFormed, ReceiveAll, FirstFrame, SingleFrame, CfsFrom, CfsBetween, InSync, Cf;
    if |q| <= MaxSf(fd) {
      a, last := [], SingleFrame(q);
      ReceiveNil(t);
      SingleFrameDelivers(t, q);
    } else {
      var k := LastCf(q, fd);
      var f, cfs := FirstFrame(q, fd), CfsBetween(q, fd, 0, k);
      a, last := [f] + cfs, Cf(q, fd, k);
      CfsSplit(q, fd, 0, k);
      assert [f] + (cfs + [last]) == [f] + cfs + [last];
      FirstFrameSyncs(t, q, fd);
      ReceiveOne(t, f);
      SyncedPrefix(Receive(t, f).tp, q, fd, 0, k);
      ReceiveAllAppend(t, [f], cfs);
      CfAccepted(ReceiveAll(t, a).tp, q, fd, k);
    }
  }

  lemma LastCf(q: seq<byte>, fd: bool) returns (k: nat)
    requires Multi(q, fd)
    ensures More(q, fd, k) && !More(q, fd, k + 1) && CfsFrom(q, fd, k) == [Cf(q, fd, k)]
    ensures 0 < k ==> More(q, fd, k - 1)
  {
    k := if fd then (|q| - 63) / 63 else (|q| - 7) / 7;
    assert CfsFrom(q, fd, k + 1) == [];
  }

  /** A response begun inside the delivery of a request survives the return of the receive callback:
      the engine is sending it, from its first byte. */
  lemma ResponseSurvives(n: Node, cfg: C.Config, f: Frame, env: C.Env, w: seq<byte>)
    requires C.ConfigOk(cfg) && Valid(n.tp) && WellFormed(f) && Receive(n.tp, f).sdu.Some?
    requires WireAll(C.Input(n.ctx, cfg, Receive(n.tp, f).sdu.value, env).obs) == [w] && Multi(w, n.tp.fd)
    ensures var r := Next(n, cfg, Can(f, env, 0));
            && AtFrame(r.node.tp, w, 0) && r.node.tp.state.TxWaitFc?
            && |r.frames| > 0 && r.frames[|r.frames| - 1] == FirstFrame(w, n.tp.fd)
  {
    hide C.Input, C.ConfigOk, WellFormed, Send, FirstFrame;
    var got := Receive(n.tp, f);
    hide Receive;
    SendStarts(got.tp, w, 0);
    SendOne(got.tp, w, 0);
  }

  /** All frames of a request arriving at a node: its core makes exactly the step of that request,
      once, and what it sends leaves through an idle engine; it sends at most one SDU. */
  lemma RequestServed(n: Node, cfg: C.Config, q: seq<byte>, fd: bool, env: C.Env) returns (t: Tp, grants: seq<Frame>)
    requires C.ConfigOk(cfg) && Valid(n.tp) && |q| <= PENDING_SIZE && Receivable(|n.tp.rx|, q, fd)
    ensures var served := C.Input(n.ctx, cfg, q, env);
            var r := Deliver(n, cfg, Segments(q, fd), env);
            && r.node.ctx == served.ctx && r.obs == served.obs && |WireAll(served.obs)| <= 1
            && Valid(t) && t.state.Idle? && t.fd == n.tp.fd
            && r.node.tp == SendAll(t, WireAll(served.obs), 0).tp
            && r.frames == grants + SendAll(t, WireAll(served.obs), 0).frames
  {
    hide C.Input, C.ConfigOk, Valid, WellFormed, Send, Receive, ReceiveAll, Segments, Deliver, WireAll, SendAll;
    var a, last := Completing(n.tp, q, fd);
    DeliverPart(n, cfg, a, last, env);
    OneAnswer(n.ctx, cfg, q, env);
    t, grants := Receive(ReceiveAll(n.tp, a).tp, last).tp, ReceiveAll(n.tp, a).replies;
    var out := SendAll(t, WireAll(C.Input(n.ctx, cfg, q, env).obs), 0).frames;
    assert [] + out == out;
  }

  /** What a transmission puts on the bus: the frame it opened with, then those of its run. */
  function Emitted(start: seq<Frame>, t: Tp, evs: seq<TpEvent>): seq<Frame>
    requires Valid(t) && FairRun(t, evs)
  {
    start + Run(t, evs).cfs
  }

  /** End to end: a client engine is given a request and a fair environment and puts its frames on the
      bus; the node that receives them serves the request once; if it answers, then under a fair
      environment its frames from the answer on, received by an engine in any state with room for
      it, deliver exactly that answer. */
  lemma RequestResponse(c: Tp, n: Node, cfg: C.Config, q: seq<byte>, env: C.Env, up: seq<TpEvent>, r: Result,
                        c': Tp, w: seq<byte>, down: seq<TpEvent>) returns (grants: seq<Frame>, answer: seq<Frame>)
    requires C.ConfigOk(cfg) && Valid(c) && c.state.Idle? && Valid(n.tp) && Valid(c')
    requires |q| <= PENDING_SIZE && Receivable(|n.tp.rx|, q, c.fd)
    requires FairRun(Send(c, q, 0).tp, up) && |up| >= 3 * |Segments(q, c.fd)|
    requires r == Deliver(n, cfg, Segments(q, c.fd), env) && WireAll(r.obs) == [w]
    requires |w| <= PENDING_SIZE && Receivable(|c'.rx|, w, n.tp.fd)
    requires FairRun(r.node.tp, down) && |down| >= 3 * |Segments(w, n.tp.fd)|
    ensures Emitted(Send(c, q, 0).frames, Send(c, q, 0).tp, up) == Segments(q, c.fd)
    ensures C.Step(r.node.ctx, r.obs) == C.Input(n.ctx, cfg, q, env) && r.frames == grants + answer
    ensures AllWellFormed(Emitted(answer, r.node.tp, down))
    ensures ReceiveAll(c', Emitted(answer, r.node.tp, down)).sdus == [w]
  {
    hide C.Input, C.ConfigOk, Valid, WellFormed, Send, ReceiveAll, FairRun, Run, Segments, Deliver, WireAll, SendAll;
    SendsSegments(c, q, up);
    var t, g := RequestServed(n, cfg, q, c.fd, env);
    SendOne(t, w, 0);
    RoundTrip(t, c', w, down);
    grants, answer := g, Send(t, w, 0).frames;
  }
}
