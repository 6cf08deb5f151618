/**
 Response conservation: which requests that are asked are answered once, which never, which twice, and
 under whose SID. A client request of the stack itself replaces the SID that the core remembers for the
 request that pends, so the request's own SID is carried beside the context.
 */
module Accounting {
  import opened Bytes
  import opened Core
  import opened ClientMode

  /** What an observation adds to the answers owed; 0x78 is no final answer. */
  function Charge(o: Obs): int {
    match o
    case Asked(_) => 1
    case Replied(_) => -1
    case Suppressed => -1
    case Refused(_, nrc) => if nrc == PENDING then 0 else -1
    case _ => 0
  }

  function Owed(obs: seq<Obs>): int { if obs == [] then 0 else Charge(obs[0]) + Owed(obs[1..]) }

  lemma {:induction false} OwedAppend(a: seq<Obs>, b: seq<Obs>)
    ensures Owed(a + b) == Owed(a) + Owed(b)
    decreases |a|
  {
    hide Charge;
    if a == [] {
      assert a + b == b;
    } else {
      assert (a + b)[1..] == a[1..] + b;
      OwedAppend(a[1..], b);
    }
  }

  lemma OwedOne(o: Obs, b: seq<Obs>)
    ensures Owed([o]) == Charge(o) && Owed([o] + b) == Charge(o) + Owed(b)
  {
    assert ([o] + b)[1..] == b && [o][1..] == [];
  }

  function Open(c: Ctx): int { if c.pending then 1 else 0 }

  /** What the application and the callbacks owe: a delegated handler that answers stays within the
      buffer; no final answer is 0x78; a completion comes only while a request is pending, and a
      failure is reported for the request that pends, whose SID is own. */
  predicate Contract(c: Ctx, cfg: Config, own: byte, e: Event) {
    match e
    case Request(data, env) => Answerable(cfg, env)
    case Clock(_) => true
    case Completed(sdu) => c.pending && |sdu| <= cfg.txSize
    case Failed(sid, nrc) => c.pending && sid == own && nrc != PENDING
    case AsClient(_, _, _) => true
  }

  predicate Answerable(cfg: Config, env: Env) {
    && (env.outcome.Positive? ==> |env.outcome.sdu| <= cfg.txSize)
    && (env.outcome.Negative? ==> env.outcome.nrc != PENDING)
    && |env.seed| + 2 <= cfg.txSize
    && (env.seedRes < 0 ==> ToByte(-env.seedRes) != PENDING)
    && (env.keyRes < 0 ==> ToByte(-env.keyRes) != PENDING)
  }

  /** A request, refused as busy, for the SID remembered last: the pending request is forgotten. */
  predicate Drops(c: Ctx, e: Event) {
    e.Request? && e.data != [] && c.pending && !SilentTester(e.data) && e.data[0] == c.pendingSid
  }

  /** The application reports the failure of the request that pends, while another SID is remembered: the
      answer goes out and the request stays pending. */
  predicate Lingers(c: Ctx, own: byte, e: Event) { e.Failed? && c.pending && c.pendingSid != own }

  lemma NrcOwes(c: Ctx, cfg: Config, sid: byte, nrc: byte)
    requires cfg.txSize >= 3
    ensures var r := SendNrc(c, cfg, sid, nrc);
            && Owed(r.obs) == (if nrc == PENDING then 0 else -1)
            && (!c.pending ==> !r.ctx.pending)
  {
    OwedOne(Refused(sid, nrc), []);
  }

  lemma ResponseOwes(c: Ctx, cfg: Config, sdu: seq<byte>)
    requires |sdu| <= cfg.txSize
    ensures var r := SendResponse(c, cfg, sdu); Owed(r.obs) == -1 && !r.ctx.pending
  {
    OwedOne(Suppressed, []);
    OwedOne(Replied(sdu), []);
  }

  lemma SecurityOwes(c: Ctx, cfg: Config, data: seq<byte>, env: Env)
    requires ConfigOk(cfg) && !c.pending && |data| >= 2 && Answerable(cfg, env)
    ensures var r := HandleSecurity(c, cfg, data, env); Owed(r.obs) == -1 && !r.ctx.pending
  {
    hide SendNrc, SendResponse, Owed, ConfigOk;
    assert cfg.txSize >= 6 by { OkSize(cfg); }
    forall c0: Ctx, nrc: byte ensures nrc != PENDING && !c0.pending ==>
      Owed(SendNrc(c0, cfg, SID_SECURITY, nrc).obs) == -1 && !SendNrc(c0, cfg, SID_SECURITY, nrc).ctx.pending {
      NrcOwes(c0, cfg, SID_SECURITY, nrc);
    }
    forall c0: Ctx, sdu ensures |sdu| <= cfg.txSize ==>
      Owed(SendResponse(c0, cfg, sdu).obs) == -1 && !SendResponse(c0, cfg, sdu).ctx.pending {
      if |sdu| <= cfg.txSize { ResponseOwes(c0, cfg, sdu); }
    }
    forall o, b ensures Owed([o] + b) == Charge(o) + Owed(b) {
      OwedOne(o, b);
    }
  }

  lemma OkSize(cfg: Config)
    requires ConfigOk(cfg)
    ensures cfg.txSize >= 6
  {
  }

  /** A handler pays for the request it serves, or leaves it pending. */
  lemma HandlerOwes(c: Ctx, cfg: Config, s: Service, data: seq<byte>, env: Env)
    requires ConfigOk(cfg) && !c.pending && data != [] && (s.handler != Delegated ==> |data| >= 2)
    requires Answerable(cfg, env)
    ensures var r := Execute(c, cfg, s, data, env); Owed(r.obs) == Open(r.ctx) - 1
  {
    OkSize(cfg);
    match s.handler {
      case SessionHandler =>
        NrcOwes(c, cfg, SID_SESSION, SUB_UNKNOWN);
        var sub := data[1] % 0x80;
        var c1 := Entered(c, cfg, sub);
        ResponseOwes(c1, cfg, SessionReply(cfg, sub));
        OwedOne(SessionSet(c.session, sub), SendResponse(c1, cfg, SessionReply(cfg, sub)).obs);
      case ResetHandler =>
        NrcOwes(c, cfg, SID_RESET, SUB_UNKNOWN);
        OwedOne(Suppressed, []);
        ResponseOwes(c, cfg, [SID_RESET + 0x40, data[1] % 0x80]);
      case SecurityHandler => SecurityOwes(c, cfg, data, env);
      case TesterHandler =>
        NrcOwes(c, cfg, SID_TESTER, SUB_UNKNOWN);
        ResponseOwes(c, cfg, [SID_TESTER + 0x40, 0]);
      case Delegated =>
        match env.outcome {
          case Positive(sdu) => ResponseOwes(c, cfg, sdu);
          case Negative(nrc) => NrcOwes(c, cfg, data[0], nrc);
          case Silent => OwedOne(Suppressed, []);
          case Pends => NrcOwes(c, cfg, data[0], PENDING);
        }
    }
  }

  lemma AdmitOwes(c: Ctx, cfg: Config, s: Service, data: seq<byte>, env: Env)
    requires ConfigOk(cfg) && !c.pending && data != [] && (s.handler != Delegated ==> s.minLen >= 2)
    requires Answerable(cfg, env)
    ensures var r := Admit(c, cfg, s, data, env); Owed(r.obs) == Open(r.ctx) - 1
  {
    hide Execute, SendNrc, ConfigOk, Owed;
    OkSize(cfg);
    NrcOwes(c, cfg, data[0], BAD_LENGTH);
    NrcOwes(c, cfg, data[0], DENIED);
    NrcOwes(c, cfg, data[0], CONDITIONS);
    if |data| >= s.minLen {
      HandlerOwes(c, cfg, s, data, env);
    }
  }

  lemma DispatchOwes(c: Ctx, cfg: Config, data: seq<byte>, env: Env)
    requires ConfigOk(cfg) && !c.pending && data != [] && Answerable(cfg, env)
    ensures var r := Dispatch(c, cfg, data, env); Owed(r.obs) == Open(r.ctx) - 1
  {
    hide Admit, SendNrc, ConfigOk, FindService, Owed;
    OkSize(cfg);
    ServiceFound(cfg, data[0]);
    var s := FindService(cfg, data[0]);
    NrcOwes(c, cfg, data[0], SERVICE_UNKNOWN);
    NrcOwes(c, cfg, data[0], NOT_IN_SESSION);
    NrcOwes(c, cfg, data[0], BAD_LENGTH);
    NrcOwes(c, cfg, data[0], SUB_UNKNOWN);
    if s.Some? {
      AdmitOwes(c, cfg, s.value, data, env);
      if |data| >= 2 {
        AdmitOwes(c.(suppress := data[1] >= 0x80), cfg, s.value, data, env);
      }
    }
  }

  function One(b: bool): int { if b then 1 else 0 }

  lemma InputOwes(c: Ctx, cfg: Config, data: seq<byte>, env: Env)
    requires ConfigOk(cfg) && Answerable(cfg, env)
    ensures var r := Input(c, cfg, data, env);
            Owed(r.obs) == Open(r.ctx) - Open(c) + One(Drops(c, Request(data, env)))
  {
    hide Dispatch, ConfigOk, Matches;
    OkSize(cfg);
    if data != [] {
      var c1 := c.(lastMsg := env.now);
      if c.pending {
        OwedOne(Asked(data[0]), SendNrc(c1, cfg, data[0], BUSY).obs);
        NrcOwes(c1, cfg, data[0], BUSY);
      } else if AnswersClient(c, data) {
        OwedOne(ClientHeard(data), []);
      } else {
        var c2 := c1.(p2Start := env.now, pending := false, star := false, rcrrp := 0);
        DispatchOwes(c2, cfg, data, env);
        OwedOne(Asked(data[0]), Dispatch(c2, cfg, data, env).obs);
      }
    }
  }

  lemma ProcessOwes(c: Ctx, cfg: Config, now: u32)
    requires cfg.txSize >= 3
    ensures var r := Process(c, cfg, now); Owed(r.obs) == Open(r.ctx) - Open(c)
  {
    var s := SessionTimer(c, now);
    OwedOne(SessionSet(c.session, DEFAULT_SESSION), []);
    OwedAppend(s.obs, ResponseTimer(s.ctx, cfg, now).obs);
    NrcOwes(s.ctx, cfg, c.pendingSid, CONDITIONS);
    NrcOwes(s.ctx, cfg, c.pendingSid, PENDING);
  }

  /** One step: the books stay balanced exactly when the event neither drops a pending request nor
      lets one linger; a drop leaves one answer owed for good, lingering gives one too many. */
  lemma StepBalances(c: Ctx, cfg: Config, own: byte, e: Event)
    requires ConfigOk(cfg) && Contract(c, cfg, own, e)
    ensures var r := Apply(c, cfg, e);
            && Owed(r.obs) == Open(r.ctx) - Open(c) + One(Drops(c, e)) - One(Lingers(c, own, e))
            && (Owed(r.obs) == Open(r.ctx) - Open(c) <==> !Drops(c, e) && !Lingers(c, own, e))
  {
    OkSize(cfg);
    hide ConfigOk, Input, Process;
    match e {
      case Request(data, env) => InputOwes(c, cfg, data, env);
      case Clock(now) => ProcessOwes(c, cfg, now);
      case Completed(sdu) => ResponseOwes(c, cfg, sdu);
      case Failed(sid, nrc) => NrcOwes(c, cfg, sid, nrc);
      case AsClient(sid, data, hasCb) => OwedOne(ClientSent([sid] + data), []);
    }
  }

  // ---------------------------------------------------------------------------------------------
  // Runs
  // ---------------------------------------------------------------------------------------------

  /** The SID of the request that pends, own before the event. */
  function OwnAfter(own: byte, c: Ctx, cfg: Config, e: Event): byte {
    if BeginsPending(c, cfg, e) then e.data[0] else own
  }

  /** A run in which application and callbacks keep to the contract. */
  predicate WellBehaved(c: Ctx, cfg: Config, own: byte, evs: seq<Event>)
    requires ConfigOk(cfg)
    decreases |evs|
  {
    evs == [] ||
    (&& Contract(c, cfg, own, evs[0])
     && WellBehaved(Apply(c, cfg, evs[0]).ctx, cfg, OwnAfter(own, c, cfg, evs[0]), evs[1..]))
  }

  /** Events of the run that drop a pending request, and events that let one linger. */
  function DropCount(c: Ctx, cfg: Config, evs: seq<Event>): nat
    requires ConfigOk(cfg)
    decreases |evs|
  {
    if evs == [] then 0
    else (if Drops(c, evs[0]) then 1 else 0) + DropCount(Apply(c, cfg, evs[0]).ctx, cfg, evs[1..])
  }

  function LingerCount(c: Ctx, cfg: Config, own: byte, evs: seq<Event>): nat
    requires ConfigOk(cfg)
    decreases |evs|
  {
    if evs == [] then 0
    else
      (if Lingers(c, own, evs[0]) then 1 else 0)
      + LingerCount(Apply(c, cfg, evs[0]).ctx, cfg, OwnAfter(own, c, cfg, evs[0]), evs[1..])
  }

  /** Response conservation over a run: requests asked = positive responses + suppressed ones + final
      negative ones + one if a request is pending + the requests dropped - those answered while they
      linger. So every request is answered exactly once, or pending, when nothing is dropped and nothing
      lingers, and the sums agree only when as many are dropped as linger. */
  lemma {:induction false} ResponseConservation(c: Ctx, cfg: Config, own: byte, evs: seq<Event>)
    requires ConfigOk(cfg) && WellBehaved(c, cfg, own, evs)
    ensures var r := Run(c, cfg, evs);
            Owed(r.obs) == Open(r.ctx) - Open(c) + DropCount(c, cfg, evs) - LingerCount(c, cfg, own, evs)
    decreases |evs|
  {
    hide Apply, Contract, Drops, Lingers, OwnAfter, ConfigOk, Charge;
    if evs != [] {
      var one := Apply(c, cfg, evs[0]);
      StepBalances(c, cfg, own, evs[0]);
      ResponseConservation(one.ctx, cfg, OwnAfter(own, c, cfg, evs[0]), evs[1..]);
      OwedAppend(one.obs, Run(one.ctx, cfg, evs[1..]).obs);
    }
  }

  // ---------------------------------------------------------------------------------------------
  // Under whose SID
  // ---------------------------------------------------------------------------------------------

  /** The SID of the last client request sent in the run, or of the last request that pended, whichever is
      later; sid if there is none. */
  function Remembered(sid: byte, c: Ctx, cfg: Config, evs: seq<Event>): byte
    requires ConfigOk(cfg)
    decreases |evs|
  {
    if evs == [] then sid
    else Remembered(NextSid(sid, c, cfg, evs[0]), Apply(c, cfg, evs[0]).ctx, cfg, evs[1..])
  }

  function NextSid(sid: byte, c: Ctx, cfg: Config, e: Event): byte {
    if BeginsPending(c, cfg, e) then e.data[0] else if Sends(cfg, e) then e.sid else sid
  }

  /** While a request is pending, that is what the core takes for its SID. */
  lemma {:induction false} RememberedOverRun(sid: byte, c: Ctx, cfg: Config, evs: seq<Event>)
    requires ConfigOk(cfg) && (c.pending ==> c.pendingSid == sid)
    ensures Run(c, cfg, evs).ctx.pending ==> Run(c, cfg, evs).ctx.pendingSid == Remembered(sid, c, cfg, evs)
    decreases |evs|
  {
    hide Apply, ConfigOk, NextSid;
    if evs != [] {
      RememberedStep(sid, c, cfg, evs[0]);
      RememberedOverRun(NextSid(sid, c, cfg, evs[0]), Apply(c, cfg, evs[0]).ctx, cfg, evs[1..]);
    }
  }

  lemma RememberedStep(sid: byte, c: Ctx, cfg: Config, e: Event)
    requires ConfigOk(cfg) && (c.pending ==> c.pendingSid == sid)
    ensures var c' := Apply(c, cfg, e).ctx;
            c'.pending ==> c'.pendingSid == NextSid(sid, c, cfg, e)
  {
    hide Input, Process, SendNrc, SendResponse, ConfigOk, Defers, Matches;
    AnswersKeep(c, cfg);
    if e.Request? {
      InputSlot(c, cfg, e.data, e.env);
    } else if e.Clock? {
      ProcessKeeps(c, cfg, e.now);
    }
  }

  /** The negative responses a tick sends, 0x78 and the final one alike. */
  predicate AllUnder(sid: byte, obs: seq<Obs>) { forall o :: o in obs && o.Refused? ==> o.sid == sid }

  lemma TickUnder(c: Ctx, cfg: Config, now: u32)
    ensures AllUnder(c.pendingSid, Process(c, cfg, now).obs)
  {
  }

  /** After any run that leaves a request pending, whose SID is own: what the core sends for it by
      itself, 0x78 or the final 0x22, carries own, and the application's report of its failure ends
      it, if and only if the last client request since it began, if any, had that SID. Otherwise the
      client's SID is carried, and the report does not end it. */
  lemma UnderOwnSidIff(sid: byte, c: Ctx, cfg: Config, evs: seq<Event>, now: u32, nrc: byte)
    requires ConfigOk(cfg) && (c.pending ==> c.pendingSid == sid) && Run(c, cfg, evs).ctx.pending && nrc != PENDING
    ensures var here := Run(c, cfg, evs).ctx;
            var own, carried := LastPending(sid, c, cfg, evs), Remembered(sid, c, cfg, evs);
            && AllUnder(carried, Process(here, cfg, now).obs)
            && (Expired(here, now) ==> (AllUnder(own, Process(here, cfg, now).obs) <==> carried == own))
            && (!Apply(here, cfg, Failed(own, nrc)).ctx.pending <==> carried == own)
  {
    hide Run, Remembered, LastPending, ConfigOk, Process;
    OkSize(cfg);
    RememberedOverRun(sid, c, cfg, evs);
    var here := Run(c, cfg, evs).ctx;
    TickUnder(here, cfg, now);
    if Expired(here, now) {
      ExpiryRefuses(here, cfg, now);
    }
  }

  lemma ExpiryRefuses(c: Ctx, cfg: Config, now: u32)
    requires cfg.txSize >= 3 && Expired(c, now)
    ensures exists o :: o in Process(c, cfg, now).obs && o.Refused? && o.sid == c.pendingSid
  {
    var nrc := if GivesUp(c, cfg) then CONDITIONS else PENDING;
    assert Refused(c.pendingSid, nrc) in Process(c, cfg, now).obs;
  }

  /** Being busy with a request, refusing another message changes nothing but the time of the last
      message, unless it is for the SID remembered last: then the pending request is forgotten. */
  lemma BusyRefusal(c: Ctx, cfg: Config, data: seq<byte>, env: Env)
    requires ConfigOk(cfg) && c.pending && data != [] && !SilentTester(data)
    ensures Input(c, cfg, data, env) ==
            Step(c.(lastMsg := env.now, pending := data[0] != c.pendingSid), [Asked(data[0]), Refused(data[0], BUSY)])
  {
    OkSize(cfg);
    assert [Asked(data[0])] + [Refused(data[0], BUSY)] == [Asked(data[0]), Refused(data[0], BUSY)];
  }

  /** After any run that leaves a request pending, whose SID is own: a message repeats it exactly when it
      has that SID, and makes the core forget it exactly when it has the SID remembered last. So busy
      refusals of repetitions, and no others, lose the request if and only if the two SIDs agree. */
  lemma RepetitionForgetsIff(sid: byte, c: Ctx, cfg: Config, evs: seq<Event>, data: seq<byte>, env: Env)
    requires ConfigOk(cfg) && (c.pending ==> c.pendingSid == sid) && Run(c, cfg, evs).ctx.pending
    requires data != [] && !SilentTester(data)
    ensures var here := Run(c, cfg, evs).ctx;
            var own, carried := LastPending(sid, c, cfg, evs), Remembered(sid, c, cfg, evs);
            && (!Input(here, cfg, data, env).ctx.pending <==> data[0] == carried)
            && (data[0] == own || data[0] == carried ==>
                ((!Input(here, cfg, data, env).ctx.pending <==> data[0] == own) <==> carried == own))
  {
    hide Run, Remembered, LastPending, ConfigOk, Input;
    RememberedOverRun(sid, c, cfg, evs);
    BusyRefusal(Run(c, cfg, evs).ctx, cfg, data, env);
  }
}
