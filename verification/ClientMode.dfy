/**
 The stack as a client, over whole runs: whose callback hears which message, what ends the wait for a
 response, and which messages are never answered.
 */
module ClientMode {
  import opened Bytes
  import opened Core

  /** Whether an observation says that a message was taken as a request. */
  predicate TakenAsRequest(obs: seq<Obs>) { obs != [] && obs[0].Asked? }

  /** A message is taken as a request exactly when, with one pending, it is not a suppressed tester
      present and, with none pending, it does not look like the response to the remembered SID. */
  lemma RequestTakenIff(c: Ctx, cfg: Config, data: seq<byte>, env: Env)
    requires ConfigOk(cfg) && data != []
    ensures TakenAsRequest(Input(c, cfg, data, env).obs) <==>
            if c.pending then !SilentTester(data) else !Matches(c.pendingSid, data)
  {
    hide Dispatch, SendNrc, ConfigOk;
  }

  // ---------------------------------------------------------------------------------------------
  // What the stack remembers of the requests it sent
  // ---------------------------------------------------------------------------------------------

  /** The message is taken as the response to a request of this stack. */
  predicate TakenAsResponse(c: Ctx, e: Event) {
    e.Request? && e.data != [] && !c.pending && Matches(c.pendingSid, e.data)
  }

  /** A request of this stack is sent, or at least handed to the transport. */
  predicate Sends(cfg: Config, e: Event) { e.AsClient? && |e.data| + 1 <= cfg.txSize }

  /** The message is a request whose handler returns UDS_PENDING. */
  predicate BeginsPending(c: Ctx, cfg: Config, e: Event) {
    && e.Request? && e.data != [] && !c.pending && !Matches(c.pendingSid, e.data)
    && Defers(c, cfg, e.data, e.env)
  }

  predicate Defers(c: Ctx, cfg: Config, data: seq<byte>, env: Env)
    requires data != []
  {
    var found := FindService(cfg, data[0]);
    && found.Some? && Reaches(c, cfg, found.value, data, env)
    && found.value.handler.Delegated? && env.outcome.Pends?
  }

  /** The remembered SID, and which client request's callback is registered, if any: requests are
      numbered by their place in the run. */
  datatype Slot = Slot(sid: byte, owner: Option<nat>)

  /** The slot after event number n. */
  function SlotAfter(s: Slot, n: nat, c: Ctx, cfg: Config, e: Event): Slot {
    if Sends(cfg, e) then Slot(e.sid, if e.hasCb then Some(n) else None)
    else if TakenAsResponse(c, e) then Slot(0, None)
    else if BeginsPending(c, cfg, e) then s.(sid := e.data[0])
    else s
  }

  function SlotOver(s: Slot, n: nat, c: Ctx, cfg: Config, evs: seq<Event>): Slot
    requires ConfigOk(cfg)
    decreases |evs|
  {
    if evs == [] then s
    else SlotOver(SlotAfter(s, n, c, cfg, evs[0]), n + 1, Apply(c, cfg, evs[0]).ctx, cfg, evs[1..])
  }

  /** No later request is sent and no message is taken as the response. */
  predicate Unbroken(c: Ctx, cfg: Config, evs: seq<Event>)
    requires ConfigOk(cfg)
    decreases |evs|
  {
    evs == [] ||
    (!Sends(cfg, evs[0]) && !TakenAsResponse(c, evs[0]) && Unbroken(Apply(c, cfg, evs[0]).ctx, cfg, evs[1..]))
  }

  /** The SID of the last request of the run whose handler pended, sid if there is none. */
  function LastPending(sid: byte, c: Ctx, cfg: Config, evs: seq<Event>): byte
    requires ConfigOk(cfg)
    decreases |evs|
  {
    if evs == [] then sid
    else
      var sid' := if BeginsPending(c, cfg, evs[0]) then evs[0].data[0] else sid;
      LastPending(sid', Apply(c, cfg, evs[0]).ctx, cfg, evs[1..])
  }

  // --- every step keeps to it ---------------------------------------------------------------------

  /** Neither SID nor callback is touched. */
  predicate Keeps(c: Ctx, r: Step) {
    r.ctx.pendingSid == c.pendingSid && r.ctx.hasCb == c.hasCb && (!c.pending ==> !r.ctx.pending)
  }

  lemma AnswersKeep(c: Ctx, cfg: Config)
    ensures forall sid, nrc :: Keeps(c, SendNrc(c, cfg, sid, nrc))
    ensures forall sdu :: Keeps(c, SendResponse(c, cfg, sdu))
  {
  }

  lemma SecurityKeeps(c: Ctx, cfg: Config, data: seq<byte>, env: Env)
    requires |data| >= 2
    ensures Keeps(c, HandleSecurity(c, cfg, data, env))
  {
    hide SendNrc, SendResponse, MaxAttempts, Delay;
    var c1 := c.(delayEnd := 0);
    AnswersKeep(c, cfg);
    AnswersKeep(c1, cfg);
    var c2 := c1.(attempts := ToByte(c1.attempts + 1));
    AnswersKeep(c2, cfg);
    AnswersKeep(c2.(delayEnd := (env.now + Delay(cfg)) % 0x1_0000_0000), cfg);
    AnswersKeep(Unlocked(c1, cfg, data[1] % 0x80 / 2), cfg);
  }

  lemma ExecuteKeeps(c: Ctx, cfg: Config, s: Service, data: seq<byte>, env: Env)
    requires data != [] && (s.handler != Delegated ==> |data| >= 2) && !(s.handler.Delegated? && env.outcome.Pends?)
    ensures Keeps(c, Execute(c, cfg, s, data, env))
  {
    hide SendNrc, SendResponse, HandleSecurity, SessionReply;
    AnswersKeep(c, cfg);
    if s.handler.SecurityHandler? {
      SecurityKeeps(c, cfg, data, env);
    } else if s.handler.SessionHandler? {
      AnswersKeep(Entered(c, cfg, data[1] % 0x80), cfg);
    }
  }

  lemma DispatchKeeps(c: Ctx, cfg: Config, data: seq<byte>, env: Env)
    requires ConfigOk(cfg) && data != [] && !c.pending
    ensures var r := Dispatch(c, cfg, data, env);
            && r.ctx.hasCb == c.hasCb
            && r.ctx.pendingSid == (if Defers(c, cfg, data, env) then data[0] else c.pendingSid)
            && (r.ctx.pending <==> Defers(c, cfg, data, env))
  {
    hide SendNrc, HandleSession, HandleReset, HandleSecurity, HandleTester, FindService, SessionSupported, SubSupported,
         ConfigOk;
    ServiceFound(cfg, data[0]);
    var found := FindService(cfg, data[0]);
    AnswersKeep(c, cfg);
    if found.Some? {
      var c1 := if found.value.subMask.Some? && |data| >= 2 then c.(suppress := data[1] >= 0x80) else c;
      AnswersKeep(c1, cfg);
      if Reaches(c, cfg, found.value, data, env) && !Defers(c, cfg, data, env) {
        ExecuteKeeps(c1, cfg, found.value, data, env);
      }
    }
  }

  lemma InputSlot(c: Ctx, cfg: Config, data: seq<byte>, env: Env)
    requires ConfigOk(cfg)
    ensures var r, e := Input(c, cfg, data, env).ctx, Request(data, env);
            && r.pendingSid == (if TakenAsResponse(c, e) then 0
                                else if BeginsPending(c, cfg, e) then data[0]
                                else c.pendingSid)
            && r.hasCb == (c.hasCb && !TakenAsResponse(c, e))
            && (!c.pending ==> (r.pending <==> BeginsPending(c, cfg, e)))
  {
    hide Dispatch, SendNrc, ConfigOk, FindService, SessionSupported, SubSupported;
    if data != [] {
      var c1 := c.(lastMsg := env.now, p2Start := env.now, pending := false, star := false, rcrrp := 0);
      DispatchKeeps(c1, cfg, data, env);
      AnswersKeep(c.(lastMsg := env.now), cfg);
    }
  }

  lemma ProcessKeeps(c: Ctx, cfg: Config, now: u32)
    ensures Keeps(c, Process(c, cfg, now))
  {
    hide SendNrc;
    AnswersKeep(SessionTimer(c, now).ctx, cfg);
  }

  ghost predicate Describes(s: Slot, c: Ctx) { c.pendingSid == s.sid && (c.hasCb <==> s.owner.Some?) }

  lemma StepSlot(s: Slot, n: nat, c: Ctx, cfg: Config, e: Event)
    requires ConfigOk(cfg) && Describes(s, c)
    ensures Describes(SlotAfter(s, n, c, cfg, e), Apply(c, cfg, e).ctx)
  {
    hide Input, Process, SendNrc, SendResponse, ConfigOk, Defers, Matches;
    AnswersKeep(c, cfg);
    if e.Request? {
      InputSlot(c, cfg, e.data, e.env);
    } else if e.Clock? {
      ProcessKeeps(c, cfg, e.now);
    }
  }

  /** Over any run: the slot is what the context holds; the callback of request number m stays
      registered exactly as long as no later request is sent and no message is taken as the response,
      and never comes back; until then the SID is that of the last request that pended. */
  lemma {:induction false} SlotOverRun(s: Slot, n: nat, c: Ctx, cfg: Config, evs: seq<Event>, m: nat)
    requires ConfigOk(cfg) && Describes(s, c) && m < n
    ensures var after := SlotOver(s, n, c, cfg, evs);
            && Describes(after, Run(c, cfg, evs).ctx)
            && (after.owner == Some(m) <==> s.owner == Some(m) && Unbroken(c, cfg, evs))
            && (Unbroken(c, cfg, evs) ==> after.sid == LastPending(s.sid, c, cfg, evs))
    decreases |evs|
  {
    hide Apply, ConfigOk, BeginsPending, TakenAsResponse, Sends, Describes;
    if evs != [] {
      StepSlot(s, n, c, cfg, evs[0]);
      SlotOverRun(SlotAfter(s, n, c, cfg, evs[0]), n + 1, Apply(c, cfg, evs[0]).ctx, cfg, evs[1..], m);
    }
  }

  // ---------------------------------------------------------------------------------------------
  // Who hears a response
  // ---------------------------------------------------------------------------------------------

  /** The callback of request number m is called with the message. */
  predicate HeardBy(m: nat, slot: Slot, obs: seq<Obs>, message: seq<byte>) {
    ClientHeard(message) in obs && slot.owner == Some(m)
  }

  /** A request is sent as a client, with a callback; after any run a message arrives. The callback of
      that request hears it if and only if nothing is pending on the server side at that moment, no
      later request was sent and no earlier message taken as the response, and the message answers the
      SID remembered last, which a request of the other side that pended in between replaces. It is
      heard once; a message not heard by any callback is refused as busy or taken as a request,
      unless it is a suppressed tester present or matches a request sent without callback. */
  lemma ResponseHeardIff(c: Ctx, cfg: Config, sid: byte, data: seq<byte>, evs: seq<Event>, message: seq<byte>, env: Env)
    requires ConfigOk(cfg) && |data| + 1 <= cfg.txSize && message != []
    ensures var sent := ClientRequest(c, cfg, sid, data, true);
            var slot := SlotOver(Slot(sid, Some(0)), 1, sent.ctx, cfg, evs);
            var here := Run(sent.ctx, cfg, evs).ctx;
            var heard := Input(here, cfg, message, env);
            && sent.obs == [ClientSent([sid] + data)]
            && (HeardBy(0, slot, heard.obs, message) <==>
                && !here.pending && Unbroken(sent.ctx, cfg, evs)
                && Matches(LastPending(sid, sent.ctx, cfg, evs), message))
            && (ClientHeard(message) in heard.obs ==>
                heard.obs == [ClientHeard(message)] && !heard.ctx.hasCb && heard.ctx.pendingSid == 0)
            && (ClientHeard(message) !in heard.obs ==>
                TakenAsRequest(heard.obs) || (here.pending && SilentTester(message))
                || (!here.pending && !here.hasCb && Matches(here.pendingSid, message)))
  {
    hide Run, SlotOver, Unbroken, LastPending, Dispatch, ConfigOk, Matches, ResponseSid;
    var sent := ClientRequest(c, cfg, sid, data, true).ctx;
    SlotOverRun(Slot(sid, Some(0)), 1, sent, cfg, evs, 0);
    MessageHeard(Run(sent, cfg, evs).ctx, cfg, message, env);
  }

  /** One message, by the state it finds. */
  lemma MessageHeard(c: Ctx, cfg: Config, message: seq<byte>, env: Env)
    requires ConfigOk(cfg) && message != []
    ensures var heard := Input(c, cfg, message, env);
            && (ClientHeard(message) in heard.obs <==> !c.pending && c.hasCb && Matches(c.pendingSid, message))
            && (ClientHeard(message) in heard.obs ==>
                heard.obs == [ClientHeard(message)] && !heard.ctx.hasCb && heard.ctx.pendingSid == 0)
            && (ClientHeard(message) !in heard.obs ==>
                TakenAsRequest(heard.obs) || (c.pending && SilentTester(message))
                || (!c.pending && !c.hasCb && Matches(c.pendingSid, message)))
  {
    hide Dispatch, ConfigOk, SendNrc, ResponseSid;
    RequestTakenIff(c, cfg, message, env);
    if c.pending {
      AnswersUnheard(c.(lastMsg := env.now), cfg);
    } else if !Matches(c.pendingSid, message) {
      var c1 := c.(lastMsg := env.now, p2Start := env.now, pending := false, star := false, rcrrp := 0);
      DispatchUnheard(c1, cfg, message, env);
    }
  }

  /** Nothing in the observations is for a client. */
  predicate Unheard(obs: seq<Obs>) { forall o :: o in obs ==> !o.ClientHeard? }

  lemma AnswersUnheard(c: Ctx, cfg: Config)
    ensures forall sid, nrc :: Unheard(SendNrc(c, cfg, sid, nrc).obs)
    ensures forall sdu :: Unheard(SendResponse(c, cfg, sdu).obs)
  {
  }

  lemma SecurityUnheard(c: Ctx, cfg: Config, data: seq<byte>, env: Env)
    requires |data| >= 2
    ensures Unheard(HandleSecurity(c, cfg, data, env).obs)
  {
    hide SendNrc, SendResponse, MaxAttempts, Delay;
    var c1 := c.(delayEnd := 0);
    AnswersUnheard(c, cfg);
    AnswersUnheard(c1, cfg);
    var c2 := c1.(attempts := ToByte(c1.attempts + 1));
    AnswersUnheard(c2, cfg);
    AnswersUnheard(c2.(delayEnd := (env.now + Delay(cfg)) % 0x1_0000_0000), cfg);
    AnswersUnheard(Unlocked(c1, cfg, data[1] % 0x80 / 2), cfg);
  }

  lemma ExecuteUnheard(c: Ctx, cfg: Config, s: Service, data: seq<byte>, env: Env)
    requires data != [] && (s.handler != Delegated ==> |data| >= 2)
    ensures Unheard(Execute(c, cfg, s, data, env).obs)
  {
    hide SendNrc, SendResponse, HandleSecurity, SessionReply;
    AnswersUnheard(c, cfg);
    if s.handler.SecurityHandler? {
      SecurityUnheard(c, cfg, data, env);
    } else if s.handler.SessionHandler? {
      AnswersUnheard(Entered(c, cfg, data[1] % 0x80), cfg);
    }
  }

  lemma DispatchUnheard(c: Ctx, cfg: Config, data: seq<byte>, env: Env)
    requires ConfigOk(cfg) && data != []
    ensures Unheard(Dispatch(c, cfg, data, env).obs)
  {
    hide SendNrc, Execute, FindService, SessionSupported, SubSupported, ConfigOk, Unheard;
    ServiceFound(cfg, data[0]);
    var found := FindService(cfg, data[0]);
    AnswersUnheard(c, cfg);
    if found.Some? {
      var c1 := if found.value.subMask.Some? && |data| >= 2 then c.(suppress := data[1] >= 0x80) else c;
      AnswersUnheard(c1, cfg);
      if found.value.handler != Delegated ==> |data| >= 2 {
        ExecuteUnheard(c1, cfg, found.value, data, env);
      }
    }
  }

  /** The SIDs of ISO 14229-1 requests have the response bit clear; 0x3F would make 0x7F ambiguous. */
  predicate RequestSid(sid: byte) { sid != 0 && sid / 0x40 % 2 == 0 && sid != 0x3F }

  /** For such SIDs the remembered one has to be the request's own: a response to sid is heard by its
      callback if and only if nothing is pending, the wait is unbroken, and no other service's request
      was the last to pend. Otherwise it is refused as busy or taken as a request. */
  lemma OwnResponseHeardIff(c: Ctx, cfg: Config, sid: byte, data: seq<byte>, evs: seq<Event>,
                            response: seq<byte>, env: Env)
    requires ConfigOk(cfg) && |data| + 1 <= cfg.txSize && response != []
    requires RequestSid(sid) && Matches(sid, response)
    requires RequestSid(LastPending(sid, ClientRequest(c, cfg, sid, data, true).ctx, cfg, evs))
    ensures var sent := ClientRequest(c, cfg, sid, data, true).ctx;
            var slot := SlotOver(Slot(sid, Some(0)), 1, sent, cfg, evs);
            var here := Run(sent, cfg, evs).ctx;
            HeardBy(0, slot, Input(here, cfg, response, env).obs, response) <==>
              !here.pending && Unbroken(sent, cfg, evs) && LastPending(sid, sent, cfg, evs) == sid
  {
    hide Run, SlotOver, Unbroken, LastPending, Input, ConfigOk;
    ResponseHeardIff(c, cfg, sid, data, evs, response, env);
  }

  // ---------------------------------------------------------------------------------------------
  // The server side remembers too long
  // ---------------------------------------------------------------------------------------------

  /** The SID of a finished asynchronous request stays remembered: over any run without a client
      request, until a message is taken for its response, a message that matches the last request
      that pended gets no answer and is not served, even when it is a request. */
  lemma FinishedSidSwallows(c: Ctx, cfg: Config, sdu: seq<byte>, evs: seq<Event>, data: seq<byte>, env: Env)
    requires ConfigOk(cfg) && c.pending && !c.hasCb && |sdu| <= cfg.txSize && data != []
    ensures var done := SendResponse(c, cfg, sdu).ctx;
            var here := Run(done, cfg, evs).ctx;
            !here.pending && Unbroken(done, cfg, evs) && Matches(LastPending(c.pendingSid, done, cfg, evs), data) ==>
              Input(here, cfg, data, env) == Step(here.(lastMsg := env.now, pendingSid := 0), [])
  {
    hide Run, SlotOver, Unbroken, LastPending, Dispatch, ConfigOk, ResponseSid;
    var done := SendResponse(c, cfg, sdu).ctx;
    SlotOverRun(Slot(c.pendingSid, None), 1, done, cfg, evs, 0);
    if Unbroken(done, cfg, evs) {
      CallbackStaysNone(done, cfg, evs);
    }
  }

  lemma {:induction false} CallbackStaysNone(c: Ctx, cfg: Config, evs: seq<Event>)
    requires ConfigOk(cfg) && !c.hasCb && Unbroken(c, cfg, evs)
    ensures !Run(c, cfg, evs).ctx.hasCb
    decreases |evs|
  {
    hide Apply, ConfigOk, BeginsPending, TakenAsResponse, Sends;
    if evs != [] {
      StepSlot(Slot(c.pendingSid, None), 0, c, cfg, evs[0]);
      CallbackStaysNone(Apply(c, cfg, evs[0]).ctx, cfg, evs[1..]);
    }
  }
}
