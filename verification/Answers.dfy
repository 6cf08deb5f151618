/**
 What a tester gets from the handlers of the core, in the bytes of ISO 14229-1, and what a client that is
 another instance of this stack makes of it.
 */
module Answers {
  import opened Bytes
  import opened Core
  import opened ClientMode
  import opened Wiring

  // ---------------------------------------------------------------------------------------------
  // Initialisation
  // ---------------------------------------------------------------------------------------------

  /** The times of a fresh stack are the configured ones, 50 and 5000 ms where none is, and under strict
      compliance at least 20 and 1000 ms; it is locked in the default session unless the memory says
      otherwise, and nothing is pending. */
  lemma FreshStack(cfg: Config, nvm: Option<(byte, byte)>)
    ensures var c := Init(cfg, nvm);
            && (cfg.p2 == 0 ==> c.p2Ms == 50)
            && (cfg.p2 > 0 ==> c.p2Ms == if cfg.strict && cfg.p2 < 20 then 20 else cfg.p2)
            && (cfg.p2Star == 0 ==> c.p2StarMs == 5000)
            && (cfg.p2Star > 0 ==> c.p2StarMs == if cfg.strict && cfg.p2Star < 1000 then 1000 else cfg.p2Star)
            && (nvm.None? ==> c.session == 1 && c.level == 0)
            && (nvm.Some? ==> (c.session, c.level) == nvm.value)
            && !c.pending && c.pendingSid == 0 && !c.suppress && c.attempts == 0 && c.delayEnd == 0
  {
  }

  // ---------------------------------------------------------------------------------------------
  // The built-in handlers
  // ---------------------------------------------------------------------------------------------

  /** The number that two bytes stand for, the high one first. */
  function Number(hi: int, lo: int): int { hi * 256 + lo }

  /** The timing record in a response to session control: P2 in milliseconds, P2* in tens of them. */
  predicate Timings(cfg: Config, sub: byte, w: seq<byte>) {
    var p2: int := if cfg.p2ServerMax > 0 then cfg.p2ServerMax else 50;
    var star: int := if cfg.p2StarServerMax > 0 then cfg.p2StarServerMax else 5000;
    && |w| == 6 && w[..2] == [0x50, sub]
    && Number(w[2], w[3]) == p2 && star - 10 < 10 * Number(w[4], w[5]) <= star
  }

  /** Session control: sessions 1 to 3 are entered and answered with the timings, which read back as the
      configured P2 and, to the next lower ten milliseconds, P2*; others are refused. */
  lemma SessionAnswer(c: Ctx, cfg: Config, data: seq<byte>)
    requires |data| >= 2 && cfg.txSize >= 6 && !c.suppress
    ensures var r, sub := HandleSession(c, cfg, data), data[1] % 0x80;
            if 1 <= sub <= 3 then
              && |r.obs| == 2 && r.obs[0] == SessionSet(c.session, sub)
              && r.obs[1].Replied? && Timings(cfg, sub, r.obs[1].sdu)
              && r.ctx.session == sub && r.ctx.level == if c.session == sub && sub != 1 then c.level else 0
            else r.obs == [Refused(0x10, 0x12)] && r.ctx.session == c.session && r.ctx.level == c.level
  {
  }

  /** ECU reset: types 1 to 5 are answered with the type, or silently when asked to; others are refused. */
  lemma ResetAnswer(c: Ctx, cfg: Config, data: seq<byte>)
    requires |data| >= 2 && cfg.txSize >= 6
    ensures var r, sub := HandleReset(c, cfg, data), data[1] % 0x80;
            if 1 <= sub <= 5 then
              r.obs == [if data[1] >= 0x80 || c.suppress then Suppressed else Replied([0x51, sub])]
            else r.obs == [Refused(0x11, 0x12)]
  {
  }

  lemma TesterAnswer(c: Ctx, cfg: Config, data: seq<byte>)
    requires |data| >= 2 && cfg.txSize >= 6
    ensures var r := HandleTester(c, cfg, data);
            r.obs == if data[1] % 0x80 != 0 then [Refused(0x3E, 0x12)]
                     else [if c.suppress then Suppressed else Replied([0x7E, 0])]
  {
  }

  /** Security access is refused exactly while the delay runs, without any effect but that a pending
      security access is forgotten; afterwards a request is served as if there had been none. */
  lemma DelayRefuses(c: Ctx, cfg: Config, data: seq<byte>, env: Env)
    requires |data| >= 2 && cfg.txSize >= 6
    ensures var r := HandleSecurity(c, cfg, data, env);
            if env.now < c.delayEnd then
              r.obs == [Refused(0x27, 0x37)] && r.ctx == c.(pending := c.pending && c.pendingSid != 0x27)
            else r == HandleSecurity(c.(delayEnd := 0), cfg, data, env)
  {
  }

  /** A seed that fits the buffer reaches the tester as it came from the callback, after the request's
      own sub-function; without a callback, or when it fails, the tester gets the code. */
  lemma SeedReachesTester(c: Ctx, cfg: Config, data: seq<byte>, env: Env)
    requires |data| >= 2 && data[1] % 2 == 1 && env.now >= c.delayEnd
    requires cfg.txSize >= 6 && |env.seed| + 2 <= cfg.txSize && !c.suppress
    ensures var r := HandleSecurity(c, cfg, data, env);
            && |r.obs| == 1 && r.ctx.level == c.level && r.ctx.attempts == c.attempts
            && (cfg.hasSeed && env.seedRes >= 0 ==>
                  && r.obs[0].Replied? && |r.obs[0].sdu| >= 2
                  && r.obs[0].sdu[..2] == [0x67, data[1]] && r.obs[0].sdu[2..] == env.seed)
            && (!cfg.hasSeed ==> r.obs[0] == Refused(0x27, 0x22))
            && (cfg.hasSeed && env.seedRes < 0 ==> r.obs[0] == Refused(0x27, -env.seedRes % 0x100))
  {
  }

  /** A right key unlocks the level that is half the sub-function and clears the counter; a wrong one
      counts, and gets the callback's code, or 0x35 if it gives none, until the count reaches the
      maximum (3 if none is configured): then it gets 0x36 and starts the delay (10 s if none is). */
  lemma KeyAnswer(c: Ctx, cfg: Config, data: seq<byte>, env: Env)
    requires |data| >= 2 && data[1] % 2 == 0 && env.now >= c.delayEnd && cfg.hasKey && cfg.txSize >= 6 && !c.suppress
    ensures var r := HandleSecurity(c, cfg, data, env);
            var level := data[1] % 0x80 / 2;
            var max := if cfg.maxAttempts == 0 then 3 else cfg.maxAttempts;
            var count := (c.attempts + 1) % 0x100;
            && |r.obs| == 2 && r.obs[0] == KeyChecked(env.now, level, env.keyRes == 0)
            && (env.keyRes == 0 ==>
                  && r.obs[1] == Replied([0x67, data[1]])
                  && r.ctx.level == level && r.ctx.attempts == 0 && r.ctx.delayEnd == 0)
            && (env.keyRes != 0 ==> r.ctx.level == c.level && r.ctx.attempts == count)
            && (env.keyRes != 0 && count >= max ==>
                  && r.obs[1] == Refused(0x27, 0x36)
                  && r.ctx.delayEnd == (env.now + if cfg.delay == 0 then 10000 else cfg.delay) % 0x1_0000_0000)
            && (env.keyRes != 0 && count < max ==> r.ctx.delayEnd == 0)
            && (env.keyRes < 0 && count < max ==> r.obs[1] == Refused(0x27, -env.keyRes % 0x100))
            && (env.keyRes > 0 && count < max ==> r.obs[1] == Refused(0x27, 0x35))
  {
  }

  // ---------------------------------------------------------------------------------------------
  // Under whose SID
  // ---------------------------------------------------------------------------------------------

  /** The handlers of the core sit at their SIDs. */
  lemma HandlersInPlace(s: Service)
    requires s in CORE_SERVICES
    ensures s.handler.SessionHandler? <==> s.sid == 0x10
    ensures s.handler.ResetHandler? <==> s.sid == 0x11
    ensures s.handler.SecurityHandler? <==> s.sid == 0x27
    ensures s.handler.TesterHandler? <==> s.sid == 0x3E
  {
  }

  /** A delegated handler answers under the SID of its request. */
  predicate OwnAnswer(sid: byte, env: Env) {
    env.outcome.Positive? ==> env.outcome.sdu != [] && env.outcome.sdu[0] == (sid + 0x40) % 0x100
  }

  /** A response to a request with that SID: the SID plus 0x40, or 0x7F, the SID and a code. */
  predicate AnswersTo(sid: byte, w: seq<byte>) {
    w != [] && (w[0] == (sid + 0x40) % 0x100 || (|w| == 3 && w[0] == 0x7F && w[1] == sid))
  }

  /** Everything the observations put on the wire answers sid. */
  predicate AllAnswer(sid: byte, obs: seq<Obs>) {
    forall o, w :: o in obs && w in Wire(o) ==> AnswersTo(sid, w) && (o.Refused? ==> w == [0x7F, sid, o.nrc])
  }

  lemma AnswersAnswer(sid: byte, c: Ctx, cfg: Config)
    ensures forall nrc :: AllAnswer(sid, SendNrc(c, cfg, sid, nrc).obs)
    ensures forall sdu :: sdu != [] && sdu[0] == (sid + 0x40) % 0x100 ==> AllAnswer(sid, SendResponse(c, cfg, sdu).obs)
  {
  }

  lemma AnswerCons(sid: byte, o: Obs, obs: seq<Obs>)
    requires Wire(o) == [] && AllAnswer(sid, obs)
    ensures AllAnswer(sid, [o] + obs)
  {
  }

  lemma SecurityAnswers(c: Ctx, cfg: Config, data: seq<byte>, env: Env)
    requires |data| >= 2
    ensures AllAnswer(0x27, HandleSecurity(c, cfg, data, env).obs)
  {
    hide SendNrc, SendResponse, AllAnswer, MaxAttempts, Delay;
    var c1 := c.(delayEnd := 0);
    var c2 := c1.(attempts := ToByte(c1.attempts + 1));
    var c3 := c2.(delayEnd := (env.now + Delay(cfg)) % 0x1_0000_0000);
    var level := data[1] % 0x80 / 2;
    AnswersAnswer(0x27, c, cfg);
    AnswersAnswer(0x27, c1, cfg);
    AnswersAnswer(0x27, c2, cfg);
    AnswersAnswer(0x27, c3, cfg);
    AnswersAnswer(0x27, Unlocked(c1, cfg, level), cfg);
    var o := KeyChecked(env.now, level, env.keyRes == 0);
    AnswerCons(0x27, o, SendResponse(Unlocked(c1, cfg, level), cfg, [0x67, data[1]]).obs);
    AnswerCons(0x27, o, SendNrc(c3, cfg, 0x27, 0x36).obs);
    AnswerCons(0x27, o, SendNrc(c2, cfg, 0x27, if env.keyRes < 0 then ToByte(-env.keyRes) else 0x35).obs);
  }

  lemma ExecuteAnswers(c: Ctx, cfg: Config, s: Service, data: seq<byte>, env: Env)
    requires data != [] && (s.handler != Delegated ==> |data| >= 2 && s in CORE_SERVICES && s.sid == data[0])
    requires OwnAnswer(data[0], env)
    ensures AllAnswer(data[0], Execute(c, cfg, s, data, env).obs)
  {
    hide SendNrc, SendResponse, AllAnswer, HandleSecurity, SessionReply;
    AnswersAnswer(data[0], c, cfg);
    SilentAnswers(data[0]);
    match s.handler {
      case SessionHandler =>
        HandlersInPlace(s);
        var sub := data[1] % 0x80;
        SessionReplySid(cfg, sub);
        AnswersAnswer(0x10, Entered(c, cfg, sub), cfg);
        var replied := SendResponse(Entered(c, cfg, sub), cfg, SessionReply(cfg, sub));
        AnswerCons(0x10, SessionSet(c.session, sub), replied.obs);
      case ResetHandler => HandlersInPlace(s);
      case SecurityHandler =>
        HandlersInPlace(s);
        SecurityAnswers(c, cfg, data, env);
      case TesterHandler => HandlersInPlace(s);
      case Delegated =>
    }
  }

  lemma SessionReplySid(cfg: Config, sub: byte)
    ensures SessionReply(cfg, sub) != [] && SessionReply(cfg, sub)[0] == 0x50
  {
  }

  lemma SilentAnswers(sid: byte)
    ensures AllAnswer(sid, [Suppressed]) && AllAnswer(sid, [])
  {
  }

  lemma DispatchAnswers(c: Ctx, cfg: Config, data: seq<byte>, env: Env)
    requires ConfigOk(cfg) && data != [] && OwnAnswer(data[0], env)
    ensures AllAnswer(data[0], Dispatch(c, cfg, data, env).obs)
  {
    hide SendNrc, Execute, Find, SessionSupported, SubSupported, ConfigOk, AllAnswer, OwnAnswer;
    ServiceFound(cfg, data[0]);
    FoundWhere(cfg, data[0]);
    var found := FindService(cfg, data[0]);
    AnswersAnswer(data[0], c, cfg);
    if found.Some? {
      var c1 := if found.value.subMask.Some? && |data| >= 2 then c.(suppress := data[1] >= 0x80) else c;
      AnswersAnswer(data[0], c1, cfg);
      if found.value.handler != Delegated ==> |data| >= 2 {
        ExecuteAnswers(c1, cfg, found.value, data, env);
      }
    }
  }

  lemma FoundWhere(cfg: Config, sid: byte)
    requires ConfigOk(cfg)
    ensures var s := FindService(cfg, sid);
            s.Some? && s.value.handler != Delegated ==> s.value in CORE_SERVICES && s.value.sid == sid
  {
  }

  /** Whatever a stack sends while it takes in a request, busy refusals and 0x78 included, is a response
      to that request: byte 0 is its SID plus 0x40, or the bytes are 0x7F, its SID and the code. */
  lemma RequestAnswers(c: Ctx, cfg: Config, data: seq<byte>, env: Env)
    requires ConfigOk(cfg) && data != [] && OwnAnswer(data[0], env)
    ensures AllAnswer(data[0], Input(c, cfg, data, env).obs)
  {
    hide Dispatch, SendNrc, ConfigOk, AllAnswer, OwnAnswer, Matches;
    SilentAnswers(data[0]);
    var c1 := c.(lastMsg := env.now);
    var c2 := c1.(p2Start := env.now, pending := false, star := false, rcrrp := 0);
    AnswersAnswer(data[0], c1, cfg);
    DispatchAnswers(c2, cfg, data, env);
    AnswerCons(data[0], Asked(data[0]), SendNrc(c1, cfg, data[0], BUSY).obs);
    AnswerCons(data[0], Asked(data[0]), Dispatch(c2, cfg, data, env).obs);
    AnswerCons(data[0], ClientHeard(data), []);
    assert [ClientHeard(data)] + [] == [ClientHeard(data)];
  }

  /** While a request is pending, exactly an empty message and a suppressed tester present are passed over
      in silence. */
  lemma BusySilentIff(c: Ctx, cfg: Config, data: seq<byte>, env: Env)
    requires ConfigOk(cfg) && c.pending
    ensures Input(c, cfg, data, env).obs == [] <==>
            data == [] || (|data| >= 2 && data[0] == 0x3E && data[1] >= 0x80)
  {
    hide SendNrc, ConfigOk;
  }

  // ---------------------------------------------------------------------------------------------
  // Two stacks
  // ---------------------------------------------------------------------------------------------

  /** What a client that remembers a SID takes for the response: a message that opens with that SID,
      its bit 6 set, or with 0x7F and the SID itself; SID 0 stands for nothing remembered. */
  lemma MatchesMeans(sid: byte, data: seq<byte>)
    requires data != []
    ensures Matches(sid, data) <==>
            && sid > 0
            && (|| (data[0] / 0x80 == sid / 0x80 && data[0] / 0x40 % 2 == 1 && data[0] % 0x40 == sid % 0x40)
                || (|data| >= 2 && data[0] == 0x7F && data[1] == sid))
  {
    var r := ResponseSid(sid);
    assert r / 0x80 == sid / 0x80 && r / 0x40 % 2 == 1 && r % 0x40 == sid % 0x40;
  }

  /** What answers a request is taken for its response by a client that awaits it. */
  lemma AnswersMatch(sid: byte, w: seq<byte>)
    requires RequestSid(sid) && AnswersTo(sid, w)
    ensures Matches(sid, w)
  {
  }

  /** Two instances of the stack: the client sends a request, the server takes it in, in any state, and
      whatever it puts on the wire in doing so is heard by the callback of a client with nothing pending. */
  lemma HeardByClient(client: Ctx, server: Ctx, cfg: Config, cfg': Config, sid: byte, data: seq<byte>,
                      env: Env, env': Env, o: Obs, w: seq<byte>)
    requires ConfigOk(cfg) && ConfigOk(cfg') && RequestSid(sid) && |data| + 1 <= cfg.txSize && !client.pending
    requires OwnAnswer(sid, env') && o in Input(server, cfg', [sid] + data, env').obs && w in Wire(o)
    ensures var awaiting := ClientRequest(client, cfg, sid, data, true).ctx;
            w != [] && Input(awaiting, cfg, w, env).obs == [ClientHeard(w)]
  {
    hide Input, ConfigOk, OwnAnswer, Matches, RequestSid;
    RequestAnswers(server, cfg', [sid] + data, env');
    AnswersMatch(sid, w);
    MessageHeard(ClientRequest(client, cfg, sid, data, true).ctx, cfg, w, env);
  }

  /** A client that is told to wait takes that for the response: the callback gets the 0x78, and the real
      response, when it comes, is taken as a request. */
  lemma PendingAnswerConsumes(client: Ctx, cfg: Config, sid: byte, data: seq<byte>, final: seq<byte>,
                              env: Env, env': Env)
    requires ConfigOk(cfg) && RequestSid(sid) && |data| + 1 <= cfg.txSize && !client.pending && final != []
    ensures var awaiting := ClientRequest(client, cfg, sid, data, true).ctx;
            var told := Input(awaiting, cfg, [0x7F, sid, 0x78], env);
            && told.obs == [ClientHeard([0x7F, sid, 0x78])]
            && TakenAsRequest(Input(told.ctx, cfg, final, env').obs)
  {
    hide Input, ConfigOk, RequestSid;
    var awaiting := ClientRequest(client, cfg, sid, data, true).ctx;
    var w: seq<byte> := [0x7F, sid, 0x78];
    AnswersMatch(sid, w);
    MessageHeard(awaiting, cfg, w, env);
    StillIdle(awaiting, cfg, w, env);
    RequestTakenIff(Input(awaiting, cfg, w, env).ctx, cfg, final, env');
  }

  lemma StillIdle(c: Ctx, cfg: Config, data: seq<byte>, env: Env)
    requires ConfigOk(cfg) && data != [] && !c.pending && Matches(c.pendingSid, data)
    ensures !Input(c, cfg, data, env).ctx.pending && Input(c, cfg, data, env).ctx.pendingSid == 0
  {
    hide Dispatch, ConfigOk;
  }
}
