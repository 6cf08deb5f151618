/** When a positive response is withheld, and whose request asked for it. */
module Suppression {
  import opened Bytes
  import opened Core

  /** The request itself asks for no positive response. */
  predicate AsksSuppression(s: Service, data: seq<byte>) { s.subMask.Some? && |data| >= 2 && data[1] >= 0x80 }

  /** A positive response is withheld when the request asks for it, and for a service without
      sub-function also when the flag is left over from an earlier request. */
  lemma WithheldExactly(c: Ctx, cfg: Config, s: Service, data: seq<byte>, env: Env)
    requires ConfigOk(cfg) && Reaches(c, cfg, s, data, env)
    requires s.handler.Delegated? && env.outcome.Positive? && |env.outcome.sdu| <= cfg.txSize
    ensures var r := Dispatch(c, cfg, data, env);
            && r.obs == (if AsksSuppression(s, data) || (s.subMask.None? && c.suppress) then [Suppressed]
                         else [Replied(env.outcome.sdu)])
            && !r.ctx.suppress
  {
    hide FindService, SessionSupported, SubSupported, ConfigOk;
    ServiceFound(cfg, data[0]);
  }

  // ---------------------------------------------------------------------------------------------
  // Every handler, every run
  // ---------------------------------------------------------------------------------------------

  /** A positive response was sent or withheld. */
  predicate Positive(obs: seq<Obs>) { exists o :: o in obs && (o.Replied? || o.Suppressed?) }

  /** The handler of the request drops its response by itself, leaving the flag set. */
  predicate Silences(s: Service, data: seq<byte>, env: Env) {
    || (s.handler.ResetHandler? && |data| >= 2 && 1 <= data[1] % 0x80 <= 5 && data[1] >= 0x80)
    || (s.handler.Delegated? && env.outcome.Silent?)
  }

  /** What a handler that finds the flag set or not does with it, and with its response. */
  ghost predicate Honours(flag: bool, silences: bool, r: Step) {
    && r.ctx.suppress == (silences || (flag && !Positive(r.obs)))
    && (forall o :: o in r.obs ==> (o.Replied? ==> !flag && !silences) && (o.Suppressed? ==> flag || silences))
  }

  lemma AnswersHonour(c: Ctx, cfg: Config)
    ensures forall sid, nrc :: Honours(c.suppress, false, SendNrc(c, cfg, sid, nrc))
    ensures forall sdu :: Honours(c.suppress, false, SendResponse(c, cfg, sdu))
  {
    forall sdu ensures Honours(c.suppress, false, SendResponse(c, cfg, sdu)) {
      var r := SendResponse(c, cfg, sdu);
      if r.obs != [] {
        assert r.obs[0] in r.obs;
      }
    }
  }

  /** Observations of another kind in front change nothing. */
  lemma HonoursCons(flag: bool, silences: bool, o: Obs, r: Step)
    requires Honours(flag, silences, r) && !o.Replied? && !o.Suppressed?
    ensures Honours(flag, silences, Step(r.ctx, [o] + r.obs))
  {
    if Positive(r.obs) {
      var p :| p in r.obs && (p.Replied? || p.Suppressed?);
      assert p in [o] + r.obs;
    }
  }

  lemma SilentHonours(flag: bool, c: Ctx)
    ensures Honours(flag, true, Step(c.(suppress := true), [Suppressed]))
  {
  }

  lemma SecurityHonours(c: Ctx, cfg: Config, data: seq<byte>, env: Env)
    requires |data| >= 2
    ensures Honours(c.suppress, false, HandleSecurity(c, cfg, data, env))
  {
    hide Honours, SendNrc, SendResponse;
    var c1 := c.(delayEnd := 0);
    AnswersHonour(c, cfg);
    AnswersHonour(c1, cfg);
    var c2 := c1.(attempts := ToByte(c1.attempts + 1));
    var c3 := c2.(delayEnd := (env.now + Delay(cfg)) % 0x1_0000_0000);
    var level := data[1] % 0x80 / 2;
    AnswersHonour(c2, cfg);
    AnswersHonour(c3, cfg);
    AnswersHonour(Core.Unlocked(c1, cfg, level), cfg);
    var o := KeyChecked(env.now, level, env.keyRes == 0);
    HonoursCons(c.suppress, false, o, SendResponse(Core.Unlocked(c1, cfg, level), cfg, [SID_SECURITY + 0x40, data[1]]));
    HonoursCons(c.suppress, false, o, SendNrc(c3, cfg, SID_SECURITY, EXCEEDED));
    HonoursCons(c.suppress, false, o,
                SendNrc(c2, cfg, SID_SECURITY, if env.keyRes < 0 then ToByte(-env.keyRes) else INVALID_KEY));
  }

  lemma ExecuteHonours(c: Ctx, cfg: Config, s: Service, data: seq<byte>, env: Env)
    requires data != [] && (s.handler != Delegated ==> |data| >= 2)
    ensures Honours(c.suppress, Silences(s, data, env), Execute(c, cfg, s, data, env))
  {
    hide Honours, SendNrc, SendResponse, HandleSecurity, SessionReply;
    AnswersHonour(c, cfg);
    match s.handler {
      case SessionHandler =>
        var sub := data[1] % 0x80;
        AnswersHonour(Entered(c, cfg, sub), cfg);
        HonoursCons(c.suppress, false, SessionSet(c.session, sub),
                    SendResponse(Entered(c, cfg, sub), cfg, SessionReply(cfg, sub)));
      case SecurityHandler => SecurityHonours(c, cfg, data, env);
      case ResetHandler => SilentHonours(c.suppress, c);
      case TesterHandler =>
      case Delegated =>
        SilentHonours(c.suppress, c);
        if env.outcome.Pends? {
          PendsHonours(c, cfg, data[0], env);
        }
    }
  }

  lemma PendsHonours(c: Ctx, cfg: Config, sid: byte, env: Env)
    requires env.outcome.Pends?
    ensures Honours(c.suppress, false, HandleDelegated(c, cfg, sid, env))
  {
  }

  /** The request gets as far as its sub-function being accepted. */
  predicate Marks(c: Ctx, cfg: Config, data: seq<byte>) {
    && data != []
    && var found := FindService(cfg, data[0]);
    && found.Some? && SessionSupported(found.value, c.session)
    && found.value.subMask.Some? && |found.value.subMask.value| == 16
    && |data| >= 2 && SubSupported(found.value, data[1] % 0x80)
  }

  /** The flag a request leaves its handler, or would leave it. */
  predicate FlagFor(c: Ctx, cfg: Config, data: seq<byte>) {
    if Marks(c, cfg, data) then data[1] >= 0x80 else c.suppress
  }

  /** The request reaches a handler that drops its response by itself. */
  predicate Dropped(c: Ctx, cfg: Config, data: seq<byte>, env: Env) {
    && data != [] && FindService(cfg, data[0]).Some?
    && Reaches(c, cfg, FindService(cfg, data[0]).value, data, env)
    && Silences(FindService(cfg, data[0]).value, data, env)
  }

  /** A dispatched request, whatever becomes of it: a positive response is withheld exactly when the
      flag is set for it, and the flag survives every other end. */
  lemma DispatchHonours(c: Ctx, cfg: Config, data: seq<byte>, env: Env)
    requires ConfigOk(cfg) && data != []
    ensures Honours(FlagFor(c, cfg, data), Dropped(c, cfg, data, env), Dispatch(c, cfg, data, env))
  {
    hide Honours, SendNrc, Execute, FindService, SessionSupported, SubSupported, ConfigOk, Silences;
    ServiceFound(cfg, data[0]);
    AnswersHonour(c, cfg);
    var found := FindService(cfg, data[0]);
    if found.Some? {
      var c1 := if Marks(c, cfg, data) then c.(suppress := data[1] >= 0x80) else c;
      AnswersHonour(c1, cfg);
      if Reaches(c, cfg, found.value, data, env) {
        ExecuteHonours(c1, cfg, found.value, data, env);
      }
    }
  }

  /** What one event does to the flag. */
  predicate FlagAfter(flag: bool, c: Ctx, cfg: Config, e: Event)
    requires ConfigOk(cfg)
  {
    match e
    case Request(data, env) =>
      if data == [] || c.pending || AnswersClient(c, data) then flag
      else Dropped(c, cfg, data, env)
           || ((if Marks(c, cfg, data) then data[1] >= 0x80 else flag) && !Positive(Input(c, cfg, data, env).obs))
    case Completed(sdu) => flag && |sdu| > cfg.txSize
    case _ => flag
  }

  lemma InputFlag(c: Ctx, cfg: Config, data: seq<byte>, env: Env)
    requires ConfigOk(cfg)
    ensures Input(c, cfg, data, env).ctx.suppress == FlagAfter(c.suppress, c, cfg, Request(data, env))
  {
    hide Dispatch, ConfigOk, FindService, SessionSupported, SubSupported, Positive, Silences;
    if data != [] && !c.pending && !AnswersClient(c, data) {
      var c1 := c.(lastMsg := env.now, p2Start := env.now, pending := false, star := false, rcrrp := 0);
      DispatchHonours(c1, cfg, data, env);
      HonoursCons(FlagFor(c1, cfg, data), Dropped(c1, cfg, data, env), Asked(data[0]), Dispatch(c1, cfg, data, env));
    }
  }

  lemma StepFlag(c: Ctx, cfg: Config, e: Event)
    requires ConfigOk(cfg)
    ensures Apply(c, cfg, e).ctx.suppress == FlagAfter(c.suppress, c, cfg, e)
  {
    hide Input, Dropped, Marks, Positive, ConfigOk;
    if e.Request? {
      InputFlag(c, cfg, e.data, e.env);
    }
  }

  /** The flag after a run: set by the last request that asked for silence and got no positive response
      (refused after its sub-function was accepted, or pending), or whose handler dropped the response. */
  predicate FlagOver(flag: bool, c: Ctx, cfg: Config, evs: seq<Event>)
    requires ConfigOk(cfg)
    decreases |evs|
  {
    if evs == [] then flag else FlagOver(FlagAfter(flag, c, cfg, evs[0]), Apply(c, cfg, evs[0]).ctx, cfg, evs[1..])
  }

  lemma {:induction false} FlagOverRun(c: Ctx, cfg: Config, evs: seq<Event>)
    requires ConfigOk(cfg)
    ensures Run(c, cfg, evs).ctx.suppress == FlagOver(c.suppress, c, cfg, evs)
    decreases |evs|
  {
    hide Apply, FlagAfter, ConfigOk;
    if evs != [] {
      StepFlag(c, cfg, evs[0]);
      FlagOverRun(Apply(c, cfg, evs[0]).ctx, cfg, evs[1..]);
    }
  }

  /** So after any run the positive response of a service without sub-function, which cannot ask for
      silence, is withheld if and only if the run has left the flag. */
  lemma LeftOverSilences(c: Ctx, cfg: Config, evs: seq<Event>, s: Service, data: seq<byte>, env: Env)
    requires ConfigOk(cfg)
    requires var here := Run(c, cfg, evs).ctx;
             && !here.pending && Reaches(here, cfg, s, data, env) && !AnswersClient(here, data)
    requires s.subMask.None? && s.handler.Delegated? && env.outcome.Positive? && |env.outcome.sdu| <= cfg.txSize
    ensures Input(Run(c, cfg, evs).ctx, cfg, data, env).obs ==
            [Asked(data[0]), if FlagOver(c.suppress, c, cfg, evs) then Suppressed else Replied(env.outcome.sdu)]
  {
    hide Run, FlagOver, Dispatch, Reaches, ConfigOk;
    FlagOverRun(c, cfg, evs);
    var here := Run(c, cfg, evs).ctx;
    var c1 := here.(lastMsg := env.now, p2Start := env.now, pending := false, star := false, rcrrp := 0);
    ReachedData(here, cfg, s, data, env);
    SameReach(here, c1, cfg, s, data, env);
    WithheldExactly(c1, cfg, s, data, env);
    var r := Dispatch(c1, cfg, data, env);
    assert [Asked(data[0])] + [r.obs[0]] == [Asked(data[0]), r.obs[0]];
  }

  lemma ReachedData(c: Ctx, cfg: Config, s: Service, data: seq<byte>, env: Env)
    requires Reaches(c, cfg, s, data, env)
    ensures data != []
  {
  }

  /** A suppressed ECU reset is one way to leave the flag behind: the next request for a service
      without sub-function, such as reading data, then gets no response at all. */
  lemma ResetLeavesFlag(c: Ctx, cfg: Config, sub: byte, env: Env, s: Service, data: seq<byte>, env': Env)
    requires ConfigOk(cfg) && !c.pending && c.pendingSid == 0 && 1 <= c.session <= 3
    requires Find(cfg.user, SID_RESET).None? && env.safe && 1 <= sub <= 3
    requires Reaches(c, cfg, s, data, env') && s.subMask.None? && s.handler.Delegated?
    requires env'.outcome.Positive? && |env'.outcome.sdu| <= cfg.txSize
    ensures var first := Input(c, cfg, [SID_RESET, 0x80 + sub], env);
            && first.ctx.suppress
            && Input(first.ctx, cfg, data, env').obs == [Asked(data[0]), Suppressed]
  {
    hide Input, Reaches, FindService, Find, ConfigOk, SessionSupported, SubSupported;
    ResetSuppressed(c, cfg, sub, env);
    var c1 := Input(c, cfg, [SID_RESET, 0x80 + sub], env).ctx;
    SameReach(c, c1, cfg, s, data, env');
    InputWithheld(c1, cfg, s, data, env');
  }

  lemma SameReach(c: Ctx, c1: Ctx, cfg: Config, s: Service, data: seq<byte>, env: Env)
    requires Reaches(c, cfg, s, data, env) && c1.session == c.session && c1.level == c.level
    ensures Reaches(c1, cfg, s, data, env)
  {
  }

  lemma ResetSuppressed(c: Ctx, cfg: Config, sub: byte, env: Env)
    requires ConfigOk(cfg) && !c.pending && c.pendingSid == 0 && 1 <= c.session <= 3
    requires Find(cfg.user, SID_RESET).None? && env.safe && 1 <= sub <= 3
    ensures Input(c, cfg, [SID_RESET, 0x80 + sub], env) ==
            Step(c.(lastMsg := env.now, p2Start := env.now, star := false, rcrrp := 0, suppress := true),
                 [Asked(SID_RESET), Suppressed])
  {
    hide SubSupported, SessionSupported, FindService, ConfigOk, Find;
    var data := [SID_RESET, 0x80 + sub];
    var e := ResetServed(cfg, c.session, sub);
    var c1 := c.(lastMsg := env.now, p2Start := env.now, pending := false, star := false, rcrrp := 0);
    assert data[1] % 0x80 == sub;
    assert Dispatch(c1, cfg, data, env) == Step(c1.(suppress := true), [Suppressed]);
    hide Dispatch;
    assert [Asked(SID_RESET)] + [Suppressed] == [Asked(SID_RESET), Suppressed];
  }

  lemma ResetServed(cfg: Config, session: byte, sub: byte) returns (e: Service)
    requires Find(cfg.user, SID_RESET).None? && 1 <= session <= 3 && 1 <= sub <= 3
    ensures FindService(cfg, SID_RESET) == Some(e) && e.handler.ResetHandler? && e.minLen == 2 && e.securityMask == 0
    ensures e.subMask.Some? && |e.subMask.value| == 16 && SubSupported(e, sub) && SessionSupported(e, session)
  {
    hide SubSupported, SessionSupported;
    e := Service(0x11, 2, 0xFF, 0, Mask(0x0E), ResetHandler);
    ResetEntry();
    AllSessions(e, session);
    ResetSubs(sub);
  }

  lemma InputWithheld(c: Ctx, cfg: Config, s: Service, data: seq<byte>, env: Env)
    requires ConfigOk(cfg) && !c.pending && c.pendingSid == 0 && c.suppress
    requires Reaches(c, cfg, s, data, env) && s.subMask.None? && s.handler.Delegated?
    requires env.outcome.Positive? && |env.outcome.sdu| <= cfg.txSize
    ensures data != [] && Input(c, cfg, data, env).obs == [Asked(data[0]), Suppressed]
  {
    hide FindService, ConfigOk, SessionSupported, SubSupported;
    var c1 := c.(lastMsg := env.now, p2Start := env.now, pending := false, star := false, rcrrp := 0);
    SameReach(c, c1, cfg, s, data, env);
    WithheldExactly(c1, cfg, s, data, env);
    hide Dispatch;
    assert [Asked(data[0])] + [Suppressed] == [Asked(data[0]), Suppressed];
  }

  lemma ResetEntry()
    ensures Find(CORE_SERVICES, SID_RESET) == Some(Service(0x11, 2, 0xFF, 0, Mask(0x0E), ResetHandler))
  {
    assert CORE_SERVICES[1..][0].sid == SID_RESET;
  }

  lemma AllSessions(s: Service, session: byte)
    requires s.sessionMask == 0xFF && 1 <= session <= 3
    ensures SessionSupported(s, session)
  {
    assert Pow2(1) == 2 && Pow2(2) == 4;
  }

  lemma ResetSubs(sub: byte)
    requires 1 <= sub <= 3
    ensures SubSupported(Service(0x11, 2, 0xFF, 0, Mask(0x0E), ResetHandler), sub)
  {
    assert Mask(0x0E).value[0] == 0x0E;
    assert Pow2(1) == 2 && Pow2(2) == 4 && Pow2(3) == 8;
  }
}
