/** Session and security level across a restart, through the non-volatile memory. */
module Restart {
  import opened Bytes
  import opened Core

  /** A restart now would bring back session and level as they are. */
  ghost predicate InStep(c: Ctx) {
    if c.nvm.None? then c.session == DEFAULT_SESSION && c.level == 0 else c.nvm.value == (c.session, c.level)
  }

  /** The session timer has put the stack back to the default session, locked, and what is stored is
      from before. */
  ghost predicate Behind(c: Ctx) {
    c.session == DEFAULT_SESSION && c.level == 0 && c.nvm.Some? && c.nvm.value.0 != DEFAULT_SESSION
  }

  /** An event that saves: a session that is entered or a key that is accepted. */
  predicate Saves(e: Event, r: Step) {
    e.Request? && exists o :: o in r.obs && (o.SessionSet? || (o.KeyChecked? && o.ok))
  }

  /** An event by which the session times out. */
  predicate TimesOut(c: Ctx, e: Event) {
    e.Clock? && c.session != DEFAULT_SESSION && Elapsed(e.now, c.lastMsg) > S3_TIMEOUT
  }

  /** Nothing that is saved is touched, and the observations say so. */
  ghost predicate Untouched(c: Ctx, r: Step) {
    && r.ctx.session == c.session && r.ctx.level == c.level && r.ctx.nvm == c.nvm
    && forall o :: o in r.obs ==> !o.SessionSet? && !(o.KeyChecked? && o.ok)
  }

  /** Either nothing that is saved is touched, or it has just been saved. */
  ghost predicate Settled(c: Ctx, r: Step) {
    || Untouched(c, r)
    || (InStep(r.ctx) && exists o :: o in r.obs && (o.SessionSet? || (o.KeyChecked? && o.ok)))
  }

  lemma AnswersUntouched(c: Ctx, cfg: Config)
    ensures forall sid, nrc :: Untouched(c, SendNrc(c, cfg, sid, nrc))
    ensures forall sdu :: Untouched(c, SendResponse(c, cfg, sdu))
  {
  }

  lemma SavedSettled(c: Ctx, mid: Ctx, o: Obs, r: Step)
    requires InStep(mid) && Untouched(mid, r) && (o.SessionSet? || (o.KeyChecked? && o.ok))
    ensures Settled(c, Step(r.ctx, [o] + r.obs))
  {
    assert o in [o] + r.obs;
  }

  lemma UntouchedCons(c: Ctx, mid: Ctx, o: Obs, r: Step)
    requires Untouched(mid, r) && mid.session == c.session && mid.level == c.level && mid.nvm == c.nvm
    requires !o.SessionSet? && !(o.KeyChecked? && o.ok)
    ensures Untouched(c, Step(r.ctx, [o] + r.obs)) && Untouched(c, r)
  {
  }

  lemma SettledCons(c: Ctx, mid: Ctx, o: Obs, r: Step)
    requires Settled(mid, r) && mid.session == c.session && mid.level == c.level && mid.nvm == c.nvm
    requires !o.SessionSet? && !o.KeyChecked?
    ensures Settled(c, Step(r.ctx, [o] + r.obs)) && Settled(c, r)
  {
    if !Untouched(mid, r) {
      var p :| p in r.obs && (p.SessionSet? || (p.KeyChecked? && p.ok));
      assert p in [o] + r.obs;
    }
  }

  lemma KeySettled(c: Ctx, cfg: Config, data: seq<byte>, env: Env)
    requires |data| >= 2 && cfg.saves
    ensures Settled(c, HandleKey(c, cfg, data, env))
  {
    hide SendNrc, SendResponse, Settled, Untouched, MaxAttempts, Delay;
    var o := KeyChecked(env.now, data[1] % 0x80 / 2, env.keyRes == 0);
    if env.keyRes == 0 {
      var mid := Unlocked(c, cfg, data[1] % 0x80 / 2);
      AnswersUntouched(mid, cfg);
      SavedSettled(c, mid, o, SendResponse(mid, cfg, [SID_SECURITY + 0x40, data[1]]));
    } else {
      var c1 := c.(attempts := ToByte(c.attempts + 1));
      var c2 := c1.(delayEnd := (env.now + Delay(cfg)) % 0x1_0000_0000);
      AnswersUntouched(c1, cfg);
      AnswersUntouched(c2, cfg);
      UntouchedCons(c, c2, o, SendNrc(c2, cfg, SID_SECURITY, EXCEEDED));
      var nrc := if env.keyRes < 0 then ToByte(-env.keyRes) else INVALID_KEY;
      UntouchedCons(c, c1, o, SendNrc(c1, cfg, SID_SECURITY, nrc));
      UntouchedSettled(c, HandleKey(c, cfg, data, env));
    }
  }

  lemma UntouchedSettled(c: Ctx, r: Step)
    ensures Untouched(c, r) ==> Settled(c, r)
  {
  }

  lemma ExecuteSettled(c: Ctx, cfg: Config, s: Service, data: seq<byte>, env: Env)
    requires data != [] && (s.handler != Delegated ==> |data| >= 2) && cfg.saves
    ensures Settled(c, Execute(c, cfg, s, data, env))
  {
    hide SendNrc, SendResponse, HandleKey, Settled, SessionReply;
    var r, sub := Execute(c, cfg, s, data, env), if |data| >= 2 then data[1] % 0x80 else 0;
    AnswersUntouched(c, cfg);
    UntouchedSettled(c, r);
    if s.handler.SessionHandler? && 1 <= sub <= 3 {
      AnswersUntouched(Entered(c, cfg, sub), cfg);
      SavedSettled(c, Entered(c, cfg, sub), SessionSet(c.session, sub),
                   SendResponse(Entered(c, cfg, sub), cfg, SessionReply(cfg, sub)));
    } else if s.handler.SecurityHandler? {
      var c1 := c.(delayEnd := 0);
      AnswersUntouched(c1, cfg);
      KeySettled(c1, cfg, data, env);
      SettledCons(c, c1, Suppressed, HandleKey(c1, cfg, data, env));
    }
  }

  lemma DispatchSettled(c: Ctx, cfg: Config, data: seq<byte>, env: Env)
    requires ConfigOk(cfg) && data != [] && cfg.saves
    ensures Settled(c, Dispatch(c, cfg, data, env))
  {
    hide SendNrc, Execute, FindService, SessionSupported, SubSupported, ConfigOk, Settled, Untouched;
    ServiceFound(cfg, data[0]);
    var found := FindService(cfg, data[0]);
    AnswersUntouched(c, cfg);
    var r := Dispatch(c, cfg, data, env);
    UntouchedSettled(c, r);
    if found.Some? {
      var c1 := if found.value.subMask.Some? && |data| >= 2 then c.(suppress := data[1] >= 0x80) else c;
      AnswersUntouched(c1, cfg);
      UntouchedSettled(c1, r);
      if found.value.handler != Delegated ==> |data| >= 2 {
        ExecuteSettled(c1, cfg, found.value, data, env);
      }
      if Settled(c1, r) {
        SettledCons(c, c1, Suppressed, r);
      }
    }
  }

  lemma InputSettled(c: Ctx, cfg: Config, data: seq<byte>, env: Env)
    requires ConfigOk(cfg) && cfg.saves
    ensures Settled(c, Input(c, cfg, data, env))
  {
    hide SendNrc, Dispatch, ConfigOk, Matches;
    var c1 := c.(lastMsg := env.now);
    AnswersUntouched(c1, cfg);
    if data != [] && !c.pending && !AnswersClient(c, data) {
      var c2 := c1.(p2Start := env.now, pending := false, star := false, rcrrp := 0);
      DispatchSettled(c2, cfg, data, env);
      SettledCons(c, c2, Asked(data[0]), Dispatch(c2, cfg, data, env));
    }
  }

  /** One step of a stack that saves: what is stored stays in step except by a session timeout, which is
      not saved, and gets back in step by the next save and by nothing else. */
  lemma StepStores(c: Ctx, cfg: Config, e: Event)
    requires ConfigOk(cfg) && cfg.saves && (InStep(c) || Behind(c))
    ensures var r := Apply(c, cfg, e);
            && (InStep(r.ctx) <==> Saves(e, r) || (InStep(c) && !TimesOut(c, e)))
            && (InStep(r.ctx) || Behind(r.ctx))
  {
    hide Input, SendNrc, SendResponse, ConfigOk, Elapsed;
    AnswersUntouched(c, cfg);
    if e.Request? {
      InputSettled(c, cfg, e.data, e.env);
    } else if e.Clock? {
      AnswersUntouched(SessionTimer(c, e.now).ctx, cfg);
    }
  }

  /** Nothing has timed out since the last save. */
  predicate SavedSince(saved: bool, c: Ctx, cfg: Config, evs: seq<Event>)
    requires ConfigOk(cfg)
    decreases |evs|
  {
    if evs == [] then saved
    else
      var r := Apply(c, cfg, evs[0]);
      SavedSince(Saves(evs[0], r) || (saved && !TimesOut(c, evs[0])), r.ctx, cfg, evs[1..])
  }

  lemma {:induction false} StoredOverRun(c: Ctx, cfg: Config, evs: seq<Event>)
    requires ConfigOk(cfg) && cfg.saves && (InStep(c) || Behind(c))
    ensures InStep(Run(c, cfg, evs).ctx) <==> SavedSince(InStep(c), c, cfg, evs)
    ensures InStep(Run(c, cfg, evs).ctx) || Behind(Run(c, cfg, evs).ctx)
    decreases |evs|
  {
    hide Apply, InStep, Behind, ConfigOk, Saves, TimesOut;
    if evs != [] {
      StepStores(c, cfg, evs[0]);
      StoredOverRun(Apply(c, cfg, evs[0]).ctx, cfg, evs[1..]);
    }
  }

  /** A restart of a stack that saves brings back session and level of the moment if and only if no
      session timeout has happened since they were last saved; otherwise it brings back a session
      that had ended, with the level it had been unlocked to. */
  lemma RestartRestoresIff(cfg: Config, nvm: Option<(byte, byte)>, evs: seq<Event>)
    requires ConfigOk(cfg) && cfg.saves
    ensures var start := Init(cfg, nvm);
            var before := Run(start, cfg, evs).ctx;
            var after := Init(cfg, before.nvm);
            && (after.session == before.session && after.level == before.level <==> SavedSince(true, start, cfg, evs))
            && (after.session != before.session ==> before.session == DEFAULT_SESSION && before.level == 0)
  {
    hide Run, SavedSince, ConfigOk;
    StoredOverRun(Init(cfg, nvm), cfg, evs);
  }

  /** In particular a timeout that locks the stack is undone by a restart. */
  lemma TimeoutUndone(c: Ctx, cfg: Config, now: u32)
    requires InStep(c) && TimesOut(c, Clock(now))
    ensures var locked := Process(c, cfg, now).ctx;
            && locked.session == DEFAULT_SESSION && locked.level == 0
            && Init(cfg, locked.nvm).session == c.session && Init(cfg, locked.nvm).level == c.level
  {
  }
}
