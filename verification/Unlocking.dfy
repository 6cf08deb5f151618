/** Security level and session over whole runs, read off the observations alone. */
module Unlocking {
  import opened Bytes
  import opened Core

  /** A session epoch ends with every session change and every request for the default session. */
  predicate EndsEpoch(o: Obs) { o.SessionSet? && (o.from != o.to || o.to == DEFAULT_SESSION) }

  /** The level the observations justify, starting from level. */
  function Justified(level: byte, obs: seq<Obs>): byte
    decreases |obs|
  {
    if obs == [] then level
    else
      var o := obs[0];
      Justified(if o.KeyChecked? && o.ok then o.level else if EndsEpoch(o) then 0 else level, obs[1..])
  }

  function SessionAfter(session: byte, obs: seq<Obs>): byte
    decreases |obs|
  {
    if obs == [] then session else SessionAfter(if obs[0].SessionSet? then obs[0].to else session, obs[1..])
  }

  lemma {:induction false} JustifiedAppend(l: byte, s: byte, a: seq<Obs>, b: seq<Obs>)
    ensures Justified(l, a + b) == Justified(Justified(l, a), b)
    ensures SessionAfter(s, a + b) == SessionAfter(SessionAfter(s, a), b)
    decreases |a|
  {
    if a == [] {
      assert a + b == b;
    } else {
      assert (a + b)[1..] == a[1..] + b;
      JustifiedAppend(
        if a[0].KeyChecked? && a[0].ok then a[0].level else if EndsEpoch(a[0]) then 0 else l,
        if a[0].SessionSet? then a[0].to else s, a[1..], b);
    }
  }

  /** Observations that say nothing about session or level. */
  predicate Neutral(obs: seq<Obs>) { forall o :: o in obs ==> !o.KeyChecked? && !o.SessionSet? }

  lemma {:induction false} NeutralKeeps(l: byte, s: byte, obs: seq<Obs>)
    requires Neutral(obs)
    ensures Justified(l, obs) == l && SessionAfter(s, obs) == s
    decreases |obs|
  {
    if obs != [] {
      assert obs[0] in obs;
      NeutralKeeps(l, s, obs[1..]);
    }
  }

  /** The step of c shows exactly how session and level change. */
  ghost predicate Tells(c: Ctx, r: Step) {
    r.ctx.level == Justified(c.level, r.obs) && r.ctx.session == SessionAfter(c.session, r.obs)
  }

  lemma NeutralTells(c: Ctx, r: Step)
    requires Neutral(r.obs) && r.ctx.level == c.level && r.ctx.session == c.session
    ensures Tells(c, r)
  {
    NeutralKeeps(c.level, c.session, r.obs);
  }

  lemma AnswersNeutral(c: Ctx, cfg: Config)
    ensures forall sid, nrc :: var r := SendNrc(c, cfg, sid, nrc);
              Neutral(r.obs) && r.ctx.level == c.level && r.ctx.session == c.session
    ensures forall sdu :: var r := SendResponse(c, cfg, sdu);
              Neutral(r.obs) && r.ctx.level == c.level && r.ctx.session == c.session
  {
  }

  lemma ConsTells(c: Ctx, o: Obs, mid: Ctx, r: Step)
    requires Neutral(r.obs) && r.ctx.level == mid.level && r.ctx.session == mid.session
    requires mid.level == Justified(c.level, [o]) && mid.session == SessionAfter(c.session, [o])
    ensures Tells(c, Step(r.ctx, [o] + r.obs))
  {
    JustifiedAppend(c.level, c.session, [o], r.obs);
    NeutralKeeps(mid.level, mid.session, r.obs);
  }

  lemma One(l: byte, s: byte, o: Obs)
    ensures Justified(l, [o]) == if o.KeyChecked? && o.ok then o.level else if EndsEpoch(o) then 0 else l
    ensures SessionAfter(s, [o]) == if o.SessionSet? then o.to else s
  {
    assert [o][1..] == [];
  }

  lemma SessionTells(c: Ctx, cfg: Config, data: seq<byte>)
    requires |data| >= 2
    ensures Tells(c, HandleSession(c, cfg, data))
  {
    hide SendNrc, SendResponse, Justified, SessionAfter, Neutral, Tells, SessionReply;
    var sub := data[1] % 0x80;
    AnswersNeutral(c, cfg);
    if sub != 1 && sub != 2 && sub != 3 {
      NeutralTells(c, HandleSession(c, cfg, data));
    } else {
      var mid := Entered(c, cfg, sub);
      AnswersNeutral(mid, cfg);
      One(c.level, c.session, SessionSet(c.session, sub));
      ConsTells(c, SessionSet(c.session, sub), mid, SendResponse(mid, cfg, SessionReply(cfg, sub)));
    }
  }

  lemma KeyTells(c: Ctx, cfg: Config, data: seq<byte>, env: Env)
    requires |data| >= 2
    ensures Tells(c, HandleKey(c, cfg, data, env))
  {
    hide SendNrc, SendResponse, Justified, SessionAfter, Neutral, Tells;
    var level := data[1] % 0x80 / 2;
    var o := KeyChecked(env.now, level, env.keyRes == 0);
    One(c.level, c.session, o);
    if env.keyRes == 0 {
      var mid := Unlocked(c, cfg, level);
      AnswersNeutral(mid, cfg);
      ConsTells(c, o, mid, SendResponse(mid, cfg, [SID_SECURITY + 0x40, data[1]]));
    } else {
      var attempts := ToByte(c.attempts + 1);
      var late := c.(attempts := attempts, delayEnd := (env.now + Delay(cfg)) % 0x1_0000_0000);
      var early := c.(attempts := attempts);
      AnswersNeutral(late, cfg);
      AnswersNeutral(early, cfg);
      if attempts >= MaxAttempts(cfg) {
        ConsTells(c, o, late, SendNrc(late, cfg, SID_SECURITY, EXCEEDED));
      } else {
        var nrc := if env.keyRes < 0 then ToByte(-env.keyRes) else INVALID_KEY;
        ConsTells(c, o, early, SendNrc(early, cfg, SID_SECURITY, nrc));
      }
    }
  }

  lemma ExecuteTells(c: Ctx, cfg: Config, s: Service, data: seq<byte>, env: Env)
    requires data != [] && (s.handler != Delegated ==> |data| >= 2)
    ensures Tells(c, Execute(c, cfg, s, data, env))
  {
    hide SendNrc, SendResponse, Justified, SessionAfter, Tells, HandleSession, HandleKey;
    AnswersNeutral(c, cfg);
    var r := Execute(c, cfg, s, data, env);
    if s.handler.SessionHandler? {
      SessionTells(c, cfg, data);
    } else if s.handler.SecurityHandler? {
      var c1 := c.(delayEnd := 0);
      AnswersNeutral(c1, cfg);
      if data[1] % 2 == 0 && cfg.hasKey && !(c.delayEnd != 0 && env.now < c.delayEnd) {
        KeyTells(c1, cfg, data, env);
        SameLevel(c, c1, r);
      } else {
        NeutralTells(c, r);
      }
    } else {
      NeutralTells(c, r);
    }
  }

  lemma SameLevel(c: Ctx, c1: Ctx, r: Step)
    requires Tells(c1, r) && c1.level == c.level && c1.session == c.session
    ensures Tells(c, r)
  {
  }

  lemma DispatchTells(c: Ctx, cfg: Config, data: seq<byte>, env: Env)
    requires ConfigOk(cfg) && data != []
    ensures Tells(c, Dispatch(c, cfg, data, env))
  {
    hide SendNrc, Tells, Execute, FindService, ConfigOk, SessionSupported, SubSupported, Neutral;
    ServiceFound(cfg, data[0]);
    var s := FindService(cfg, data[0]);
    var c1 := if s.Some? && s.value.subMask.Some? && |data| >= 2 then c.(suppress := data[1] >= 0x80) else c;
    AnswersNeutral(c, cfg);
    AnswersNeutral(c1, cfg);
    var r := Dispatch(c, cfg, data, env);
    if s.Some? && (s.value.handler != Delegated ==> |data| >= 2) && r == Execute(c1, cfg, s.value, data, env) {
      ExecuteTells(c1, cfg, s.value, data, env);
      SameLevel(c, c1, r);
    } else {
      NeutralTells(c, r);
    }
  }

  lemma InputTells(c: Ctx, cfg: Config, data: seq<byte>, env: Env)
    requires ConfigOk(cfg)
    ensures Tells(c, Input(c, cfg, data, env))
  {
    hide SendNrc, Tells, Dispatch, ConfigOk;
    var r := Input(c, cfg, data, env);
    var c1 := c.(lastMsg := env.now);
    AnswersNeutral(c1, cfg);
    if data != [] && !c.pending && !AnswersClient(c, data) {
      var c2 := c1.(p2Start := env.now, pending := false, star := false, rcrrp := 0);
      DispatchTells(c2, cfg, data, env);
      AskedTells(c, c2, data[0], Dispatch(c2, cfg, data, env));
    } else {
      NeutralTells(c, r);
    }
  }

  lemma AskedTells(c: Ctx, c2: Ctx, sid: byte, r: Step)
    requires Tells(c2, r) && c2.level == c.level && c2.session == c.session
    ensures Tells(c, Step(r.ctx, [Asked(sid)] + r.obs))
  {
    One(c.level, c.session, Asked(sid));
    JustifiedAppend(c.level, c.session, [Asked(sid)], r.obs);
  }

  lemma ProcessTells(c: Ctx, cfg: Config, now: u32)
    ensures Tells(c, Process(c, cfg, now))
  {
    hide SendNrc, Neutral, Justified, SessionAfter;
    var s := SessionTimer(c, now);
    var t := ResponseTimer(s.ctx, cfg, now);
    AnswersNeutral(s.ctx, cfg);
    assert Neutral(t.obs) by { NeutralNone(); }
    NeutralKeeps(s.ctx.level, s.ctx.session, t.obs);
    One(c.level, c.session, SessionSet(c.session, DEFAULT_SESSION));
    NeutralKeeps(c.level, c.session, []) by { NeutralNone(); }
    JustifiedAppend(c.level, c.session, s.obs, t.obs);
  }

  lemma NeutralNone()
    ensures Neutral([])
  {
  }

  lemma StepTells(c: Ctx, cfg: Config, e: Event)
    requires ConfigOk(cfg)
    ensures Tells(c, Apply(c, cfg, e))
  {
    hide Input, Process, SendNrc, SendResponse, Tells, ConfigOk;
    AnswersNeutral(c, cfg);
    match e {
      case Request(data, env) => InputTells(c, cfg, data, env);
      case Clock(now) => ProcessTells(c, cfg, now);
      case _ => NeutralTells(c, Apply(c, cfg, e));
    }
  }

  /** Over every run, of any requests, ticks and completions, session and level are exactly what the
      key checks and session changes say. */
  lemma {:induction false} LevelIsJustified(c: Ctx, cfg: Config, evs: seq<Event>)
    requires ConfigOk(cfg)
    ensures var r := Run(c, cfg, evs);
            r.ctx.level == Justified(c.level, r.obs) && r.ctx.session == SessionAfter(c.session, r.obs)
    decreases |evs|
  {
    hide Apply, ConfigOk;
    if evs != [] {
      var one := Apply(c, cfg, evs[0]);
      StepTells(c, cfg, evs[0]);
      LevelIsJustified(one.ctx, cfg, evs[1..]);
      JustifiedAppend(c.level, c.session, one.obs, Run(one.ctx, cfg, evs[1..]).obs);
    } else {
      NeutralKeeps(c.level, c.session, []);
    }
  }

  predicate NoEpochEnd(obs: seq<Obs>) { forall o :: o in obs ==> !EndsEpoch(o) }

  lemma {:induction false} JustifiedSince(level: byte, obs: seq<Obs>)
    requires Justified(level, obs) != 0
    ensures
      || (NoEpochEnd(obs) && Justified(level, obs) == level)
      || (exists i: nat :: i < |obs| && obs[i].KeyChecked? && obs[i].ok && obs[i].level == Justified(level, obs)
                           && NoEpochEnd(obs[i + 1..]))
    decreases |obs|
  {
    if obs != [] {
      var o := obs[0];
      var level' := if o.KeyChecked? && o.ok then o.level else if EndsEpoch(o) then 0 else level;
      JustifiedSince(level', obs[1..]);
      if NoEpochEnd(obs[1..]) && Justified(level, obs) == level' {
        if o.KeyChecked? && o.ok {
          assert obs[0 + 1..] == obs[1..];
        } else {
          assert NoEpochEnd(obs) by {
            assert obs == [o] + obs[1..];
          }
        }
      } else {
        var i: nat :| i < |obs[1..]| && obs[1..][i].KeyChecked? && obs[1..][i].ok
          && obs[1..][i].level == Justified(level, obs) && NoEpochEnd(obs[1..][i + 1..]);
        assert obs[1..][i + 1..] == obs[i + 2..];
        assert obs[i + 1] == obs[1..][i];
      }
    }
  }

  /** An unlock never outlives its session: whenever the level is not 0, a successful key check for
      exactly that level has happened since the last end of a session epoch, or no epoch has ended
      and the level is the one loaded at initialisation. */
  lemma UnlockedWithinEpoch(cfg: Config, nvm: Option<(byte, byte)>, evs: seq<Event>)
    requires ConfigOk(cfg)
    ensures var r := Run(Init(cfg, nvm), cfg, evs);
            r.ctx.level != 0 ==>
              || (nvm.Some? && NoEpochEnd(r.obs) && r.ctx.level == nvm.value.1)
              || (exists i: nat :: i < |r.obs| && r.obs[i].KeyChecked? && r.obs[i].ok && r.obs[i].level == r.ctx.level
                                   && NoEpochEnd(r.obs[i + 1..]))
  {
    var c := Init(cfg, nvm);
    LevelIsJustified(c, cfg, evs);
    if Run(c, cfg, evs).ctx.level != 0 {
      JustifiedSince(c.level, Run(c, cfg, evs).obs);
    }
  }

  // --- the age of a session --------------------------------------------------------------------------

  lemma AnswersStamp(c: Ctx, cfg: Config)
    ensures forall sid, nrc :: SendNrc(c, cfg, sid, nrc).ctx.lastMsg == c.lastMsg
    ensures forall sdu :: SendResponse(c, cfg, sdu).ctx.lastMsg == c.lastMsg
  {
  }

  lemma ExecuteStamp(c: Ctx, cfg: Config, s: Service, data: seq<byte>, env: Env)
    requires data != [] && (s.handler != Delegated ==> |data| >= 2)
    ensures Execute(c, cfg, s, data, env).ctx.lastMsg == c.lastMsg
  {
    hide SendNrc, SendResponse, SessionReply, MaxAttempts, Delay;
    AnswersStamp(c, cfg);
    if s.handler.SessionHandler? {
      AnswersStamp(Entered(c, cfg, data[1] % 0x80), cfg);
    } else if s.handler.SecurityHandler? {
      var c1 := c.(delayEnd := 0);
      var c2 := c1.(attempts := ToByte(c1.attempts + 1));
      AnswersStamp(c1, cfg);
      AnswersStamp(c2, cfg);
      AnswersStamp(c2.(delayEnd := (env.now + Delay(cfg)) % 0x1_0000_0000), cfg);
      AnswersStamp(Unlocked(c1, cfg, data[1] % 0x80 / 2), cfg);
    }
  }

  lemma DispatchStamp(c: Ctx, cfg: Config, data: seq<byte>, env: Env)
    requires ConfigOk(cfg) && data != []
    ensures Dispatch(c, cfg, data, env).ctx.lastMsg == c.lastMsg
  {
    hide SendNrc, Execute, FindService, SessionSupported, SubSupported, ConfigOk;
    ServiceFound(cfg, data[0]);
    var found := FindService(cfg, data[0]);
    AnswersStamp(c, cfg);
    if found.Some? {
      var c1 := if found.value.subMask.Some? && |data| >= 2 then c.(suppress := data[1] >= 0x80) else c;
      AnswersStamp(c1, cfg);
      if found.value.handler != Delegated ==> |data| >= 2 {
        ExecuteStamp(c1, cfg, found.value, data, env);
      }
    }
  }

  /** The time of the last message that arrives in the run, however it is taken; last if none does. */
  function LastMessage(last: u32, evs: seq<Event>): u32
    decreases |evs|
  {
    if evs == [] then last
    else LastMessage(if evs[0].Request? && evs[0].data != [] then evs[0].env.now else last, evs[1..])
  }

  lemma StepStamp(c: Ctx, cfg: Config, e: Event)
    requires ConfigOk(cfg)
    ensures Apply(c, cfg, e).ctx.lastMsg == if e.Request? && e.data != [] then e.env.now else c.lastMsg
  {
    hide Dispatch, SendNrc, SendResponse, ConfigOk, Matches;
    AnswersStamp(c, cfg);
    if e.Request? && e.data != [] {
      var c1 := c.(lastMsg := e.env.now);
      AnswersStamp(c1, cfg);
      DispatchStamp(c1.(p2Start := e.env.now, pending := false, star := false, rcrrp := 0), cfg, e.data, e.env);
    } else if e.Clock? {
      AnswersStamp(SessionTimer(c, e.now).ctx, cfg);
    }
  }

  lemma {:induction false} MessageOverRun(c: Ctx, cfg: Config, evs: seq<Event>)
    requires ConfigOk(cfg)
    ensures Run(c, cfg, evs).ctx.lastMsg == LastMessage(c.lastMsg, evs)
    decreases |evs|
  {
    hide Apply, ConfigOk;
    if evs != [] {
      StepStamp(c, cfg, evs[0]);
      MessageOverRun(Apply(c, cfg, evs[0]).ctx, cfg, evs[1..]);
    }
  }

  /** After any run, a tick leaves a session other than the default one exactly when it was entered and
      the last message of the run is at most the S3 time ago; otherwise the stack is in the default
      session, locked if it was not there before. */
  lemma SessionIsFresh(c: Ctx, cfg: Config, evs: seq<Event>, now: u32)
    requires ConfigOk(cfg)
    ensures var before, after := Run(c, cfg, evs), Process(Run(c, cfg, evs).ctx, cfg, now).ctx;
            var s := SessionAfter(c.session, before.obs);
            && before.ctx.session == s
            && (after.session != 1 <==>
                s != 1 && (now - LastMessage(c.lastMsg, evs)) % 0x1_0000_0000 <= 5000)
            && (after.session != DEFAULT_SESSION ==>
                  after.session == s && after.level == Justified(c.level, before.obs))
            && (after.session == DEFAULT_SESSION && s != DEFAULT_SESSION ==> after.level == 0)
  {
    hide Run, Justified, SessionAfter, LastMessage, ConfigOk, SendNrc;
    LevelIsJustified(c, cfg, evs);
    MessageOverRun(c, cfg, evs);
    AnswersNeutral(SessionTimer(Run(c, cfg, evs).ctx, now).ctx, cfg);
  }
}
