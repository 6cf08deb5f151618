/** The order in which a request is checked before its handler runs. */
module Gates {
  import opened Bytes
  import opened Core

  /** A check, and the negative response code for a request that does not pass it. */
  datatype Gate = Gate(passed: bool, nrc: byte)

  /** The bits of a service's session mask: 1 for the default session, 2 for the extended one, 4 for
      the programming one. */
  predicate OpenIn(mask: byte, session: byte) {
    || (session == 1 && mask % 2 == 1)
    || (session == 2 && mask / 4 % 2 == 1)
    || (session == 3 && mask / 2 % 2 == 1)
  }

  /** The bit of a sub-function in a mask of sixteen bytes. */
  predicate Listed(mask: seq<byte>, sub: byte)
    requires |mask| == 16 && sub < 128
  {
    mask[sub / 8] / [1, 2, 4, 8, 16, 32, 64, 128][sub % 8] % 2 == 1
  }

  lemma MasksMean(s: Service, session: byte, sub: byte)
    requires sub < 128 && (s.subMask.Some? ==> |s.subMask.value| == 16)
    ensures SessionSupported(s, session) <==> OpenIn(s.sessionMask, session)
    ensures SubSupported(s, sub) <==> s.subMask.None? || Listed(s.subMask.value, sub)
  {
    PowersOfTwo(sub % 8);
    PowersOfTwo(0);
    PowersOfTwo(1);
    PowersOfTwo(2);
  }

  lemma PowersOfTwo(n: nat)
    requires n < 8
    ensures Pow2(n) == [1, 2, 4, 8, 16, 32, 64, 128][n]
  {
    assert Pow2(0) == 1 && Pow2(1) == 2 && Pow2(2) == 4 && Pow2(3) == 8;
    assert Pow2(4) == 16 && Pow2(5) == 32 && Pow2(6) == 64 && Pow2(7) == 128;
  }

  /** The documented priority: session, sub-function, length, security, safety. */
  function Checks(c: Ctx, s: Service, data: seq<byte>, safe: bool): seq<Gate>
    requires data != [] && (s.subMask.Some? ==> |s.subMask.value| == 16)
  {
    [Gate(OpenIn(s.sessionMask, c.session), 0x7F),
     Gate(s.subMask.None? || |data| >= 2, 0x13),
     Gate(s.subMask.None? || |data| < 2 || Listed(s.subMask.value, data[1] % 0x80), 0x12),
     Gate(|data| >= s.minLen, 0x13),
     Gate(s.securityMask <= c.level, 0x33),
     Gate(safe, 0x22)]
  }

  function FirstFailing(gs: seq<Gate>): Option<byte> {
    if gs == [] then None else if !gs[0].passed then Some(gs[0].nrc) else FirstFailing(gs[1..])
  }

  /** The request is refused with the code of the first check it fails at entry s, and a refused request
      leaves session, level, key attempts and delay alone; only one that passes every check, and keeps
      the suppress bit it carries, gets to its handler. */
  ghost predicate Judged(c: Ctx, cfg: Config, s: Service, data: seq<byte>, env: Env, r: Step)
    requires data != []
  {
    && (s.subMask.Some? ==> |s.subMask.value| == 16)
    && match FirstFailing(Checks(c, s, data, env.safe))
       case Some(nrc) =>
         && r.obs == [Refused(data[0], nrc)]
         && r.ctx.session == c.session && r.ctx.level == c.level
         && r.ctx.attempts == c.attempts && r.ctx.delayEnd == c.delayEnd
       case None =>
         && (s.handler != Delegated || s.subMask.Some? ==> |data| >= 2)
         && r == Execute(if s.subMask.Some? then c.(suppress := data[1] >= 0x80) else c, cfg, s, data, env)
  }

  /** The checks are those of the first entry of the user's table that has the SID; if there is none, of
      the first built-in entry; a request for a SID in neither table is refused with 0x11. */
  lemma PriorityRespected(c: Ctx, cfg: Config, data: seq<byte>, env: Env)
    requires ConfigOk(cfg) && data != []
    ensures var r := Dispatch(c, cfg, data, env);
            && (forall i: nat :: FirstAt(cfg.user, data[0], i) ==> Judged(c, cfg, cfg.user[i], data, env, r))
            && (forall i: nat :: NoneAt(cfg.user, data[0]) && FirstAt(CORE_SERVICES, data[0], i) ==>
                  Judged(c, cfg, CORE_SERVICES[i], data, env, r))
            && (NoneAt(cfg.user, data[0]) && NoneAt(CORE_SERVICES, data[0]) ==> r.obs == [Refused(data[0], 0x11)])
  {
    hide FindService, SessionSupported, SubSupported, Execute, ConfigOk, FirstAt, NoneAt, Judged, Dispatch;
    ServiceLookup(cfg, data[0]);
    EntryJudges(c, cfg, data, env);
  }

  lemma EntryJudges(c: Ctx, cfg: Config, data: seq<byte>, env: Env)
    requires ConfigOk(cfg) && data != []
    ensures var found, r := FindService(cfg, data[0]), Dispatch(c, cfg, data, env);
            if found.Some? then Judged(c, cfg, found.value, data, env, r) else r.obs == [Refused(data[0], 0x11)]
  {
    hide FindService, SessionSupported, SubSupported, Execute, ConfigOk, FirstFailing, SendNrc, OpenIn, Listed;
    RefusalInert(c, cfg);
    ServiceFound(cfg, data[0]);
    var found := FindService(cfg, data[0]);
    if found.Some? {
      MasksMean(found.value, c.session, if |data| >= 2 then data[1] % 0x80 else 0);
      if |data| >= 2 {
        RefusalInert(c.(suppress := data[1] >= 0x80), cfg);
      }
      SixChecks(Checks(c, found.value, data, env.safe));
    }
  }

  lemma RefusalInert(c: Ctx, cfg: Config)
    requires ConfigOk(cfg)
    ensures forall sid, nrc :: var r := SendNrc(c, cfg, sid, nrc);
              && r.obs == [Refused(sid, nrc)]
              && r.ctx.session == c.session && r.ctx.level == c.level
              && r.ctx.attempts == c.attempts && r.ctx.delayEnd == c.delayEnd
  {
  }

  lemma SixChecks(gs: seq<Gate>)
    requires |gs| == 6
    ensures FirstFailing(gs) ==
            if !gs[0].passed then Some(gs[0].nrc) else if !gs[1].passed then Some(gs[1].nrc)
            else if !gs[2].passed then Some(gs[2].nrc) else if !gs[3].passed then Some(gs[3].nrc)
            else if !gs[4].passed then Some(gs[4].nrc) else if !gs[5].passed then Some(gs[5].nrc) else None
  {
    assert FirstFailing(gs[1..][1..]) == FirstFailing(gs[2..]) by { assert gs[1..][1..] == gs[2..]; }
    assert FirstFailing(gs[2..][1..]) == FirstFailing(gs[3..]) by { assert gs[2..][1..] == gs[3..]; }
    assert FirstFailing(gs[3..][1..]) == FirstFailing(gs[4..]) by { assert gs[3..][1..] == gs[4..]; }
    assert FirstFailing(gs[4..][1..]) == FirstFailing(gs[5..]) by { assert gs[4..][1..] == gs[5..]; }
    assert FirstFailing(gs[5..][1..]) == None by { assert gs[5..][1..] == []; }
  }
}
