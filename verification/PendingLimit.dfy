/** The pending-response machine: how often 0x78 is repeated, under whose SID, and how a pending request ends. */
module PendingLimit {
  import opened Bytes
  import opened Core
  import opened ClientMode
  import opened Accounting

  /** Events that leave the pending request alone: ticks, requests of this stack as a client, and messages
      other than for the SID remembered last. */
  predicate Foreign(c: Ctx, e: Event) {
    || e.Clock? || e.AsClient?
    || (e.Request? && (e.data == [] || SilentTester(e.data) || e.data[0] != c.pendingSid))
  }

  /** A run each event of which finds the request still pending. */
  predicate Awaiting(c: Ctx, cfg: Config, evs: seq<Event>)
    requires ConfigOk(cfg)
    decreases |evs|
  {
    evs == [] || (c.pending && Foreign(c, evs[0]) && Awaiting(Apply(c, cfg, evs[0]).ctx, cfg, evs[1..]))
  }

  /** The SID remembered after an event of such a run. */
  function SidAfter(sid: byte, cfg: Config, e: Event): byte { if Sends(cfg, e) then e.sid else sid }

  /** At least gap milliseconds from start to now, on a clock that wraps. */
  predicate Over(now: u32, start: u32, gap: nat) { (now - start) % 0x1_0000_0000 >= gap }

  lemma SidKept(sid: byte, cfg: Config, e: Event)
    ensures !e.AsClient? ==> SidAfter(sid, cfg, e) == sid
  {
  }

  /** A tick at which the response time has run out, and the SID remembered then. */
  datatype Expiry = Expiry(at: u32, sid: byte)

  /** The expiries of a run, from its events alone: the ticks at which at least gap has passed since
      start, or since the expiry before. */
  function Expiries(sid: byte, start: u32, gap: nat, cfg: Config, evs: seq<Event>): seq<Expiry>
    decreases |evs|
  {
    if evs == [] then []
    else if evs[0].Clock? && Over(evs[0].now, start, gap) then
      [Expiry(evs[0].now, sid)] + Expiries(sid, evs[0].now, gap, cfg, evs[1..])
    else Expiries(SidAfter(sid, cfg, evs[0]), start, gap, cfg, evs[1..])
  }

  /** All the 0x78 and 0x22 that are sent, whatever SID they carry. */
  function TimerNrcs(obs: seq<Obs>): seq<Obs> {
    if obs == [] then []
    else
      (if obs[0].Refused? && (obs[0].nrc == 0x78 || obs[0].nrc == 0x22) then [obs[0]] else [])
      + TimerNrcs(obs[1..])
  }

  lemma {:induction false} TimerNrcsAppend(a: seq<Obs>, b: seq<Obs>)
    ensures TimerNrcs(a + b) == TimerNrcs(a) + TimerNrcs(b)
    decreases |a|
  {
    if a == [] {
      assert a + b == b;
    } else {
      assert (a + b)[1..] == a[1..] + b;
      TimerNrcsAppend(a[1..], b);
    }
  }

  lemma TimerNrcsOne(o: Obs, b: seq<Obs>)
    ensures var own := if o.Refused? && (o.nrc == 0x78 || o.nrc == 0x22) then [o] else [];
            TimerNrcs([o]) == own && TimerNrcs([o] + b) == own + TimerNrcs(b)
  {
    assert ([o] + b)[1..] == b && [o][1..] == [];
  }

  /** What the tester is told at the expiries: 0x78 each time, but 0x22 at the last one of a request that
      has ended, always under the SID remembered at that moment. */
  function Told(n: seq<Expiry>, ended: bool): seq<Obs>
    decreases |n|
  {
    if n == [] then []
    else [Refused(n[0].sid, if ended && |n| == 1 then 0x22 else 0x78)] + Told(n[1..], ended)
  }

  /** How a step r leaves a waiting request: ended with one 0x22 or told to wait once more with one 0x78
      when its time has run out (up, at time now), and untouched otherwise. */
  predicate Waited(c: Ctx, cfg: Config, r: Step, up: bool, now: u32) {
    if !up then r.ctx.pending && r.ctx.rcrrp == c.rcrrp && r.ctx.p2Start == c.p2Start && TimerNrcs(r.obs) == []
    else if cfg.rcrrpLimit > 0 && c.rcrrp >= cfg.rcrrpLimit then
      !r.ctx.pending && TimerNrcs(r.obs) == [Refused(c.pendingSid, 0x22)]
    else
      && r.ctx.pending && r.ctx.rcrrp == ToU16(c.rcrrp + 1) && r.ctx.p2Start == now
      && TimerNrcs(r.obs) == [Refused(c.pendingSid, 0x78)]
  }

  /** One tick, exactly: for a request that is pending something is sent if and only if the time allowed
      has passed, P2* from the first 0x78 on and P2 before. */
  lemma TickTellsIff(c: Ctx, cfg: Config, now: u32)
    requires cfg.txSize >= 3 && c.pending
    ensures var r := Process(c, cfg, now);
            && (TimerNrcs(r.obs) != [] <==> (now - c.p2Start) % 0x1_0000_0000 >= if c.star then c.p2StarMs else c.p2Ms)
            && (TimerNrcs(r.obs) != [] ==>
                  TimerNrcs(r.obs) ==
                  [Refused(c.pendingSid, if cfg.rcrrpLimit > 0 && c.rcrrp >= cfg.rcrrpLimit then 0x22 else 0x78)])
  {
    hide TimerNrcs;
    var s := SessionTimer(c, now);
    var t := ResponseTimer(s.ctx, cfg, now);
    TimerNrcsAppend(s.obs, t.obs);
    TimerNrcsNone();
    TimerNrcsOne(SessionSet(c.session, DEFAULT_SESSION), []);
    TimerNrcsOne(Refused(c.pendingSid, 0x78), []);
    TimerNrcsOne(Refused(c.pendingSid, 0x22), []);
  }

  lemma WaitingTick(c: Ctx, cfg: Config, now: u32)
    requires cfg.txSize >= 3 && c.pending && c.star
    ensures var r := Process(c, cfg, now);
            && r.ctx.pendingSid == c.pendingSid && r.ctx.p2StarMs == c.p2StarMs && r.ctx.star
            && Waited(c, cfg, r, Over(now, c.p2Start, c.p2StarMs), now)
  {
    hide TimerNrcs;
    var s := SessionTimer(c, now);
    var t := ResponseTimer(s.ctx, cfg, now);
    TimerNrcsAppend(s.obs, t.obs);
    TimerNrcsNone();
    TimerNrcsOne(SessionSet(c.session, DEFAULT_SESSION), []);
    TimerNrcsOne(Refused(c.pendingSid, 0x78), []);
    TimerNrcsOne(Refused(c.pendingSid, 0x22), []);
  }

  lemma TimerNrcsNone()
    ensures TimerNrcs([]) == []
  {
  }

  /** What one event does to a request that is waiting. */
  lemma WaitingStep(c: Ctx, cfg: Config, e: Event)
    requires ConfigOk(cfg) && c.pending && c.star && Foreign(c, e)
    ensures var r := Apply(c, cfg, e);
            && r.ctx.pendingSid == SidAfter(c.pendingSid, cfg, e) && r.ctx.p2StarMs == c.p2StarMs && r.ctx.star
            && Waited(c, cfg, r, e.Clock? && Over(e.now, c.p2Start, c.p2StarMs), if e.Clock? then e.now else 0)
  {
    hide TimerNrcs, Process, Dispatch;
    OkSize(cfg);
    TimerNrcsNone();
    if e.Clock? {
      WaitingTick(c, cfg, e.now);
    } else if e.AsClient? {
      TimerNrcsOne(ClientSent([e.sid] + e.data), []);
    } else if e.data != [] && !SilentTester(e.data) {
      BusyRefusal(c, cfg, e.data, e.env);
      TimerNrcsOne(Asked(e.data[0]), [Refused(e.data[0], BUSY)]);
      TimerNrcsOne(Refused(e.data[0], BUSY), []);
      assert [Asked(e.data[0])] + [Refused(e.data[0], BUSY)] == [Asked(e.data[0]), Refused(e.data[0], BUSY)];
    }
  }

  /** Bounded pending: with a limit on 0x78, a waiting request sees one repetition for each expiry
      as long as it waits, never more than the limit allows, and at the next expiry exactly one
      0x22, which ends it; nothing else is sent for it, whatever is asked of the stack or sent by it in
      the meantime. Each of them carries the SID remembered at its expiry. Expiries are at least P2* apart. */
  lemma {:induction false} BoundedPending(c: Ctx, cfg: Config, evs: seq<Event>)
    requires ConfigOk(cfg) && cfg.rcrrpLimit > 0
    requires c.pending && c.star && c.rcrrp <= cfg.rcrrpLimit && Awaiting(c, cfg, evs)
    ensures var r := Run(c, cfg, evs);
            var n := Expiries(c.pendingSid, c.p2Start, c.p2StarMs, cfg, evs);
            && TimerNrcs(r.obs) == Told(n, !r.ctx.pending)
            && (if r.ctx.pending then r.ctx.rcrrp == c.rcrrp + |n| <= cfg.rcrrpLimit
                else c.rcrrp + |n| == cfg.rcrrpLimit + 1)
    decreases |evs|
  {
    hide Apply, Foreign, ConfigOk, Over, TimerNrcs, SidAfter;
    TimerNrcsNone();
    if evs != [] {
      var one := Apply(c, cfg, evs[0]);
      WaitingStep(c, cfg, evs[0]);
      SidKept(c.pendingSid, cfg, evs[0]);
      var rest := Run(one.ctx, cfg, evs[1..]);
      TimerNrcsAppend(one.obs, rest.obs);
      var later := Expiries(one.ctx.pendingSid, one.ctx.p2Start, c.p2StarMs, cfg, evs[1..]);
      if one.ctx.pending {
        BoundedPending(one.ctx, cfg, evs[1..]);
        if evs[0].Clock? && Over(evs[0].now, c.p2Start, c.p2StarMs) {
          ExpiryCons(Expiry(evs[0].now, c.pendingSid), later, !rest.ctx.pending);
        } else {
          assert [] + later == later && [] + TimerNrcs(rest.obs) == TimerNrcs(rest.obs);
        }
      } else {
        assert evs[1..] == [];
        ExpiryCons(Expiry(evs[0].now, c.pendingSid), [], true);
      }
    }
  }

  lemma ExpiryCons(x: Expiry, n: seq<Expiry>, ended: bool)
    ensures Told([x] + n, ended) == [Refused(x.sid, if ended && n == [] then 0x22 else 0x78)] + Told(n, ended)
  {
    assert ([x] + n)[1..] == n;
  }

  /** Without a limit no number of expiries ends a pending request, and each brings one 0x78. */
  lemma {:induction false} UnlimitedPending(c: Ctx, cfg: Config, evs: seq<Event>)
    requires ConfigOk(cfg) && cfg.rcrrpLimit == 0 && c.pending && c.star && Awaiting(c, cfg, evs)
    ensures var r := Run(c, cfg, evs);
            var n := Expiries(c.pendingSid, c.p2Start, c.p2StarMs, cfg, evs);
            r.ctx.pending && TimerNrcs(r.obs) == Told(n, false)
    decreases |evs|
  {
    hide Apply, Foreign, ConfigOk, Over, TimerNrcs, SidAfter;
    TimerNrcsNone();
    if evs != [] {
      var one := Apply(c, cfg, evs[0]);
      WaitingStep(c, cfg, evs[0]);
      SidKept(c.pendingSid, cfg, evs[0]);
      UnlimitedPending(one.ctx, cfg, evs[1..]);
      var rest := Run(one.ctx, cfg, evs[1..]);
      TimerNrcsAppend(one.obs, rest.obs);
      var later := Expiries(one.ctx.pendingSid, one.ctx.p2Start, c.p2StarMs, cfg, evs[1..]);
      if evs[0].Clock? && Over(evs[0].now, c.p2Start, c.p2StarMs) {
        ExpiryCons(Expiry(evs[0].now, c.pendingSid), later, false);
      } else {
        assert [] + later == later && [] + TimerNrcs(rest.obs) == TimerNrcs(rest.obs);
      }
    }
  }

  /** The whole life of a request whose handler pends, whatever was counted before: one 0x78 at once,
      under its own SID; the repetitions, one at each expiry; and the end after limit + 1 expiries. */
  lemma PendingRequestEnds(c: Ctx, cfg: Config, data: seq<byte>, env: Env, evs: seq<Event>)
    requires ConfigOk(cfg) && cfg.rcrrpLimit > 0 && BeginsPending(c, cfg, Request(data, env))
    requires Awaiting(Input(c, cfg, data, env).ctx, cfg, evs)
    ensures var start := Input(c, cfg, data, env);
            var r := Run(start.ctx, cfg, evs);
            var n := Expiries(data[0], env.now, c.p2StarMs, cfg, evs);
            && start.obs == [Asked(data[0]), Refused(data[0], 0x78)] && start.ctx.pending
            && (r.ctx.pending <==> |n| <= cfg.rcrrpLimit)
            && (!r.ctx.pending ==> |n| == cfg.rcrrpLimit + 1)
            && TimerNrcs(r.obs) == Told(n, !r.ctx.pending)
  {
    hide Run, Awaiting, ConfigOk;
    Begun(c, cfg, data, env);
    BoundedPending(Input(c, cfg, data, env).ctx, cfg, evs);
  }

  /** How a pending request begins. */
  lemma Begun(c: Ctx, cfg: Config, data: seq<byte>, env: Env)
    requires ConfigOk(cfg) && BeginsPending(c, cfg, Request(data, env))
    ensures var start := Input(c, cfg, data, env);
            && start.obs == [Asked(data[0]), Refused(data[0], 0x78)]
            && start.ctx.pending && start.ctx.star && start.ctx.pendingSid == data[0] && start.ctx.rcrrp == 0
            && start.ctx.p2Start == env.now && start.ctx.p2StarMs == c.p2StarMs
  {
    hide FindService, SessionSupported, SubSupported, ConfigOk, Matches;
    OkSize(cfg);
    ServiceFound(cfg, data[0]);
    assert [Asked(data[0])] + [Refused(data[0], 0x78)] == [Asked(data[0]), Refused(data[0], 0x78)];
  }

  /** Ticks each at least gap after the one before, the first after start. */
  predicate Stepping(start: u32, gap: nat, evs: seq<Event>)
    decreases |evs|
  {
    evs == [] || (evs[0].Clock? && Over(evs[0].now, start, gap) && Stepping(evs[0].now, gap, evs[1..]))
  }

  lemma {:induction false} SteppingExpires(c: Ctx, cfg: Config, evs: seq<Event>)
    requires ConfigOk(cfg) && cfg.rcrrpLimit > 0 && c.pending && c.star
    requires Stepping(c.p2Start, c.p2StarMs, evs) && c.rcrrp + |evs| <= cfg.rcrrpLimit + 1
    ensures Awaiting(c, cfg, evs) && |Expiries(c.pendingSid, c.p2Start, c.p2StarMs, cfg, evs)| == |evs|
    decreases |evs|
  {
    hide Apply, ConfigOk, Over, TimerNrcs;
    if evs != [] {
      WaitingStep(c, cfg, evs[0]);
      SidKept(c.pendingSid, cfg, evs[0]);
      if |evs| > 1 {
        SteppingExpires(Apply(c, cfg, evs[0]).ctx, cfg, evs[1..]);
      }
    }
  }

  /** A clock that steps by at least P2* each time ends a waiting request with its limit + 1 st tick and
      not before, after exactly limit repetitions of 0x78. */
  lemma ClockEnds(c: Ctx, cfg: Config, evs: seq<Event>)
    requires ConfigOk(cfg) && cfg.rcrrpLimit > 0 && c.pending && c.star && c.rcrrp == 0
    requires Stepping(c.p2Start, c.p2StarMs, evs) && |evs| <= cfg.rcrrpLimit + 1
    ensures var r := Run(c, cfg, evs);
            && (r.ctx.pending <==> |evs| <= cfg.rcrrpLimit)
            && |TimerNrcs(r.obs)| == |evs|
            && (forall i :: 0 <= i < |evs| ==>
                  TimerNrcs(r.obs)[i] == Refused(c.pendingSid, if i == cfg.rcrrpLimit then 0x22 else 0x78))
  {
    hide Run, ConfigOk, TimerNrcs;
    SteppingExpires(c, cfg, evs);
    BoundedPending(c, cfg, evs);
    OneSid(c.pendingSid, c.p2Start, c.p2StarMs, cfg, evs);
    ToldEach(Expiries(c.pendingSid, c.p2Start, c.p2StarMs, cfg, evs), !Run(c, cfg, evs).ctx.pending);
  }

  lemma {:induction false} OneSid(sid: byte, start: u32, gap: nat, cfg: Config, evs: seq<Event>)
    requires Stepping(start, gap, evs)
    ensures forall x :: x in Expiries(sid, start, gap, cfg, evs) ==> x.sid == sid
    decreases |evs|
  {
    if evs != [] {
      OneSid(sid, evs[0].now, gap, cfg, evs[1..]);
    }
  }

  lemma {:induction false} ToldEach(n: seq<Expiry>, ended: bool)
    ensures |Told(n, ended)| == |n|
    ensures forall i :: 0 <= i < |n| ==>
              Told(n, ended)[i] == Refused(n[i].sid, if ended && i == |n| - 1 then 0x22 else 0x78)
    decreases |n|
  {
    if n != [] {
      ToldEach(n[1..], ended);
    }
  }
}
