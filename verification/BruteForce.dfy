/** How fast wrong keys can be tried, over runs of the whole server. */
module BruteForce {
  import opened Bytes
  import opened Core

  /** Times of the failed key checks. */
  function Failures(obs: seq<Obs>): seq<u32> {
    if obs == [] then []
    else (if obs[0].KeyChecked? && !obs[0].ok then [obs[0].at] else []) + Failures(obs[1..])
  }

  predicate NoSuccess(obs: seq<Obs>) { obs == [] || (!(obs[0].KeyChecked? && obs[0].ok) && NoSuccess(obs[1..])) }

  lemma {:induction false} FailuresAppend(a: seq<Obs>, b: seq<Obs>)
    ensures Failures(a + b) == Failures(a) + Failures(b)
    ensures NoSuccess(a + b) <==> NoSuccess(a) && NoSuccess(b)
    decreases |a|
  {
    if a == [] {
      assert a + b == b;
    } else {
      assert (a + b)[1..] == a[1..] + b;
      FailuresAppend(a[1..], b);
    }
  }

  /** The clock does not go back, and does not wrap within a delay. */
  predicate Timed(cfg: Config, evs: seq<Event>, clock: nat)
    decreases |evs|
  {
    evs == [] ||
    (&& (evs[0].Request? ==> clock <= evs[0].env.now && evs[0].env.now + Delay(cfg) < 0x1_0000_0000)
     && Timed(cfg, evs[1..], if evs[0].Request? then evs[0].env.now else clock))
  }

  /** After n failures, the last one at time last: what the context remembers of them. */
  ghost predicate Remembers(c: Ctx, cfg: Config, n: nat, last: nat, clock: nat) {
    && c.attempts == n % 0x100
    && (n > 0 && n % 0x100 >= MaxAttempts(cfg) ==>
          c.delayEnd == last + Delay(cfg) || (c.delayEnd == 0 && clock >= last + Delay(cfg)))
  }

  /** Failure number n + 1 waits out the delay if the counter has reached the maximum. */
  predicate Throttled(cfg: Config, n: nat, last: nat, times: seq<u32>)
    decreases |times|
  {
    times == [] ||
    (&& (n > 0 && n % 0x100 >= MaxAttempts(cfg) ==> times[0] >= last + Delay(cfg))
     && Throttled(cfg, n + 1, times[0], times[1..]))
  }

  /** What a step does to the failure counter, in terms of the failures it shows. */
  ghost predicate Counts(c: Ctx, cfg: Config, r: Step, now: nat) {
    var f := Failures(r.obs);
    NoSuccess(r.obs) ==>
      || (f == [] && r.ctx.attempts == c.attempts
          && (r.ctx.delayEnd == c.delayEnd || (r.ctx.delayEnd == 0 && now >= c.delayEnd)))
      || (f == [now] && r.ctx.attempts == ToByte(c.attempts + 1) && (c.delayEnd == 0 || now >= c.delayEnd)
          && (r.ctx.attempts >= MaxAttempts(cfg) ==> r.ctx.delayEnd == now + Delay(cfg)))
  }

  predicate Keyless(obs: seq<Obs>) { forall o :: o in obs ==> !o.KeyChecked? }

  lemma {:induction false} KeylessFailures(obs: seq<Obs>)
    requires Keyless(obs)
    ensures Failures(obs) == [] && NoSuccess(obs)
  {
    if obs != [] {
      assert obs[0] in obs;
      KeylessFailures(obs[1..]);
    }
  }

  lemma AnswersKeyless(c: Ctx, cfg: Config)
    ensures forall sid, nrc :: var r := SendNrc(c, cfg, sid, nrc);
              Keyless(r.obs) && r.ctx.attempts == c.attempts && r.ctx.delayEnd == c.delayEnd
    ensures forall sdu :: var r := SendResponse(c, cfg, sdu);
              Keyless(r.obs) && r.ctx.attempts == c.attempts && r.ctx.delayEnd == c.delayEnd
  {
  }

  lemma KeylessCounts(c: Ctx, cfg: Config, r: Step, now: nat)
    requires Keyless(r.obs) && r.ctx.attempts == c.attempts
    requires r.ctx.delayEnd == c.delayEnd || (r.ctx.delayEnd == 0 && now >= c.delayEnd)
    ensures Counts(c, cfg, r, now)
  {
    KeylessFailures(r.obs);
  }

  lemma KeyCounts(c: Ctx, cfg: Config, data: seq<byte>, env: Env)
    requires |data| >= 2 && env.now + Delay(cfg) < 0x1_0000_0000
    requires c.delayEnd == 0 || env.now >= c.delayEnd
    ensures Counts(c, cfg, HandleKey(c.(delayEnd := 0), cfg, data, env), env.now)
  {
    hide SendNrc, SendResponse, Keyless, Failures, NoSuccess;
    var c1 := c.(delayEnd := 0);
    var attempts := ToByte(c1.attempts + 1);
    var o := KeyChecked(env.now, data[1] % 0x80 / 2, env.keyRes == 0);
    var r := HandleKey(c1, cfg, data, env);
    var late := c1.(attempts := attempts, delayEnd := (env.now + Delay(cfg)) % 0x1_0000_0000);
    AnswersKeyless(late, cfg);
    AnswersKeyless(c1.(attempts := attempts), cfg);
    assert r.obs == [o] + r.obs[1..];
    FailuresAppend([o], r.obs[1..]);
    OneFailure(o);
    if env.keyRes != 0 {
      KeylessFailures(r.obs[1..]);
    }
  }

  lemma OneFailure(o: Obs)
    ensures Failures([o]) == if o.KeyChecked? && !o.ok then [o.at] else []
    ensures NoSuccess([o]) <==> !(o.KeyChecked? && o.ok)
  {
    assert [o][1..] == [];
  }

  lemma ExecuteCounts(c: Ctx, cfg: Config, s: Service, data: seq<byte>, env: Env)
    requires data != [] && (s.handler != Delegated ==> |data| >= 2) && env.now + Delay(cfg) < 0x1_0000_0000
    ensures Counts(c, cfg, Execute(c, cfg, s, data, env), env.now)
  {
    hide SendNrc, SendResponse, Counts, HandleKey, SessionReply;
    var r := Execute(c, cfg, s, data, env);
    AnswersKeyless(c, cfg);
    if s.handler.SecurityHandler? {
      AnswersKeyless(c.(delayEnd := 0), cfg);
      if data[1] % 2 == 0 && cfg.hasKey && !(c.delayEnd != 0 && env.now < c.delayEnd) {
        KeyCounts(c, cfg, data, env);
      } else {
        KeylessCounts(c, cfg, r, env.now);
      }
    } else {
      if s.handler.SessionHandler? {
        var sub := data[1] % 0x80;
        AnswersKeyless(Entered(c, cfg, sub), cfg);
      }
      KeylessCounts(c, cfg, r, env.now);
    }
  }

  lemma DispatchCounts(c: Ctx, cfg: Config, data: seq<byte>, env: Env)
    requires ConfigOk(cfg) && data != [] && env.now + Delay(cfg) < 0x1_0000_0000
    ensures Counts(c, cfg, Dispatch(c, cfg, data, env), env.now)
  {
    hide SendNrc, Counts, Execute, FindService, ConfigOk, SessionSupported, SubSupported, Keyless;
    ServiceFound(cfg, data[0]);
    var s := FindService(cfg, data[0]);
    var c1 := if s.Some? && s.value.subMask.Some? && |data| >= 2 then c.(suppress := data[1] >= 0x80) else c;
    AnswersKeyless(c, cfg);
    AnswersKeyless(c1, cfg);
    var r := Dispatch(c, cfg, data, env);
    if s.Some? && (s.value.handler != Delegated ==> |data| >= 2) && r == Execute(c1, cfg, s.value, data, env) {
      ExecuteCounts(c1, cfg, s.value, data, env);
      SameCounts(c, c1, cfg, r, env.now);
    } else {
      KeylessCounts(c, cfg, r, env.now);
    }
  }

  lemma SameCounts(c: Ctx, c1: Ctx, cfg: Config, r: Step, now: nat)
    requires Counts(c1, cfg, r, now) && c1.attempts == c.attempts && c1.delayEnd == c.delayEnd
    ensures Counts(c, cfg, r, now)
  {
  }

  lemma InputCounts(c: Ctx, cfg: Config, data: seq<byte>, env: Env)
    requires ConfigOk(cfg) && env.now + Delay(cfg) < 0x1_0000_0000
    ensures Counts(c, cfg, Input(c, cfg, data, env), env.now)
  {
    hide SendNrc, Dispatch, ConfigOk;
    var r := Input(c, cfg, data, env);
    var c1 := c.(lastMsg := env.now);
    AnswersKeyless(c1, cfg);
    if data != [] && !c.pending && !AnswersClient(c, data) {
      var c2 := c1.(p2Start := env.now, pending := false, star := false, rcrrp := 0);
      DispatchCounts(c2, cfg, data, env);
      FailuresAppend([Asked(data[0])], Dispatch(c2, cfg, data, env).obs);
      OneFailure(Asked(data[0]));
    } else {
      KeylessCounts(c, cfg, r, env.now);
    }
  }

  /** Events other than requests touch neither the counter nor the delay. */
  lemma OtherCounts(c: Ctx, cfg: Config, e: Event)
    requires ConfigOk(cfg) && !e.Request?
    ensures var r := Apply(c, cfg, e);
            Failures(r.obs) == [] && NoSuccess(r.obs) && r.ctx.attempts == c.attempts && r.ctx.delayEnd == c.delayEnd
  {
    hide SendNrc, SendResponse;
    AnswersKeyless(c, cfg);
    if e.Clock? {
      AnswersKeyless(SessionTimer(c, e.now).ctx, cfg);
    }
    KeylessFailures(Apply(c, cfg, e).obs);
  }

  lemma {:induction false} FailuresThrottled(c: Ctx, cfg: Config, evs: seq<Event>, n: nat, last: nat, clock: nat)
    requires ConfigOk(cfg) && Timed(cfg, evs, clock) && Remembers(c, cfg, n, last, clock)
    requires NoSuccess(Run(c, cfg, evs).obs)
    ensures Throttled(cfg, n, last, Failures(Run(c, cfg, evs).obs))
    decreases |evs|
  {
    hide Apply, ConfigOk, Failures, NoSuccess;
    if evs != [] {
      var e, one := evs[0], Apply(c, cfg, evs[0]);
      FailuresAppend(one.obs, Run(one.ctx, cfg, evs[1..]).obs);
      var clock' := if e.Request? then e.env.now else clock;
      if e.Request? {
        RequestCounts(c, cfg, e);
      } else {
        OtherCounts(c, cfg, e);
      }
      var f, rest := Failures(one.obs), Failures(Run(one.ctx, cfg, evs[1..]).obs);
      if f == [] {
        FailuresThrottled(one.ctx, cfg, evs[1..], n, last, clock');
        assert f + rest == rest;
      } else {
        CountNext(n);
        FailuresThrottled(one.ctx, cfg, evs[1..], n + 1, clock', clock');
        assert (f + rest)[0] == f[0] && (f + rest)[1..] == rest;
      }
    } else {
      NoFailures();
    }
  }

  lemma RequestCounts(c: Ctx, cfg: Config, e: Event)
    requires ConfigOk(cfg) && e.Request? && e.env.now + Delay(cfg) < 0x1_0000_0000
    ensures Counts(c, cfg, Apply(c, cfg, e), e.env.now)
  {
    InputCounts(c, cfg, e.data, e.env);
  }

  lemma NoFailures()
    ensures Failures([]) == []
  {
  }

  lemma CountNext(n: nat)
    ensures ToByte(n % 0x100 + 1) == (n + 1) % 0x100
  {
  }

  /** Among the failures numbered 1 to n, those after which the next attempt has to wait. */
  function Locks(cfg: Config, n: nat): nat {
    if n == 0 then 0 else Locks(cfg, n - 1) + if n % 0x100 >= MaxAttempts(cfg) then 1 else 0
  }

  predicate Ascending(times: seq<u32>, from: nat)
    decreases |times|
  {
    times == [] || (from <= times[0] && Ascending(times[1..], times[0]))
  }

  lemma {:induction false} FailuresAscending(c: Ctx, cfg: Config, evs: seq<Event>, clock: nat)
    requires ConfigOk(cfg) && Timed(cfg, evs, clock) && NoSuccess(Run(c, cfg, evs).obs)
    ensures Ascending(Failures(Run(c, cfg, evs).obs), clock)
    decreases |evs|
  {
    hide Apply, ConfigOk, Failures, NoSuccess;
    if evs != [] {
      var e, one := evs[0], Apply(c, cfg, evs[0]);
      FailuresAppend(one.obs, Run(one.ctx, cfg, evs[1..]).obs);
      var clock' := if e.Request? then e.env.now else clock;
      if e.Request? {
        RequestCounts(c, cfg, e);
      } else {
        OtherCounts(c, cfg, e);
      }
      FailuresAscending(one.ctx, cfg, evs[1..], clock');
      var f, rest := Failures(one.obs), Failures(Run(one.ctx, cfg, evs[1..]).obs);
      if f == [] {
        assert f + rest == rest;
        AscendingFrom(rest, clock, clock');
      } else {
        assert (f + rest)[0] == f[0] && (f + rest)[1..] == rest;
      }
    } else {
      NoFailures();
    }
  }

  lemma AscendingFrom(times: seq<u32>, a: nat, b: nat)
    requires Ascending(times, b) && a <= b
    ensures Ascending(times, a)
  {
  }

  lemma OneDelay(cfg: Config, k: nat, last: nat, times: seq<u32>)
    requires k > 0 && Throttled(cfg, k, last, times) && Ascending(times, last) && times != []
    ensures times[0] >= last + (Locks(cfg, k) - Locks(cfg, k - 1)) * Delay(cfg)
  {
    hide Delay;
  }

  /** Delays add up between failure k and failure k + |times|. */
  lemma {:induction false} DelaysAddUp(cfg: Config, k: nat, last: nat, times: seq<u32>)
    requires k > 0 && Throttled(cfg, k, last, times) && Ascending(times, last) && times != []
    ensures times[|times| - 1] >= last + (Locks(cfg, k + |times| - 1) - Locks(cfg, k - 1)) * Delay(cfg)
    decreases |times|
  {
    var d := Delay(cfg);
    var here := Locks(cfg, k) - Locks(cfg, k - 1);
    OneDelay(cfg, k, last, times);
    if |times| > 1 {
      DelaysAddUp(cfg, k + 1, times[0], times[1..]);
      hide Locks, Delay;
      var rest := Locks(cfg, k + |times| - 1) - Locks(cfg, k);
      assert (here + rest) * d == here * d + rest * d;
      assert times[1..][|times| - 2] == times[|times| - 1];
    }
  }

  lemma TimesBound(cfg: Config, f: seq<u32>, clock: nat, k: nat, n: nat)
    requires Throttled(cfg, 0, 0, f) && Ascending(f, clock) && 1 <= k <= n <= |f|
    ensures f[n - 1] >= f[k - 1] + (Locks(cfg, n - 1) - Locks(cfg, k - 1)) * Delay(cfg)
  {
    hide Throttled, Ascending, Locks, Delay;
    if n > k {
      SuffixThrottled(cfg, 0, 0, clock, f, k);
      PrefixThrottled(cfg, k, f[k - 1], f[k..], n - k);
      DelaysAddUp(cfg, k, f[k - 1], f[k..][..n - k]);
      assert f[k..][..n - k][n - k - 1] == f[n - 1];
    }
  }

  /** Brute-force bound, for any number of failures: from a fresh counter and with no successful key,
      the time from failure number k to failure number n is at least one delay for each failure
      from k on and before n whose number, modulo 2^8, has reached the maximum, whatever else the
      run interleaves. */
  lemma FailuresTakeTime(c: Ctx, cfg: Config, evs: seq<Event>, clock: nat, k: nat, n: nat)
    requires ConfigOk(cfg) && Timed(cfg, evs, clock) && c.attempts == 0
    requires NoSuccess(Run(c, cfg, evs).obs)
    requires 1 <= k <= n <= |Failures(Run(c, cfg, evs).obs)|
    ensures var f := Failures(Run(c, cfg, evs).obs);
            f[n - 1] >= f[k - 1] + (Locks(cfg, n - 1) - Locks(cfg, k - 1)) * Delay(cfg)
  {
    hide Run, Failures, NoSuccess, ConfigOk, Timed;
    FailuresThrottled(c, cfg, evs, 0, 0, clock);
    FailuresAscending(c, cfg, evs, clock);
    TimesBound(cfg, Failures(Run(c, cfg, evs).obs), clock, k, n);
  }

  lemma {:induction false} PrefixThrottled(cfg: Config, k: nat, last: nat, times: seq<u32>, n: nat)
    requires Throttled(cfg, k, last, times) && Ascending(times, last) && n <= |times|
    ensures Throttled(cfg, k, last, times[..n]) && Ascending(times[..n], last)
    decreases |times|
  {
    if n > 0 {
      PrefixThrottled(cfg, k + 1, times[0], times[1..], n - 1);
      assert times[..n][1..] == times[1..][..n - 1];
    }
  }

  lemma {:induction false} LocksBelow256(cfg: Config, n: nat)
    requires n < 0x100
    ensures Locks(cfg, n) == if n < MaxAttempts(cfg) then 0 else n - MaxAttempts(cfg) + 1
  {
    if n > 0 {
      LocksBelow256(cfg, n - 1);
    }
  }

  /** For fewer than 256 failures that is (f - max) * delay since failure number max. */
  lemma BoundBelow256(c: Ctx, cfg: Config, evs: seq<Event>, clock: nat)
    requires ConfigOk(cfg) && Timed(cfg, evs, clock) && c.attempts == 0
    requires NoSuccess(Run(c, cfg, evs).obs)
    requires MaxAttempts(cfg) <= |Failures(Run(c, cfg, evs).obs)| < 0x100
    ensures var f := Failures(Run(c, cfg, evs).obs);
            f[|f| - 1] >= f[MaxAttempts(cfg) - 1] + (|f| - MaxAttempts(cfg)) * Delay(cfg)
  {
    hide Run, Failures, NoSuccess, ConfigOk, Timed, Locks, Delay;
    var n, m := |Failures(Run(c, cfg, evs).obs)|, MaxAttempts(cfg);
    FailuresTakeTime(c, cfg, evs, clock, m, n);
    LocksBelow256(cfg, n - 1);
    LocksBelow256(cfg, m - 1);
    assert Locks(cfg, n - 1) - Locks(cfg, m - 1) == n - m;
  }

  lemma {:induction false} SuffixThrottled(cfg: Config, k: nat, last: nat, from: nat, times: seq<u32>, j: nat)
    requires Throttled(cfg, k, last, times) && Ascending(times, from) && 1 <= j <= |times|
    ensures Throttled(cfg, k + j, times[j - 1], times[j..]) && Ascending(times[j..], times[j - 1])
    decreases |times|
  {
    if j > 1 {
      SuffixThrottled(cfg, k + 1, times[0], times[0], times[1..], j - 1);
      assert times[1..][j - 1..] == times[j..] && times[1..][j - 2] == times[j - 1];
    }
  }
}
