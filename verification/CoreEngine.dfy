/**
 The context of the UDS core as an object its entry points update in place. Its send function is the
 transport's: whatever it answers goes through the transport before the entry point returns.
 */
module CoreEngine {
  import opened Bytes
  import opened IsoTp
  import opened Core
  import opened Wiring

  class UdsServer {
    const cfg: Config
    const p2Ms: u16
    const p2StarMs: u32
    const tx: array<byte>
    const link: IsoTpLink
    var session: byte
    var level: byte
    var lastMsg: u32
    var p2Start: u32
    var pending: bool
    var star: bool
    var pendingSid: byte
    var hasCb: bool
    var suppress: bool
    var rcrrp: u16
    var attempts: byte
    var delayEnd: u32
    var nvm: Option<(byte, byte)>
    ghost var log: seq<Obs>

    ghost predicate Repr()
      reads link, link.pending, link.rx
    {
      ConfigOk(cfg) && tx.Length == cfg.txSize && link.Repr() && tx != link.pending && tx != link.rx
    }

    ghost function View(): Ctx
      reads this
    {
      Ctx(session, level, lastMsg, p2Ms, p2StarMs, p2Start, pending, star, pendingSid, hasCb,
          suppress, rcrrp, attempts, delayEnd, nvm)
    }

    ghost function Now(): Trail
      reads this, link, link.pending, link.rx
    {
      Trail(log, link.View(), link.bus)
    }

    /** The state is now that of r; the log has grown by what r shows, and what of it belongs on the
        wire has gone through the transport. */
    ghost predicate Is(r: Step, was: Trail, canSend: int)
      requires Valid(was.tp)
      reads this, link, link.pending, link.rx
    {
      View() == r.ctx && Now() == Then(was, r.obs, canSend)
    }

    constructor (cfg: Config, tx: array<byte>, link: IsoTpLink, nvm: Option<(byte, byte)>)
      requires ConfigOk(cfg) && tx.Length == cfg.txSize && link.Repr() && tx != link.pending && tx != link.rx
      ensures Repr() && this.cfg == cfg && this.tx == tx && this.link == link
      ensures View() == Init(cfg, nvm) && log == []
    {
      this.cfg, this.tx, this.link, this.nvm := cfg, tx, link, nvm;
      var p2 := if cfg.p2 > 0 then cfg.p2 else 50;
      var pStar := if cfg.p2Star > 0 then cfg.p2Star else 5000;
      if cfg.strict {
        if p2 < 20 { p2 := 20; }
        if pStar < 1000 { pStar := 1000; }
      }
      p2Ms, p2StarMs := p2, pStar;
      session, level := DEFAULT_SESSION, 0;
      lastMsg, p2Start, pending, star, pendingSid, hasCb := 0, 0, false, false, 0, false;
      suppress, rcrrp, attempts, delayEnd, log := false, 0, 0, 0, [];
      if nvm.Some? {
        session, level := nvm.value.0, nvm.value.1;
      }
    }

    /** uds_send_response of the first len bytes of the transmit buffer. */
    method Respond(len: u16, canSend: int)
      requires Repr()
      modifies this, link, link.pending
      ensures Repr()
      ensures len <= tx.Length ==> Is(SendResponse(old(View()), cfg, tx[..len]), old(Now()), canSend)
      ensures len > tx.Length ==> View() == old(View()) && Now() == old(Now())
    {
      hide Send, Valid, ConfigOk, Then;
      if len > tx.Length {
        return;
      }
      pending := false;
      if suppress {
        suppress := false;
        rcrrp := 0;
        log := log + [Suppressed];
        ThenQuiet(old(Now()), Suppressed, [], canSend);
        return;
      }
      rcrrp := 0;
      var _ := link.Transmit(tx[..len], canSend);
      log := log + [Replied(tx[..len])];
      ThenSends(old(Now()), Replied(tx[..len]), tx[..len], canSend);
    }

    /** Fills the transmit buffer and responds. */
    method Reply(sdu: seq<byte>, canSend: int)
      requires Repr() && |sdu| < 0x1_0000
      modifies this, tx, link, link.pending
      ensures Repr()
      ensures Is(SendResponse(old(View()), cfg, sdu), old(Now()), canSend)
    {
      hide Valid, ConfigOk, Then;
      if |sdu| <= tx.Length {
        CopyInto(tx, 0, sdu);
        assert tx[..|sdu|] == sdu;
      } else {
        ThenNothing(old(Now()), canSend);
      }
      Respond(|sdu|, canSend);
    }

    /** uds_send_nrc. */
    method Refuse(sid: byte, nrc: byte, canSend: int)
      requires Repr()
      modifies this, tx, link, link.pending
      ensures Repr()
      ensures Is(SendNrc(old(View()), cfg, sid, nrc), old(Now()), canSend)
    {
      hide Send, Valid, Then;
      if tx.Length < 3 {
        return;
      }
      if nrc != PENDING && sid == pendingSid {
        pending := false;
      }
      tx[0], tx[1], tx[2] := 0x7F, sid, nrc;
      assert tx[..3] == [0x7F, sid, nrc];
      var _ := link.Transmit(tx[..3], canSend);
      log := log + [Refused(sid, nrc)];
      ThenSends(old(Now()), Refused(sid, nrc), tx[..3], canSend);
    }

    /** Session control in the order of the handler, which saves last. */
    static lemma SessionInOrder(c: Ctx, mid: Ctx, cfg: Config, data: seq<byte>, was: Trail, canSend: int)
      requires |data| >= 2 && Valid(was.tp)
      requires var sub := data[1] % 0x80;
               && (sub == 1 || sub == 2 || sub == 3)
               && mid == c.(session := sub, level := if c.session != sub || sub == DEFAULT_SESSION then 0 else c.level)
      ensures var sub := data[1] % 0x80;
              var r := SendResponse(mid, cfg, SessionReply(cfg, sub));
              var all := HandleSession(c, cfg, data);
              && all.ctx == r.ctx.(nvm := if cfg.saves then Some((r.ctx.session, r.ctx.level)) else r.ctx.nvm)
              && Then(was, all.obs, canSend) ==
                 Then(was.(log := was.log + [SessionSet(c.session, sub)]), r.obs, canSend)
    {
      hide SessionReply, Then;
      var sub := data[1] % 0x80;
      ThenQuiet(was, SessionSet(c.session, sub), SendResponse(mid, cfg, SessionReply(cfg, sub)).obs, canSend);
    }

    method ReplyTimings(sub: byte, canSend: int)
      requires Repr()
      modifies this, tx, link, link.pending
      ensures Repr()
      ensures Is(SendResponse(old(View()), cfg, SessionReply(cfg, sub)), old(Now()), canSend)
    {
      hide SendResponse, Hi, Lo, Then, Valid, ConfigOk;
      var p2: u16 := if cfg.p2ServerMax > 0 then cfg.p2ServerMax else 50;
      var pStar: u16 := if cfg.p2StarServerMax > 0 then cfg.p2StarServerMax else 5000;
      var value: u16 := pStar / 10;
      Reply([SID_SESSION + 0x40, sub, Hi(p2), Lo(p2), Hi(value), Lo(value)], canSend);
    }

    method HandleSessionControl(data: seq<byte>, canSend: int)
      requires Repr() && |data| >= 2
      modifies this, tx, link, link.pending
      ensures Repr()
      ensures Is(HandleSession(old(View()), cfg, data), old(Now()), canSend)
    {
      hide SendNrc, SendResponse, SessionReply, Then, Valid, ConfigOk;
      var sub := data[1] % 0x80;
      if sub != 1 && sub != 2 && sub != 3 {
        Refuse(SID_SESSION, SUB_UNKNOWN, canSend);
        return;
      }
      EnterSession(data, canSend);
    }

    method SaveState()
      modifies this`nvm
      ensures View() == old(View()).(nvm := if cfg.saves then Some((session, level)) else old(nvm))
    {
      if cfg.saves {
        nvm := Some((session, level));
      }
    }

    /** Session control past the check of the session identifier. */
    method EnterSession(data: seq<byte>, canSend: int)
      requires Repr() && |data| >= 2 && 1 <= data[1] % 0x80 <= 3
      modifies this, tx, link, link.pending
      ensures Repr()
      ensures Is(HandleSession(old(View()), cfg, data), old(Now()), canSend)
    {
      hide SendNrc, SendResponse, SessionReply, Then, Valid, ConfigOk, HandleSession;
      var sub := data[1] % 0x80;
      log := log + [SessionSet(session, sub)];
      if session != sub || sub == DEFAULT_SESSION {
        level := 0;
      }
      session := sub;
      SessionInOrder(old(View()), View(), cfg, data, old(Now()), canSend);
      ReplyTimings(sub, canSend);
      SaveState();
    }

    method HandleEcuReset(data: seq<byte>, canSend: int)
      requires Repr() && |data| >= 2
      modifies this, tx, link, link.pending
      ensures Repr()
      ensures Is(HandleReset(old(View()), cfg, data), old(Now()), canSend)
    {
      hide SendNrc, SendResponse, Then, Valid, ConfigOk;
      var sub := data[1] % 0x80;
      if sub < 1 || sub > 5 {
        Refuse(SID_RESET, SUB_UNKNOWN, canSend);
        return;
      }
      if data[1] >= 0x80 {
        suppress := true;
        log := log + [Suppressed];
        ThenQuiet(old(Now()), Suppressed, [], canSend);
        return;
      }
      Reply([SID_RESET + 0x40, sub], canSend);
    }

    method HandleTesterPresent(data: seq<byte>, canSend: int)
      requires Repr() && |data| >= 2
      modifies this, tx, link, link.pending
      ensures Repr()
      ensures Is(HandleTester(old(View()), cfg, data), old(Now()), canSend)
    {
      hide SendNrc, SendResponse, Then, Valid, ConfigOk;
      if data[1] % 0x80 == 0 {
        Reply([SID_TESTER + 0x40, 0], canSend);
      } else {
        Refuse(SID_TESTER, SUB_UNKNOWN, canSend);
      }
    }

    /** A key check is logged before its answer. */
    static lemma KeyInOrder(c: Ctx, mid: Ctx, cfg: Config, data: seq<byte>, env: Env, r: Step, was: Trail, canSend: int)
      requires |data| >= 2 && Valid(was.tp)
      requires r == if env.keyRes == 0 then SendResponse(mid, cfg, [SID_SECURITY + 0x40, data[1]])
                    else if mid.attempts >= MaxAttempts(cfg) then SendNrc(mid, cfg, SID_SECURITY, EXCEEDED)
                    else SendNrc(mid, cfg, SID_SECURITY, if env.keyRes < 0 then ToByte(-env.keyRes) else INVALID_KEY)
      requires mid == if env.keyRes == 0 then Unlocked(c, cfg, data[1] % 0x80 / 2)
                      else
                        var c1 := c.(attempts := ToByte(c.attempts + 1));
                        if c1.attempts >= MaxAttempts(cfg)
                        then c1.(delayEnd := (env.now + Delay(cfg)) % 0x1_0000_0000) else c1
      ensures var all := HandleKey(c, cfg, data, env);
              && all.ctx == r.ctx
              && Then(was, all.obs, canSend) ==
                 Then(was.(log := was.log + [KeyChecked(env.now, data[1] % 0x80 / 2, env.keyRes == 0)]), r.obs, canSend)
    {
      hide Then, SendNrc, SendResponse, Unlocked;
      ThenQuiet(was, KeyChecked(env.now, data[1] % 0x80 / 2, env.keyRes == 0), r.obs, canSend);
    }

    method CheckKey(data: seq<byte>, env: Env, canSend: int)
      requires Repr() && |data| >= 2
      modifies this, tx, link, link.pending
      ensures Repr()
      ensures Is(HandleKey(old(View()), cfg, data, env), old(Now()), canSend)
    {
      hide SendNrc, SendResponse, HandleKey, Then, Valid, ConfigOk;
      log := log + [KeyChecked(env.now, data[1] % 0x80 / 2, env.keyRes == 0)];
      if env.keyRes == 0 {
        attempts := 0;
        level := data[1] % 0x80 / 2;
        SaveState();
        KeyInOrder(old(View()), View(), cfg, data, env, SendResponse(View(), cfg, [SID_SECURITY + 0x40, data[1]]),
                   old(Now()), canSend);
        Reply([SID_SECURITY + 0x40, data[1]], canSend);
        return;
      }
      KeyFails(old(View()), data, env, old(Now()), canSend);
    }

    /** The failure of a key check: counter, delay, answer. */
    method KeyFails(ghost c: Ctx, data: seq<byte>, env: Env, ghost was: Trail, canSend: int)
      requires Repr() && |data| >= 2 && env.keyRes != 0 && Valid(was.tp)
      requires View() == c && Now() == was.(log := was.log + [KeyChecked(env.now, data[1] % 0x80 / 2, false)])
      modifies this, tx, link, link.pending
      ensures Repr()
      ensures Is(HandleKey(c, cfg, data, env), was, canSend)
    {
      hide SendNrc, SendResponse, HandleKey, Then, Valid, ConfigOk;
      attempts := ToByte(attempts + 1);
      var maxAttempts := if cfg.maxAttempts != 0 then cfg.maxAttempts else 3;
      if attempts >= maxAttempts {
        var delay := if cfg.delay != 0 then cfg.delay else 10000;
        delayEnd := (env.now + delay) % 0x1_0000_0000;
        KeyInOrder(c, View(), cfg, data, env, SendNrc(View(), cfg, SID_SECURITY, EXCEEDED), was, canSend);
        Refuse(SID_SECURITY, EXCEEDED, canSend);
        return;
      }
      var nrc := if env.keyRes < 0 then ToByte(-env.keyRes) else INVALID_KEY;
      KeyInOrder(c, View(), cfg, data, env, SendNrc(View(), cfg, SID_SECURITY, nrc), was, canSend);
      Refuse(SID_SECURITY, nrc, canSend);
    }

    method HandleSecurityAccess(data: seq<byte>, env: Env, canSend: int)
      requires Repr() && |data| >= 2 && |env.seed| + 2 < 0x1_0000
      modifies this, tx, link, link.pending
      ensures Repr()
      ensures Is(HandleSecurity(old(View()), cfg, data, env), old(Now()), canSend)
    {
      hide SendNrc, SendResponse, HandleKey, Then, Valid, ConfigOk;
      if delayEnd != 0 {
        if env.now < delayEnd {
          Refuse(SID_SECURITY, WAIT_DELAY, canSend);
          return;
        }
        delayEnd := 0;
      }
      if data[1] % 0x80 % 2 != 0 {
        if !cfg.hasSeed {
          Refuse(SID_SECURITY, CONDITIONS, canSend);
        } else if env.seedRes < 0 {
          Refuse(SID_SECURITY, ToByte(-env.seedRes), canSend);
        } else {
          Reply([SID_SECURITY + 0x40, data[1]] + env.seed, canSend);
        }
      } else if !cfg.hasKey {
        Refuse(SID_SECURITY, CONDITIONS, canSend);
      } else {
        CheckKey(data, env, canSend);
      }
    }

    method RunDelegated(sid: byte, env: Env, canSend: int)
      requires Repr() && (env.outcome.Positive? ==> |env.outcome.sdu| < 0x1_0000)
      modifies this, tx, link, link.pending
      ensures Repr()
      ensures Is(HandleDelegated(old(View()), cfg, sid, env), old(Now()), canSend)
    {
      hide SendNrc, SendResponse, Then, Valid, ConfigOk;
      match env.outcome {
        case Positive(sdu) => Reply(sdu, canSend);
        case Negative(nrc) => Refuse(sid, nrc, canSend);
        case Silent =>
          suppress := true;
          log := log + [Suppressed];
          ThenQuiet(old(Now()), Suppressed, [], canSend);
        case Pends => Defer(sid, env, canSend);
      }
    }

    /** What execute_handler does when a handler returns UDS_PENDING. */
    method Defer(sid: byte, env: Env, canSend: int)
      requires Repr() && env.outcome.Pends?
      modifies this, tx, link, link.pending
      ensures Repr()
      ensures Is(HandleDelegated(old(View()), cfg, sid, env), old(Now()), canSend)
    {
      hide SendNrc, SendResponse, Then, Valid, ConfigOk;
      Refuse(sid, PENDING, canSend);
      pending := true;
      star := true;
      p2Start := env.now;
      pendingSid := sid;
    }

    /** find_service: user services first. */
    method FindEntry(sid: byte) returns (r: Option<Service>)
      ensures r == FindService(cfg, sid)
    {
      r := Search(cfg.user, sid);
      if r.None? {
        r := Search(CORE_SERVICES, sid);
      }
    }

    static method Search(ss: seq<Service>, sid: byte) returns (r: Option<Service>)
      ensures r == Find(ss, sid)
    {
      var i := 0;
      while i < |ss|
        invariant 0 <= i <= |ss|
        invariant Find(ss, sid) == Find(ss[i..], sid)
      {
        if ss[i].sid == sid {
          return Some(ss[i]);
        }
        assert ss[i..][1..] == ss[i + 1..];
        i := i + 1;
      }
      return None;
    }

    method ExecuteHandler(s: Service, data: seq<byte>, env: Env, canSend: int)
      requires Repr() && data != [] && (s.handler != Delegated ==> |data| >= 2)
      requires |env.seed| + 2 < 0x1_0000 && (env.outcome.Positive? ==> |env.outcome.sdu| < 0x1_0000)
      modifies this, tx, link, link.pending
      ensures Repr()
      ensures Is(Execute(old(View()), cfg, s, data, env), old(Now()), canSend)
    {
      hide HandleSession, HandleReset, HandleSecurity, HandleTester, HandleDelegated, Then, Valid, ConfigOk;
      match s.handler {
        case SessionHandler => HandleSessionControl(data, canSend);
        case ResetHandler => HandleEcuReset(data, canSend);
        case SecurityHandler => HandleSecurityAccess(data, env, canSend);
        case TesterHandler => HandleTesterPresent(data, canSend);
        case Delegated => RunDelegated(data[0], env, canSend);
      }
    }

    method HandleRequest(data: seq<byte>, env: Env, canSend: int)
      requires Repr() && data != []
      requires |env.seed| + 2 < 0x1_0000 && (env.outcome.Positive? ==> |env.outcome.sdu| < 0x1_0000)
      modifies this, tx, link, link.pending
      ensures Repr()
      ensures Is(Dispatch(old(View()), cfg, data, env), old(Now()), canSend)
    {
      hide Execute, SendNrc, FindService, SessionSupported, SubSupported, Then, Valid;
      var sid := data[0];
      ServiceFound(cfg, sid);
      var found := FindEntry(sid);
      if found.None? {
        Refuse(sid, SERVICE_UNKNOWN, canSend);
        return;
      }
      var s := found.value;
      if !SessionSupported(s, session) {
        Refuse(sid, NOT_IN_SESSION, canSend);
        return;
      }
      if s.subMask.Some? {
        if |data| < 2 {
          Refuse(sid, BAD_LENGTH, canSend);
          return;
        }
        if !SubSupported(s, data[1] % 0x80) {
          Refuse(sid, SUB_UNKNOWN, canSend);
          return;
        }
        suppress := data[1] >= 0x80;
      }
      if |data| < s.minLen {
        Refuse(sid, BAD_LENGTH, canSend);
        return;
      }
      if s.securityMask > level {
        Refuse(sid, DENIED, canSend);
        return;
      }
      if !env.safe {
        Refuse(sid, CONDITIONS, canSend);
        return;
      }
      ExecuteHandler(s, data, env, canSend);
    }

    /** uds_input_sdu. */
    method InputSdu(data: seq<byte>, env: Env, canSend: int)
      requires Repr() && |env.seed| + 2 < 0x1_0000 && (env.outcome.Positive? ==> |env.outcome.sdu| < 0x1_0000)
      modifies this, tx, link, link.pending
      ensures Repr()
      ensures Is(Input(old(View()), cfg, data, env), old(Now()), canSend)
    {
      hide Begin, RejectBusy, Then, Valid, ConfigOk;
      ThenNothing(old(Now()), canSend);
      if data == [] {
        return;
      }
      lastMsg := env.now;
      if pending {
        if data[0] == SID_TESTER && |data| >= 2 && data[1] >= 0x80 {
          return;
        }
        AnswerBusy(data[0], canSend);
        return;
      }
      var answered := TakeAnswer(data);
      assert old(log) + [] == old(log);
      if answered {
        ThenQuiet(old(Now()), ClientHeard(data), [], canSend);
        return;
      }
      Start(data, env, canSend);
    }

    method AnswerBusy(sid: byte, canSend: int)
      requires Repr()
      modifies this, tx, link, link.pending
      ensures Repr()
      ensures Is(RejectBusy(old(View()), cfg, sid), old(Now()), canSend)
    {
      hide SendNrc, Then, Valid, ConfigOk;
      log := log + [Asked(sid)];
      ThenQuiet(old(Now()), Asked(sid), SendNrc(View(), cfg, sid, BUSY).obs, canSend);
      Refuse(sid, BUSY, canSend);
    }

    method Start(data: seq<byte>, env: Env, canSend: int)
      requires Repr() && data != []
      requires |env.seed| + 2 < 0x1_0000 && (env.outcome.Positive? ==> |env.outcome.sdu| < 0x1_0000)
      modifies this, tx, link, link.pending
      ensures Repr()
      ensures Is(Begin(old(View()), cfg, data, env), old(Now()), canSend)
    {
      hide Dispatch, Then, Valid, ConfigOk;
      p2Start := env.now;
      pending := false;
      star := false;
      rcrrp := 0;
      log := log + [Asked(data[0])];
      ThenQuiet(old(Now()), Asked(data[0]), Dispatch(View(), cfg, data, env).obs, canSend);
      HandleRequest(data, env, canSend);
    }

    /** Is this the response to a request of ours? */
    method TakeAnswer(data: seq<byte>) returns (answered: bool)
      requires data != []
      modifies this
      ensures answered <==> AnswersClient(old(View()), data)
      ensures View() == if answered then old(View()).(pendingSid := 0, hasCb := false) else old(View())
      ensures log == old(log) + if answered && old(hasCb) then [ClientHeard(data)] else []
    {
      if pendingSid != 0 {
        var isPos := data[0] == ResponseSid(pendingSid);
        var isNeg := data[0] == 0x7F && |data| >= 2 && data[1] == pendingSid;
        if isPos || isNeg {
          if hasCb {
            log := log + [ClientHeard(data)];
            hasCb := false;
          }
          pendingSid := 0;
          return true;
        }
      }
      return false;
    }

    method CheckSession(now: u32)
      requires Repr()
      modifies this
      ensures var r := SessionTimer(old(View()), now);
              View() == r.ctx && Now() == old(Now()).(log := old(log) + r.obs)
    {
      if session != DEFAULT_SESSION {
        if Elapsed(now, lastMsg) > S3_TIMEOUT {
          log := log + [SessionSet(session, DEFAULT_SESSION)];
          session := DEFAULT_SESSION;
          level := 0;
        }
      }
    }

    /** goesOn is false when a pending request is given up. */
    method CheckResponse(now: u32, canSend: int) returns (goesOn: bool)
      requires Repr()
      modifies this, tx, link, link.pending
      ensures Repr()
      ensures Is(ResponseTimer(old(View()), cfg, now), old(Now()), canSend)
      ensures goesOn <==> !(Expired(old(View()), now) && GivesUp(old(View()), cfg))
    {
      hide SendNrc, Then, Valid, ConfigOk;
      ThenNothing(old(Now()), canSend);
      if pending {
        var elapsed := Elapsed(now, p2Start);
        var limit := if star then p2StarMs else p2Ms;
        if elapsed >= limit {
          if cfg.rcrrpLimit > 0 && rcrrp >= cfg.rcrrpLimit {
            Refuse(pendingSid, CONDITIONS, canSend);
            rcrrp := 0;
            return false;
          }
          Refuse(pendingSid, PENDING, canSend);
          rcrrp := ToU16(rcrrp + 1);
          star := true;
          p2Start := now;
        }
      }
      return true;
    }

    /** uds_process up to the scheduler, which it reaches if goesOn. */
    method Tick(now: u32, canSend: int) returns (goesOn: bool)
      requires Repr()
      modifies this, tx, link, link.pending
      ensures Repr()
      ensures Is(Process(old(View()), cfg, now), old(Now()), canSend)
      ensures goesOn <==> !(Expired(SessionTimer(old(View()), now).ctx, now) && GivesUp(old(View()), cfg))
    {
      hide ResponseTimer, Elapsed, Then, Valid, ConfigOk;
      CheckSession(now);
      ghost var s, t := SessionTimer(old(View()), now), ResponseTimer(View(), cfg, now);
      if s.obs == [] {
        assert [] + t.obs == t.obs && old(log) + [] == old(log);
      } else {
        ThenQuiet(old(Now()), SessionSet(old(session), DEFAULT_SESSION), t.obs, canSend);
      }
      goesOn := CheckResponse(now, canSend);
    }

    /** uds_client_request; code -2 when the request does not fit the buffer, otherwise the transport's. */
    method SendAsClient(sid: byte, data: seq<byte>, callback: bool, canSend: int) returns (code: int)
      requires Repr() && |data| < 0x1_0000
      modifies this, tx, link, link.pending
      ensures Repr()
      ensures Is(ClientRequest(old(View()), cfg, sid, data, callback), old(Now()), canSend)
      ensures code == if |data| + 1 > tx.Length then -2 else Send(old(link.View()), [sid] + data, canSend).code
    {
      hide Send, Then, Valid;
      if |data| + 1 > tx.Length {
        ThenNothing(old(Now()), canSend);
        return -2;
      }
      pendingSid := sid;
      hasCb := callback;
      tx[0] := sid;
      CopyInto(tx, 1, data);
      assert tx[..|data| + 1] == [sid] + data;
      ThenSends(old(Now()), ClientSent([sid] + data), [sid] + data, canSend);
      log := log + [ClientSent([sid] + data)];
      code := link.Transmit(tx[..|data| + 1], canSend);
    }
  }
}
