/**
 The UDS core as a function of its context: dispatching a request, the pending-response machine, the
 session timer, session control, security access and ECU reset. A step yields the new context and
 what can be observed of it. The other services appear as the outcome of their handler.
 */
module Core {
  import opened Bytes

  const SID_SESSION := 0x10
  const SID_RESET := 0x11
  const SID_SECURITY := 0x27
  const SID_TESTER := 0x3E

  const BUSY := 0x21
  const CONDITIONS := 0x22
  const PENDING := 0x78
  const SERVICE_UNKNOWN := 0x11
  const SUB_UNKNOWN := 0x12
  const BAD_LENGTH := 0x13
  const DENIED := 0x33
  const INVALID_KEY := 0x35
  const EXCEEDED := 0x36
  const WAIT_DELAY := 0x37
  const NOT_IN_SESSION := 0x7F

  const DEFAULT_SESSION := 1
  const S3_TIMEOUT := 5000

  // ---------------------------------------------------------------------------------------------
  // Services
  // ---------------------------------------------------------------------------------------------

  /** The handler of a service entry; Delegated stands for every handler this model leaves open. */
  datatype Handler = SessionHandler | ResetHandler | SecurityHandler | TesterHandler | Delegated

  datatype Service = Service(
    sid: byte, minLen: u16, sessionMask: byte, securityMask: u16, subMask: Option<seq<byte>>, handler: Handler)

  function Mask(first: byte): Option<seq<byte>> { Some([first] + Zeros(15)) }

  const SECURITY_MASK: Option<seq<byte>> :=
    Some([0xFE, 0xFF, 0xFF, 0xFF, 0xFF, 0xFF, 0xFF, 0xFF, 0xFF, 0xFF, 0xFF, 0xFF, 0xFF, 0xFF, 0xFF, 0xFF])

  const CORE_SERVICES: seq<Service> := [
    Service(0x10, 2, 0xFF, 0, Mask(0x0E), SessionHandler),
    Service(0x11, 2, 0xFF, 0, Mask(0x0E), ResetHandler),
    Service(0x14, 4, 0xFF, 0, None, Delegated),
    Service(0x19, 2, 0xFF, 0, Mask(0x57), Delegated),
    Service(0x22, 3, 0xFF, 0, None, Delegated),
    Service(0x23, 3, 0xFF, 0, None, Delegated),
    Service(0x27, 2, 0xFF, 0, SECURITY_MASK, SecurityHandler),
    Service(0x28, 2, 0xFF, 0, Mask(0x3F), Delegated),
    Service(0x29, 2, 0xFF, 0, None, Delegated),
    Service(0x2E, 3, 0xFF, 0, None, Delegated),
    Service(0x31, 4, 0xFF, 0, Mask(0x0E), Delegated),
    Service(0x34, 4, 0xFF, 0, None, Delegated),
    Service(0x36, 2, 0xFF, 0, None, Delegated),
    Service(0x37, 1, 0xFF, 0, None, Delegated),
    Service(0x3D, 3, 0xFF, 0, None, Delegated),
    Service(0x3E, 2, 0xFF, 0, Mask(0x01), TesterHandler),
    Service(0x85, 2, 0xFF, 0, Mask(0x06), Delegated),
    Service(0x2A, 2, 0xFF, 0, Mask(0x1E), Delegated),
    Service(0x2F, 4, 0xFF, 0, None, Delegated),
    Service(0x35, 4, 0xFF, 0, None, Delegated)]

  predicate ServicesOk(ss: seq<Service>) {
    forall s :: s in ss ==> s.subMask.Some? ==> |s.subMask.value| == 16 && (s.handler != Delegated ==> s.minLen >= 2)
  }

  function Find(ss: seq<Service>, sid: byte): (r: Option<Service>)
    ensures r.Some? ==> r.value in ss && r.value.sid == sid
    ensures r.None? ==> forall s :: s in ss ==> s.sid != sid
  {
    if ss == [] then None
    else if ss[0].sid == sid then Some(ss[0])
    else
      assert ss == [ss[0]] + ss[1..];
      Find(ss[1..], sid)
  }

  /** Entry i is the first of the table with the SID; no entry has it. */
  predicate FirstAt(ss: seq<Service>, sid: byte, i: nat) {
    i < |ss| && ss[i].sid == sid && forall j :: 0 <= j < i ==> ss[j].sid != sid
  }

  predicate NoneAt(ss: seq<Service>, sid: byte) { forall i :: 0 <= i < |ss| ==> ss[i].sid != sid }

  lemma {:induction false} FindIsFirst(ss: seq<Service>, sid: byte)
    ensures forall i: nat :: FirstAt(ss, sid, i) ==> Find(ss, sid) == Some(ss[i])
    ensures Find(ss, sid).None? <==> NoneAt(ss, sid)
    decreases |ss|
  {
    if ss != [] {
      FindIsFirst(ss[1..], sid);
      if ss[0].sid != sid {
        forall i: nat | FirstAt(ss, sid, i) ensures Find(ss, sid) == Some(ss[i]) {
          assert FirstAt(ss[1..], sid, i - 1);
        }
        if NoneAt(ss[1..], sid) {
          forall i | 0 <= i < |ss| ensures ss[i].sid != sid {
            if i > 0 {
              assert ss[1..][i - 1] == ss[i];
            }
          }
        }
        if NoneAt(ss, sid) {
          forall i | 0 <= i < |ss[1..]| ensures ss[1..][i].sid != sid {
            assert ss[1..][i] == ss[i + 1];
          }
        }
      }
    }
  }

  /** Which entry serves a SID: the first user entry that has it; if none does, the first built-in one;
      none only if neither table has it. */
  lemma ServiceLookup(cfg: Config, sid: byte)
    ensures forall i: nat :: FirstAt(cfg.user, sid, i) ==> FindService(cfg, sid) == Some(cfg.user[i])
    ensures forall i: nat :: NoneAt(cfg.user, sid) && FirstAt(CORE_SERVICES, sid, i) ==>
              FindService(cfg, sid) == Some(CORE_SERVICES[i])
    ensures FindService(cfg, sid).None? <==> NoneAt(cfg.user, sid) && NoneAt(CORE_SERVICES, sid)
  {
    FindIsFirst(cfg.user, sid);
    FindIsFirst(CORE_SERVICES, sid);
    hide Find, FirstAt;
    forall i: nat | FirstAt(cfg.user, sid, i) ensures !NoneAt(cfg.user, sid) {
      FirstThere(cfg.user, sid, i);
    }
  }

  lemma FirstThere(ss: seq<Service>, sid: byte, i: nat)
    requires FirstAt(ss, sid, i)
    ensures i < |ss| && !NoneAt(ss, sid)
  {
  }

  /** User services come first and override the built-in ones. */
  function FindService(cfg: Config, sid: byte): Option<Service> {
    if Find(cfg.user, sid).Some? then Find(cfg.user, sid) else Find(CORE_SERVICES, sid)
  }

  /** The bit of a service's session mask that stands for a session: default 0, extended 1,
      programming 2; any other session has none. */
  predicate SessionSupported(s: Service, session: byte) {
    if session == 1 then Bit(s.sessionMask, 0)
    else if session == 2 then Bit(s.sessionMask, 2)
    else if session == 3 then Bit(s.sessionMask, 1)
    else false
  }

  predicate SubSupported(s: Service, sub: byte)
    requires sub < 128 && (s.subMask.Some? ==> |s.subMask.value| == 16)
  {
    s.subMask.None? || Bit(s.subMask.value[sub / 8], sub % 8)
  }

  // ---------------------------------------------------------------------------------------------
  // Configuration, context, observations
  // ---------------------------------------------------------------------------------------------

  datatype Config = Config(
    txSize: u16, p2: u16, p2Star: u32, strict: bool, rcrrpLimit: u16,
    maxAttempts: byte, delay: u32, hasSeed: bool, hasKey: bool,
    p2ServerMax: u16, p2StarServerMax: u16, saves: bool, user: seq<Service>)

  /** What the source asks of a configuration: sub-function masks of 16 bytes, user handlers that
      are the application's own, a buffer that holds what the handlers write unchecked. */
  predicate ConfigOk(cfg: Config) {
    && ServicesOk(cfg.user) && (forall s :: s in cfg.user ==> s.handler == Delegated)
    && cfg.txSize >= 6
  }

  function MaxAttempts(cfg: Config): byte { if cfg.maxAttempts != 0 then cfg.maxAttempts else 3 }
  function Delay(cfg: Config): u32 { if cfg.delay != 0 then cfg.delay else 10000 }

  datatype Ctx = Ctx(
    session: byte, level: byte, lastMsg: u32,
    p2Ms: u16, p2StarMs: u32, p2Start: u32, pending: bool, star: bool, pendingSid: byte, hasCb: bool,
    suppress: bool, rcrrp: u16, attempts: byte, delayEnd: u32,
    nvm: Option<(byte, byte)>) // session and level in the non-volatile memory

  datatype Obs =
    | Asked(sid: byte)                            // a request is dispatched or refused as busy
    | Replied(sdu: seq<byte>)                     // positive response
    | Suppressed                                  // positive response withheld
    | Refused(sid: byte, nrc: byte)               // negative response, 0x78 included
    | KeyChecked(at: u32, level: byte, ok: bool)  // the key callback's verdict
    | SessionSet(from: byte, to: byte)            // session control or S3 timeout
    | ClientSent(sdu: seq<byte>)
    | ClientHeard(sdu: seq<byte>)

  datatype Step = Step(ctx: Ctx, obs: seq<Obs>)

  /** What a delegated handler does: answers once, returns UDS_PENDING, or (the handlers that treat
      the suppress bit themselves) returns without answering and leaves the suppress flag set. */
  datatype Outcome = Positive(sdu: seq<byte>) | Negative(nrc: byte) | Pends | Silent

  /** The environment of one request: clock, safety gate, delegated handler, seed and key callbacks. */
  datatype Env = Env(now: u32, safe: bool, outcome: Outcome, seedRes: int, seed: seq<byte>, keyRes: int)

  /** uds_init, with what the non-volatile memory holds if there is any. */
  function Init(cfg: Config, nvm: Option<(byte, byte)>): Ctx {
    var p2 := if cfg.p2 > 0 then cfg.p2 else 50;
    var star := if cfg.p2Star > 0 then cfg.p2Star else 5000;
    Ctx(if nvm.Some? then nvm.value.0 else DEFAULT_SESSION, if nvm.Some? then nvm.value.1 else 0, 0,
        if cfg.strict && p2 < 20 then 20 else p2, if cfg.strict && star < 1000 then 1000 else star,
        0, false, false, 0, false, false, 0, 0, 0, nvm)
  }

  // ---------------------------------------------------------------------------------------------
  // Responses
  // ---------------------------------------------------------------------------------------------

  /** uds_send_response with the first |sdu| bytes of the transmit buffer. */
  function SendResponse(c: Ctx, cfg: Config, sdu: seq<byte>): Step {
    if |sdu| > cfg.txSize then Step(c, [])
    else if c.suppress then Step(c.(pending := false, suppress := false, rcrrp := 0), [Suppressed])
    else Step(c.(pending := false, rcrrp := 0), [Replied(sdu)])
  }

  /** uds_send_nrc. */
  function SendNrc(c: Ctx, cfg: Config, sid: byte, nrc: byte): Step {
    if cfg.txSize < 3 then Step(c, [])
    else Step(if nrc != PENDING && sid == c.pendingSid then c.(pending := false) else c, [Refused(sid, nrc)])
  }

  // ---------------------------------------------------------------------------------------------
  // Handlers
  // ---------------------------------------------------------------------------------------------

  /** The timing record of the response: P2 in milliseconds, P2* in units of ten. */
  function SessionReply(cfg: Config, sub: byte): seq<byte> {
    var p2: u16 := if cfg.p2ServerMax > 0 then cfg.p2ServerMax else 50;
    var star: u16 := (if cfg.p2StarServerMax > 0 then cfg.p2StarServerMax else 5000) / 10;
    [SID_SESSION + 0x40, sub, Hi(p2), Lo(p2), Hi(star), Lo(star)]
  }

  lemma SessionReplyTimings(cfg: Config, sub: byte)
    ensures var r := SessionReply(cfg, sub);
            var star: int := if cfg.p2StarServerMax > 0 then cfg.p2StarServerMax else 5000;
            var sent: int := Word(r[4], r[5]);
            && |r| == 6 && r[0] == SID_SESSION + 0x40 && r[1] == sub
            && Word(r[2], r[3]) == (if cfg.p2ServerMax > 0 then cfg.p2ServerMax else 50)
            && star - 10 < 10 * sent <= star
  {
  }

  /** What is in the non-volatile memory when session and level are saved, if the application saves them. */
  function Saved(c: Ctx, cfg: Config): Option<(byte, byte)> {
    if cfg.saves then Some((c.session, c.level)) else c.nvm
  }

  /** A session is entered: security is locked again on any change and on every return to default. */
  function Entered(c: Ctx, cfg: Config, sub: byte): Ctx {
    var c1 := c.(session := sub, level := if c.session != sub || sub == DEFAULT_SESSION then 0 else c.level);
    c1.(nvm := Saved(c1, cfg))
  }

  /** A level is unlocked by its key. */
  function Unlocked(c: Ctx, cfg: Config, level: byte): Ctx {
    var c1 := c.(attempts := 0, level := level);
    c1.(nvm := Saved(c1, cfg))
  }

  function HandleSession(c: Ctx, cfg: Config, data: seq<byte>): Step
    requires |data| >= 2
  {
    var sub := data[1] % 0x80;
    if sub != 1 && sub != 2 && sub != 3 then SendNrc(c, cfg, SID_SESSION, SUB_UNKNOWN)
    else
      var r := SendResponse(Entered(c, cfg, sub), cfg, SessionReply(cfg, sub));
      Step(r.ctx, [SessionSet(c.session, sub)] + r.obs)
  }

  function HandleReset(c: Ctx, cfg: Config, data: seq<byte>): Step
    requires |data| >= 2
  {
    var sub := data[1] % 0x80;
    if sub < 1 || sub > 5 then SendNrc(c, cfg, SID_RESET, SUB_UNKNOWN)
    else if data[1] >= 0x80 then Step(c.(suppress := true), [Suppressed])
    else SendResponse(c, cfg, [SID_RESET + 0x40, sub])
  }

  function HandleTester(c: Ctx, cfg: Config, data: seq<byte>): Step
    requires |data| >= 2
  {
    if data[1] % 0x80 == 0 then SendResponse(c, cfg, [SID_TESTER + 0x40, 0])
    else SendNrc(c, cfg, SID_TESTER, SUB_UNKNOWN)
  }

  /** Send key, once the delay is over. */
  function HandleKey(c: Ctx, cfg: Config, data: seq<byte>, env: Env): Step
    requires |data| >= 2
  {
    var level := data[1] % 0x80 / 2;
    var checked := [KeyChecked(env.now, level, env.keyRes == 0)];
    if env.keyRes == 0 then
      var r := SendResponse(Unlocked(c, cfg, level), cfg, [SID_SECURITY + 0x40, data[1]]);
      Step(r.ctx, checked + r.obs)
    else
      var attempts := ToByte(c.attempts + 1);
      var c1 := c.(attempts := attempts);
      var r :=
        if attempts >= MaxAttempts(cfg) then
          SendNrc(c1.(delayEnd := (env.now + Delay(cfg)) % 0x1_0000_0000), cfg, SID_SECURITY, EXCEEDED)
        else SendNrc(c1, cfg, SID_SECURITY, if env.keyRes < 0 then ToByte(-env.keyRes) else INVALID_KEY);
      Step(r.ctx, checked + r.obs)
  }

  function HandleSecurity(c: Ctx, cfg: Config, data: seq<byte>, env: Env): Step
    requires |data| >= 2
  {
    if c.delayEnd != 0 && env.now < c.delayEnd then SendNrc(c, cfg, SID_SECURITY, WAIT_DELAY)
    else
      var c1 := c.(delayEnd := 0);
      if data[1] % 2 != 0 then
        if !cfg.hasSeed then SendNrc(c1, cfg, SID_SECURITY, CONDITIONS)
        else if env.seedRes < 0 then SendNrc(c1, cfg, SID_SECURITY, ToByte(-env.seedRes))
        else SendResponse(c1, cfg, [SID_SECURITY + 0x40, data[1]] + env.seed)
      else if !cfg.hasKey then SendNrc(c1, cfg, SID_SECURITY, CONDITIONS)
      else HandleKey(c1, cfg, data, env)
  }

  function HandleDelegated(c: Ctx, cfg: Config, sid: byte, env: Env): Step {
    match env.outcome
    case Positive(sdu) => SendResponse(c, cfg, sdu)
    case Negative(nrc) => SendNrc(c, cfg, sid, nrc)
    case Silent => Step(c.(suppress := true), [Suppressed])
    case Pends =>
      var r := SendNrc(c, cfg, sid, PENDING);
      Step(r.ctx.(pending := true, star := true, p2Start := env.now, pendingSid := sid), r.obs)
  }

  /** execute_handler. */
  function Execute(c: Ctx, cfg: Config, s: Service, data: seq<byte>, env: Env): Step
    requires data != [] && (s.handler != Delegated ==> |data| >= 2)
  {
    match s.handler
    case SessionHandler => HandleSession(c, cfg, data)
    case ResetHandler => HandleReset(c, cfg, data)
    case SecurityHandler => HandleSecurity(c, cfg, data, env)
    case TesterHandler => HandleTester(c, cfg, data)
    case Delegated => HandleDelegated(c, cfg, data[0], env)
  }

  // ---------------------------------------------------------------------------------------------
  // Steps
  // ---------------------------------------------------------------------------------------------

  lemma CoreServicesOk()
    ensures ServicesOk(CORE_SERVICES)
  {
  }

  lemma ServiceFound(cfg: Config, sid: byte)
    requires ConfigOk(cfg)
    ensures var s := FindService(cfg, sid);
            s.Some? ==>
              && s.value.sid == sid
              && (s.value.subMask.Some? ==> |s.value.subMask.value| == 16)
              && (s.value.handler != Delegated ==> s.value.minLen >= 2)
  {
    CoreServicesOk();
    var s := FindService(cfg, sid);
    if Find(cfg.user, sid).None? && s.Some? {
      CoreHandlerLengths(s.value);
    }
  }

  lemma CoreHandlerLengths(s: Service)
    requires s in CORE_SERVICES
    ensures s.handler != Delegated ==> s.minLen >= 2
  {
  }

  /** handle_request past the sub-function tests: length, security, safety, handler. */
  function Admit(c: Ctx, cfg: Config, s: Service, data: seq<byte>, env: Env): Step
    requires data != [] && (s.handler != Delegated ==> s.minLen >= 2)
  {
    if |data| < s.minLen then SendNrc(c, cfg, data[0], BAD_LENGTH)
    else if s.securityMask > c.level then SendNrc(c, cfg, data[0], DENIED)
    else if !env.safe then SendNrc(c, cfg, data[0], CONDITIONS)
    else Execute(c, cfg, s, data, env)
  }

  /** The request reaches its handler. */
  predicate Reaches(c: Ctx, cfg: Config, s: Service, data: seq<byte>, env: Env) {
    && data != [] && FindService(cfg, data[0]) == Some(s)
    && SessionSupported(s, c.session)
    && (s.subMask.Some? ==> |s.subMask.value| == 16 && |data| >= 2 && SubSupported(s, data[1] % 0x80))
    && |data| >= s.minLen && s.securityMask <= c.level && env.safe
  }

  /** handle_request. */
  function Dispatch(c: Ctx, cfg: Config, data: seq<byte>, env: Env): Step
    requires ConfigOk(cfg) && data != []
  {
    var found := FindService(cfg, data[0]);
    ServiceFound(cfg, data[0]);
    if found.None? then SendNrc(c, cfg, data[0], SERVICE_UNKNOWN)
    else
      var s := found.value;
      if !SessionSupported(s, c.session) then SendNrc(c, cfg, data[0], NOT_IN_SESSION)
      else if s.subMask.None? then Admit(c, cfg, s, data, env)
      else if |data| < 2 then SendNrc(c, cfg, data[0], BAD_LENGTH)
      else if !SubSupported(s, data[1] % 0x80) then SendNrc(c, cfg, data[0], SUB_UNKNOWN)
      else Admit(c.(suppress := data[1] >= 0x80), cfg, s, data, env)
  }

  /** The SID of a positive response: sid | 0x40. */
  function ResponseSid(sid: byte): byte { if sid / 0x40 % 2 == 1 then sid else sid + 0x40 }

  /** The message looks like the response to a request with this SID. */
  predicate Matches(sid: byte, data: seq<byte>)
    requires data != []
  {
    sid != 0 && (data[0] == ResponseSid(sid) || (data[0] == 0x7F && |data| >= 2 && data[1] == sid))
  }

  /** A message taken as the answer to the request this stack sent as a client. */
  predicate AnswersClient(c: Ctx, data: seq<byte>)
    requires data != []
  {
    Matches(c.pendingSid, data)
  }

  predicate SilentTester(data: seq<byte>) { |data| >= 2 && data[0] == SID_TESTER && data[1] >= 0x80 }

  function RejectBusy(c: Ctx, cfg: Config, sid: byte): Step {
    var r := SendNrc(c, cfg, sid, BUSY);
    Step(r.ctx, [Asked(sid)] + r.obs)
  }

  /** Starts the response timer and dispatches. */
  function Begin(c: Ctx, cfg: Config, data: seq<byte>, env: Env): Step
    requires ConfigOk(cfg) && data != []
  {
    var r := Dispatch(c.(p2Start := env.now, pending := false, star := false, rcrrp := 0), cfg, data, env);
    Step(r.ctx, [Asked(data[0])] + r.obs)
  }

  /** uds_input_sdu. */
  function Input(c: Ctx, cfg: Config, data: seq<byte>, env: Env): Step
    requires ConfigOk(cfg)
  {
    if data == [] then Step(c, [])
    else
      var c1 := c.(lastMsg := env.now);
      if c.pending then
        if SilentTester(data) then Step(c1, []) else RejectBusy(c1, cfg, data[0])
      else if AnswersClient(c, data) then
        Step(c1.(pendingSid := 0, hasCb := false), if c.hasCb then [ClientHeard(data)] else [])
      else Begin(c1, cfg, data, env)
  }

  /** The session timer of uds_process. */
  function SessionTimer(c: Ctx, now: u32): Step {
    if c.session != DEFAULT_SESSION && Elapsed(now, c.lastMsg) > S3_TIMEOUT then
      Step(c.(session := DEFAULT_SESSION, level := 0), [SessionSet(c.session, DEFAULT_SESSION)])
    else Step(c, [])
  }

  function ResponseLimit(c: Ctx): u32 { if c.star then c.p2StarMs else c.p2Ms }

  predicate Expired(c: Ctx, now: u32) { c.pending && Elapsed(now, c.p2Start) >= ResponseLimit(c) }

  predicate GivesUp(c: Ctx, cfg: Config) { cfg.rcrrpLimit > 0 && c.rcrrp >= cfg.rcrrpLimit }

  /** The response timer of uds_process. */
  function ResponseTimer(c: Ctx, cfg: Config, now: u32): Step {
    if !Expired(c, now) then Step(c, [])
    else if GivesUp(c, cfg) then
      var r := SendNrc(c, cfg, c.pendingSid, CONDITIONS);
      Step(r.ctx.(rcrrp := 0), r.obs)
    else
      var r := SendNrc(c, cfg, c.pendingSid, PENDING);
      Step(r.ctx.(rcrrp := ToU16(r.ctx.rcrrp + 1), star := true, p2Start := now), r.obs)
  }

  /** uds_process up to the periodic scheduler, which it reaches unless it gives up a request. */
  function Process(c: Ctx, cfg: Config, now: u32): Step {
    var s := SessionTimer(c, now);
    var r := ResponseTimer(s.ctx, cfg, now);
    Step(r.ctx, s.obs + r.obs)
  }

  /** uds_client_request. */
  function ClientRequest(c: Ctx, cfg: Config, sid: byte, data: seq<byte>, hasCb: bool): Step {
    if |data| + 1 > cfg.txSize then Step(c, [])
    else Step(c.(pendingSid := sid, hasCb := hasCb), [ClientSent([sid] + data)])
  }

  // ---------------------------------------------------------------------------------------------
  // Runs
  // ---------------------------------------------------------------------------------------------

  datatype Event =
    | Request(data: seq<byte>, env: Env)
    | Clock(now: u32)
    | Completed(sdu: seq<byte>)       // the application finishes a pending request
    | Failed(sid: byte, nrc: byte)    // or reports its failure
    | AsClient(sid: byte, data: seq<byte>, hasCb: bool)

  function Apply(c: Ctx, cfg: Config, e: Event): Step
    requires ConfigOk(cfg)
  {
    match e
    case Request(data, env) => Input(c, cfg, data, env)
    case Clock(now) => Process(c, cfg, now)
    case Completed(sdu) => SendResponse(c, cfg, sdu)
    case Failed(sid, nrc) => SendNrc(c, cfg, sid, nrc)
    case AsClient(sid, data, hasCb) => ClientRequest(c, cfg, sid, data, hasCb)
  }

  function Run(c: Ctx, cfg: Config, evs: seq<Event>): Step
    requires ConfigOk(cfg)
    decreases |evs|
  {
    if evs == [] then Step(c, [])
    else
      var one := Apply(c, cfg, evs[0]);
      var rest := Run(one.ctx, cfg, evs[1..]);
      Step(rest.ctx, one.obs + rest.obs)
  }
}
