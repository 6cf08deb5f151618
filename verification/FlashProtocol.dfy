/**
 Downloading an image: a stop-and-wait client that repeats a block until it is acknowledged, two
 lossy FIFO channels, and the server's TransferData. Messages carry an auxiliary block number that
 neither side looks at; the server and the client see bytes only.
 */
module FlashProtocol {
  import opened Bytes
  import opened Flash

  /** A message in a channel with, for the proof only, the number of the block it is about. */
  datatype Msg = Msg(bytes: seq<byte>, about: nat)

  datatype System = System(
    image: seq<seq<byte>>, // payloads of the blocks 1, 2, ...
    replay: bool,
    current: nat,          // block the client is sending; |image| + 1 when it is done
    last: byte,            // the server's block sequence counter
    written: seq<Block>,   // what the transfer callback has accepted
    toServer: seq<Msg>,
    toClient: seq<Msg>)

  datatype Event =
    | ClientSends             // first transmission or retry of the current block
    | ServerReceives(res: int) // with the callback's answer, should it be asked
    | ClientReceives
    | RequestLost(i: nat)
    | ReplyLost(i: nat)

  /** The state after an accepted RequestDownload. */
  predicate Initial(s: System) {
    s.current == 1 && s.last == 0 && s.written == [] && s.toServer == [] && s.toClient == []
  }

  function Request(image: seq<seq<byte>>, k: nat): seq<byte>
    requires 1 <= k <= |image|
  {
    [SID_TRANSFER, k % 0x100] + image[k - 1]
  }

  predicate Busy(s: System) { 1 <= s.current <= |s.image| }

  function Without<T>(s: seq<T>, i: nat): seq<T>
    requires i < |s|
  {
    s[..i] + s[i + 1..]
  }

  /** One event; an event that cannot happen changes nothing. */
  function Step(s: System, e: Event): System {
    match e
    case ClientSends =>
      if Busy(s) then s.(toServer := s.toServer + [Msg(Request(s.image, s.current), s.current)]) else s
    case ServerReceives(res) =>
      if s.toServer == [] then s
      else
        var r := Transfer(s.last, s.replay, true, s.toServer[0].bytes, res);
        var written := if r.handed.Some? then s.written + [r.handed.value] else s.written;
        s.(last := r.last, written := written, toServer := s.toServer[1..],
           toClient := s.toClient + [Msg(r.reply, |written|)])
    case ClientReceives =>
      if s.toClient == [] then s
      else if Busy(s) && s.toClient[0].bytes == Accept(s.current % 0x100) then
        s.(current := s.current + 1, toClient := s.toClient[1..])
      else s.(toClient := s.toClient[1..])
    case RequestLost(i) => if i < |s.toServer| then s.(toServer := Without(s.toServer, i)) else s
    case ReplyLost(i) => if i < |s.toClient| then s.(toClient := Without(s.toClient, i)) else s
  }

  function Run(s: System, evs: seq<Event>): System
    decreases |evs|
  {
    if evs == [] then s else Run(Step(s, evs[0]), evs[1..])
  }

  // ---------------------------------------------------------------------------------------------
  // Safety
  // ---------------------------------------------------------------------------------------------

  /** The first n blocks, each with its counter. */
  function Blocks(image: seq<seq<byte>>, n: nat): (b: seq<Block>)
    requires n <= |image|
    ensures |b| == n
  {
    if n == 0 then [] else Blocks(image, n - 1) + [Block(n % 0x100, image[n - 1])]
  }

  lemma {:induction false} BlocksAt(image: seq<seq<byte>>, n: nat, i: nat)
    requires i < n <= |image|
    ensures Blocks(image, n)[i] == Block((i + 1) % 0x100, image[i])
  {
    if i < n - 1 {
      BlocksAt(image, n - 1, i);
    }
  }

  ghost predicate Ordered(ms: seq<Msg>) { forall i, j :: 0 <= i < j < |ms| ==> ms[i].about <= ms[j].about }

  /** A request in flight repeats the last written block or is the next one. */
  ghost predicate RequestOk(s: System, m: Msg) {
    && |s.written| <= m.about <= s.current && m.about <= |s.written| + 1
    && 1 <= m.about <= |s.image| && m.bytes == Request(s.image, m.about)
  }

  /** A positive reply in flight acknowledges a written block, the current one or the one before. */
  ghost predicate ReplyOk(s: System, m: Msg) {
    && m.about <= |s.written|
    && (Positive(m) ==> m.bytes == Accept(m.about % 0x100) && s.current <= m.about + 1)
  }

  /** Negative responses have three bytes. */
  predicate Positive(m: Msg) { |m.bytes| == 2 }

  ghost predicate Inv(s: System) {
    && 1 <= s.current <= |s.image| + 1
    && s.current - 1 <= |s.written| <= s.current && |s.written| <= |s.image|
    && s.last == |s.written| % 0x100
    && s.written == Blocks(s.image, |s.written|)
    && Ordered(s.toServer) && (forall m :: m in s.toServer ==> RequestOk(s, m))
    && Ordered(s.toClient) && (forall m :: m in s.toClient ==> ReplyOk(s, m))
  }

  lemma InvInitially(s: System)
    requires Initial(s)
    ensures Inv(s)
  {
  }

  lemma LossKeepsInv(ms: seq<Msg>, i: nat)
    requires Ordered(ms) && i < |ms|
    ensures Ordered(Without(ms, i)) && (forall m :: m in Without(ms, i) ==> m in ms)
  {
  }

  lemma AppendOrdered(ms: seq<Msg>, m: Msg)
    requires Ordered(ms) && (forall x :: x in ms ==> x.about <= m.about)
    ensures Ordered(ms + [m])
  {
    forall i, j | 0 <= i < j < |ms + [m]| ensures (ms + [m])[i].about <= (ms + [m])[j].about {
      if j == |ms| {
        assert ms[i] in ms;
      }
    }
  }

  lemma TailOrdered(ms: seq<Msg>)
    requires Ordered(ms) && ms != []
    ensures Ordered(ms[1..])
    ensures forall m :: m in ms[1..] ==> m in ms && ms[0].about <= m.about
  {
    forall m | m in ms[1..] ensures m in ms && ms[0].about <= m.about {
      var j :| 0 <= j < |ms[1..]| && ms[1..][j] == m;
      assert ms[1 + j] == m;
    }
  }

  /** What the server makes of a request the invariant allows. */
  lemma ServerAnswers(s: System, m: Msg, res: int)
    requires Inv(s) && RequestOk(s, m)
    ensures var w := |s.written|;
            var r := Transfer(s.last, s.replay, true, m.bytes, res);
            if m.about == w + 1 && res >= 0 then
              && r.handed == Some(Block((w + 1) % 0x100, s.image[w]))
              && r.last == (w + 1) % 0x100 && r.reply == Accept((w + 1) % 0x100)
            else
              && r.handed == None && r.last == s.last
              && (|r.reply| == 2 <==> m.about == w && s.replay && s.last != 0)
              && (|r.reply| == 2 ==> r.reply == Accept(w % 0x100))
  {
    assert m.bytes[0] == SID_TRANSFER && m.bytes[1] == m.about % 0x100;
    assert m.bytes[2..] == s.image[m.about - 1];
  }

  lemma ServerKeepsInv(s: System, res: int)
    requires Inv(s) && s.toServer != []
    ensures Inv(Step(s, ServerReceives(res)))
  {
    var m := s.toServer[0];
    assert m in s.toServer;
    ServerAnswers(s, m, res);
    TailOrdered(s.toServer);
    hide Transfer, Request;
    var s' := Step(s, ServerReceives(res));
    var reply := s'.toClient[|s'.toClient| - 1];
    AppendOrdered(s.toClient, reply);
    forall x | x in s'.toClient ensures ReplyOk(s', x) {
      assert x == reply || x in s.toClient;
    }
  }

  lemma ClientKeepsInv(s: System)
    requires Inv(s) && s.toClient != []
    ensures Inv(Step(s, ClientReceives))
  {
    assert s.toClient[0] in s.toClient;
    TailOrdered(s.toClient);
    hide Request;
  }

  lemma StepKeepsInv(s: System, e: Event)
    requires Inv(s)
    ensures Inv(Step(s, e)) && Step(s, e).image == s.image && Step(s, e).replay == s.replay
  {
    match e {
      case ClientSends =>
        if Busy(s) {
          AppendOrdered(s.toServer, Msg(Request(s.image, s.current), s.current));
          hide Request;
        }
      case ServerReceives(res) => if s.toServer != [] { ServerKeepsInv(s, res); }
      case ClientReceives => if s.toClient != [] { ClientKeepsInv(s); }
      case RequestLost(i) => if i < |s.toServer| { LossKeepsInv(s.toServer, i); }
      case ReplyLost(i) => if i < |s.toClient| { LossKeepsInv(s.toClient, i); }
    }
  }

  lemma {:induction false} RunKeepsInv(s: System, evs: seq<Event>)
    requires Inv(s)
    ensures Inv(Run(s, evs)) && Run(s, evs).image == s.image && Run(s, evs).replay == s.replay
    decreases |evs|
  {
    hide Inv, Step;
    if evs != [] {
      StepKeepsInv(s, evs[0]);
      RunKeepsInv(Step(s, evs[0]), evs[1..]);
    }
  }

  /** Exactly-once, in-order download: after any run, with any losses, repetitions, delays and
      callback failures, what the callback accepted is a prefix of the image, block number k with
      counter k mod 256 whatever the number of counter wraps, and every block the client takes as
      acknowledged is in it. */
  lemma ExactlyOnceInOrder(s: System, evs: seq<Event>)
    requires Initial(s)
    ensures var e := Run(s, evs);
            && e.image == s.image
            && e.current - 1 <= |e.written| <= |s.image|
            && (forall i: nat :: i < |e.written| ==> e.written[i] == Block((i + 1) % 0x100, s.image[i]))
  {
    InvInitially(s);
    RunKeepsInv(s, evs);
    var e := Run(s, evs);
    forall i: nat | i < |e.written| ensures e.written[i] == Block((i + 1) % 0x100, s.image[i]) {
      BlocksAt(s.image, |e.written|, i);
    }
  }

  // ---------------------------------------------------------------------------------------------
  // Progress
  // ---------------------------------------------------------------------------------------------

  /** The current block is written, no acknowledgement of it is on its way, and the server will not
      acknowledge a repetition: replay is off, or the block's counter is 0. */
  ghost predicate Stuck(s: System) {
    && Inv(s) && Busy(s) && |s.written| == s.current
    && !(s.replay && s.current % 0x100 != 0)
    && (forall m :: m in s.toClient && Positive(m) ==> m.about < s.current)
  }

  lemma StuckStep(s: System, e: Event)
    requires Stuck(s)
    ensures Stuck(Step(s, e)) && Step(s, e).current == s.current
  {
    StepKeepsInv(s, e);
    match e {
      case ClientSends =>
      case ServerReceives(res) =>
        if s.toServer != [] {
          assert s.toServer[0] in s.toServer;
          ServerAnswers(s, s.toServer[0], res);
        }
      case ClientReceives =>
        if s.toClient != [] {
          assert s.toClient[0] in s.toClient;
          TailOrdered(s.toClient);
        }
      case RequestLost(i) =>
      case ReplyLost(i) => if i < |s.toClient| { LossKeepsInv(s.toClient, i); }
    }
  }

  lemma {:induction false} StuckForever(s: System, evs: seq<Event>)
    requires Stuck(s)
    ensures Run(s, evs).current == s.current
    decreases |evs|
  {
    hide Stuck, Step;
    if evs != [] {
      StuckStep(s, evs[0]);
      StuckForever(Step(s, evs[0]), evs[1..]);
    }
  }

  lemma {:induction false} RunAppend(s: System, a: seq<Event>, b: seq<Event>)
    ensures Run(s, a + b) == Run(Run(s, a), b)
    decreases |a|
  {
    hide Step;
    if a == [] {
      assert a + b == b;
    } else {
      assert (a + b)[1..] == a[1..] + b;
      RunAppend(Step(s, a[0]), a[1..], b);
    }
  }

  /** Losing everything in flight. */
  lemma {:induction false} Drain(s: System) returns (evs: seq<Event>)
    requires Inv(s)
    ensures Run(s, evs) == s.(toServer := [], toClient := [])
    decreases |s.toServer| + |s.toClient|
  {
    if s.toServer != [] {
      var s' := Step(s, RequestLost(0));
      StepKeepsInv(s, RequestLost(0));
      var rest := Drain(s');
      evs := [RequestLost(0)] + rest;
    } else if s.toClient != [] {
      var s' := Step(s, ReplyLost(0));
      StepKeepsInv(s, ReplyLost(0));
      var rest := Drain(s');
      evs := [ReplyLost(0)] + rest;
    } else {
      evs := [];
    }
  }

  /** From clear channels, one transmission that is answered takes the client to the next block. */
  lemma OneExchange(s: System)
    requires Inv(s) && Busy(s) && s.toServer == [] && s.toClient == []
    requires |s.written| < s.current || (s.replay && s.current % 0x100 != 0)
    ensures Run(s, [ClientSends, ServerReceives(0), ClientReceives]).current == s.current + 1
  {
    var m := Msg(Request(s.image, s.current), s.current);
    var s1 := Step(s, ClientSends);
    assert s1.toServer == [m];
    ServerAnswers(s, m, 0);
    hide Transfer, Request;
    var s2 := Step(s1, ServerReceives(0));
    assert s2.toClient[0].bytes == Accept(s.current % 0x100);
    var s3 := Step(s2, ClientReceives);
    RunThree(s, ClientSends, ServerReceives(0), ClientReceives);
  }

  lemma RunThree(s: System, a: Event, b: Event, c: Event)
    ensures Run(s, [a, b, c]) == Step(Step(Step(s, a), b), c)
  {
    hide Step;
    assert [a, b, c][1..] == [b, c] && [b, c][1..] == [c] && [c][1..] == [];
    assert Run(Step(s, a), [b, c]) == Run(Step(Step(s, a), b), [c]);
  }

  /** An acknowledgement of the current block that is on its way can still arrive. */
  lemma {:induction false} AckArrives(s: System, m: Msg) returns (evs: seq<Event>)
    requires Inv(s) && Busy(s) && m in s.toClient && Positive(m) && m.about >= s.current
    ensures Run(s, evs).current == s.current + 1
    decreases |s.toClient|
  {
    assert m.bytes == Accept(s.current % 0x100);
    var s' := Step(s, ClientReceives);
    StepKeepsInv(s, ClientReceives);
    assert s.toClient == [s.toClient[0]] + s'.toClient;
    if s'.current == s.current + 1 {
      evs := [ClientReceives];
      assert [ClientReceives][1..] == [];
    } else {
      var rest := AckArrives(s', m);
      evs := [ClientReceives] + rest;
    }
  }

  /** When the client can get past its current block: exactly unless it is stuck. So with replay
      acceptance a lost acknowledgement is harmless except for every 256th block. */
  lemma AdvancesIffNotStuck(s: System)
    requires Inv(s) && Busy(s)
    ensures (exists evs :: Run(s, evs).current == s.current + 1) <==> !Stuck(s)
  {
    if Stuck(s) {
      forall evs ensures Run(s, evs).current == s.current {
        StuckForever(s, evs);
      }
    } else if m :| m in s.toClient && Positive(m) && m.about >= s.current {
      var evs := AckArrives(s, m);
    } else {
      var clear := Drain(s);
      var s' := Run(s, clear);
      OneExchange(s');
      RunAppend(s, clear, [ClientSends, ServerReceives(0), ClientReceives]);
    }
  }
}
