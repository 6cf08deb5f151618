/** What the core sends, and how it leaves through the transport. */
module Wiring {
  import opened Bytes
  import opened IsoTp
  import C = Core

  /** The SDU an observation puts on the wire. */
  function Wire(o: C.Obs): seq<seq<byte>> {
    match o
    case Replied(sdu) => [sdu]
    case Refused(sid, nrc) => [[0x7F, sid, nrc]]
    case ClientSent(sdu) => [sdu]
    case _ => []
  }

  function WireAll(obs: seq<C.Obs>): seq<seq<byte>> {
    if obs == [] then [] else Wire(obs[0]) + WireAll(obs[1..])
  }

  /** The core's sends, one after the other; an SDU longer than any buffer does not arise. */
  function SendAll(t: Tp, sdus: seq<seq<byte>>, canSend: int): (r: TickResult)
    requires Valid(t)
    ensures Valid(r.tp) && r.tp.fd == t.fd
    decreases |sdus|
  {
    if sdus == [] then TickResult(t, [])
    else if |sdus[0]| >= 0x1_0000 then SendAll(t, sdus[1..], canSend)
    else
      var one := Send(t, sdus[0], canSend);
      var rest := SendAll(one.tp, sdus[1..], canSend);
      TickResult(rest.tp, one.frames + rest.frames)
  }

  lemma WireOne(o: C.Obs, obs: seq<C.Obs>)
    ensures WireAll([o] + obs) == Wire(o) + WireAll(obs) && WireAll([o]) == Wire(o) && WireAll([]) == []
  {
    assert ([o] + obs)[1..] == obs && [o][1..] == [];
  }

  lemma SendOne(t: Tp, w: seq<byte>, canSend: int)
    requires Valid(t) && |w| < 0x1_0000
    ensures SendAll(t, [w], canSend) == TickResult(Send(t, w, canSend).tp, Send(t, w, canSend).frames)
  {
    hide Send, Valid;
    assert [w][1..] == [];
    assert Send(t, w, canSend).frames + [] == Send(t, w, canSend).frames;
  }

  // --- the wired-up stack over time ----------------------------------------------------------------

  /** What the core has shown, the transport's state, and what the driver has been handed. */
  datatype Trail = Trail(log: seq<C.Obs>, tp: Tp, bus: seq<Frame>)

  /** The core shows obs and whatever of it goes on the wire is sent at once. */
  function Then(was: Trail, obs: seq<C.Obs>, canSend: int): Trail
    requires Valid(was.tp)
  {
    var out := SendAll(was.tp, WireAll(obs), canSend);
    Trail(was.log + obs, out.tp, was.bus + out.frames)
  }

  lemma ThenNothing(was: Trail, canSend: int)
    requires Valid(was.tp)
    ensures Then(was, [], canSend) == was
  {
  }

  /** An observation that sends nothing only lengthens the log. */
  lemma ThenQuiet(was: Trail, o: C.Obs, obs: seq<C.Obs>, canSend: int)
    requires Valid(was.tp) && Wire(o) == []
    ensures Then(was, [o] + obs, canSend) == Then(was.(log := was.log + [o]), obs, canSend)
    ensures Then(was, [o], canSend) == was.(log := was.log + [o])
  {
    hide WireAll, SendAll, Valid;
    WireOne(o, obs);
    assert was.log + ([o] + obs) == was.log + [o] + obs;
    NothingSent(was.tp, canSend);
    assert Wire(o) + WireAll(obs) == WireAll(obs);
    assert was.bus + [] == was.bus;
  }

  lemma NothingSent(t: Tp, canSend: int)
    requires Valid(t)
    ensures SendAll(t, [], canSend) == TickResult(t, [])
  {
  }

  /** One that sends w is one call of the transport. */
  lemma ThenSends(was: Trail, o: C.Obs, w: seq<byte>, canSend: int)
    requires Valid(was.tp) && Wire(o) == [w] && |w| < 0x1_0000
    ensures var out := Send(was.tp, w, canSend);
            Then(was, [o], canSend) == Trail(was.log + [o], out.tp, was.bus + out.frames)
  {
    WireOne(o, []);
    SendOne(was.tp, w, canSend);
  }
}
