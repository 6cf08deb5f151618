/** How often the scheduler can transmit an identifier, over runs of ticks and requests. */
module PeriodicRate {
  import opened Bytes
  import opened Periodic

  datatype Event =
    | Pass(now: u32)                               // a scheduler pass
    | Request(ids: seq<byte>, rate: byte, now: u32) // start or change
    | Stopped(ids: seq<byte>)
    | StoppedAll

  function Next(t: Table, e: Event): Table {
    match e
    case Pass(now) => Advance(t, now)
    case Request(ids, rate, now) => InsertAll(t, ids, rate, now).table
    case Stopped(ids) => RemoveAll(t, ids)
    case StoppedAll => map[]
  }

  /** Times at which the scheduler finds id due, and so transmits it if the application has data. */
  function Transmissions(t: Table, evs: seq<Event>, id: byte): seq<u32>
    decreases |evs|
  {
    if evs == [] then []
    else
      (if evs[0].Pass? && Due(t, id, evs[0].now) then [evs[0].now] else [])
       + Transmissions(Next(t, evs[0]), evs[1..], id)
  }

  /** id stays registered at one rate. */
  predicate Steady(t: Table, evs: seq<Event>, id: byte, rate: byte)
    decreases |evs|
  {
    && id in t && t[id].rate == rate
    && (evs != [] ==> Steady(Next(t, evs[0]), evs[1..], id, rate))
  }

  /** The clock of the passes neither goes back nor leaves the window, nor wraps at its end. */
  predicate Within(evs: seq<Event>, from: nat, to: nat) {
    evs == [] ||
    (&& (evs[0].Pass? ==> from <= evs[0].now <= to && evs[0].now + 1000 < 0x1_0000_0000)
     && Within(evs[1..], if evs[0].Pass? then evs[0].now else from, to))
  }

  /** While id stays at its rate, only a scheduler pass at which it is due moves its deadline. */
  lemma DeadlineStep(t: Table, e: Event, id: byte, rate: byte)
    requires id in t && t[id].rate == rate
    requires id in Next(t, e) && Next(t, e)[id].rate == rate
    requires e.Pass? ==> e.now + 1000 < 0x1_0000_0000
    ensures Next(t, e)[id].deadline ==
            if e.Pass? && Due(t, id, e.now) then e.now + Interval(rate) else t[id].deadline
  {
    match e {
      case Pass(now) =>
      case Request(ids, r, now) => InsertAllKeeps(t, ids, r, now, id);
      case Stopped(ids) => RemoveAllKeeps(t, ids, id);
      case StoppedAll =>
    }
  }

  lemma {:induction false} InsertAllKeeps(t: Table, ids: seq<byte>, rate: byte, now: u32, id: byte)
    requires id in t
    ensures id in InsertAll(t, ids, rate, now).table
    ensures InsertAll(t, ids, rate, now).table[id].deadline == t[id].deadline
    decreases |ids|
  {
    if ids != [] && Insert(t, ids[0], rate, now).ok {
      InsertAllKeeps(Insert(t, ids[0], rate, now).table, ids[1..], rate, now, id);
    }
  }

  function Max(a: int, b: int): int { if a >= b then a else b }

  lemma {:induction false} CountFrom(t: Table, evs: seq<Event>, id: byte, rate: byte, from: nat, to: nat)
    requires Steady(t, evs, id, rate) && Within(evs, from, to)
    ensures var n := |Transmissions(t, evs, id)|;
            n > 0 ==> n * Interval(rate) <= to + Interval(rate) - Max(from, t[id].deadline)
    decreases |evs|
  {
    if evs != [] {
      var e, t' := evs[0], Next(t, evs[0]);
      DeadlineStep(t, e, id, rate);
      CountFrom(t', evs[1..], id, rate, if e.Pass? then e.now else from, to);
      var rest := |Transmissions(t', evs[1..], id)|;
      assert (rest + 1) * Interval(rate) == rest * Interval(rate) + Interval(rate);
    }
  }

  /** Rate bound: while an identifier stays registered at one rate, its transmissions in a window of
      length T number at most 1 + T / interval, whatever the ticks and the other requests are. */
  lemma RateBound(t: Table, evs: seq<Event>, id: byte, rate: byte, from: nat, to: nat)
    requires Steady(t, evs, id, rate) && Within(evs, from, to) && from <= to
    ensures |Transmissions(t, evs, id)| <= 1 + (to - from) / Interval(rate)
  {
    CountFrom(t, evs, id, rate, from, to);
    var n, i := |Transmissions(t, evs, id)|, Interval(rate);
    if n > 1 {
      assert n * i == (n - 1) * i + i;
      assert (n - 1) * i <= to - from;
      DivBound(n - 1, to - from, rate);
    }
  }

  lemma DivBound(n: nat, x: nat, rate: byte)
    requires n * Interval(rate) <= x
    ensures n <= x / Interval(rate)
  {
  }

  /** In milliseconds, for the three transmission modes. */
  lemma RateByMode(t: Table, evs: seq<Event>, id: byte, mode: byte, from: nat, to: nat)
    requires 1 <= mode <= 3 && Steady(t, evs, id, mode) && Within(evs, from, to) && from <= to
    ensures |Transmissions(t, evs, id)| <= 1 + (to - from) / [100, 500, 1000][mode - 1]
  {
    RateBound(t, evs, id, mode, from, to);
  }

  /** And no fewer than that: with its deadline past, an identifier is transmitted at the very next pass,
      and from a transmission on at the first pass that comes at least an interval later. */
  lemma NextTransmission(t: Table, id: byte, mode: byte, now: u32, later: u32)
    requires 1 <= mode <= 3 && id in t && t[id].rate == mode && now >= t[id].deadline && now + 1000 < 0x1_0000_0000
    ensures Transmissions(t, [Pass(now), Pass(later)], id) ==
            if later >= now + [100, 500, 1000][mode - 1] then [now, later] else [now]
  {
    var t' := Advance(t, now);
    assert [Pass(now), Pass(later)][1..] == [Pass(later)] && [Pass(later)][1..] == [];
    assert Transmissions(t', [Pass(later)], id) == if later >= t'[id].deadline then [later] else [];
  }
}
