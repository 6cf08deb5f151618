/**
 ReadDataByPeriodicIdentifier (0x2A) and its scheduler: eight slots that implement a map from
 identifiers to rates and deadlines, and how often an identifier is transmitted.
 */
module Periodic {
  import opened Bytes
  import opened Replies

  const SID_PERIODIC := 0x2A
  const SLOTS := 8

  datatype Entry = Entry(rate: byte, deadline: u32)

  /** The registered identifiers. */
  type Table = map<byte, Entry>

  function Interval(rate: byte): u32 { if rate == 1 then 100 else if rate == 2 then 500 else 1000 }

  datatype Added = Added(table: Table, ok: bool)

  /** Registers id, or changes its rate and keeps its deadline; refused when eight others are registered.
      Identifier 0 is never registered, yet accepted while a slot is free. */
  function Insert(t: Table, id: byte, rate: byte, now: u32): Added {
    if id in t then Added(t[id := Entry(rate, t[id].deadline)], true)
    else if |t| >= SLOTS then Added(t, false)
    else if id == 0 then Added(t, true)
    else Added(t[id := Entry(rate, now)], true)
  }

  /** Identifiers are added in order until one is refused; those before it stay. */
  function InsertAll(t: Table, ids: seq<byte>, rate: byte, now: u32): Added
    decreases |ids|
  {
    if ids == [] then Added(t, true)
    else
      var one := Insert(t, ids[0], rate, now);
      if one.ok then InsertAll(one.table, ids[1..], rate, now) else one
  }

  /** What starting a list of identifiers means for one of them: when accepted, a non-zero identifier
      of the list is registered at the new rate, at once if it is new; others are untouched; the
      capacity is kept, and only a full table refuses. */
  lemma {:induction false} InsertAllMeaning(t: Table, ids: seq<byte>, rate: byte, now: u32, x: byte)
    requires |t| <= SLOTS
    ensures var r := InsertAll(t, ids, rate, now);
            && |r.table| <= SLOTS && (!r.ok ==> |r.table| == SLOTS)
            && (x in t ==> x in r.table && r.table[x].deadline == t[x].deadline)
            && (x !in ids ==> (x in r.table <==> x in t) && (x in t ==> r.table[x] == t[x]))
            && (r.ok && x in ids && x != 0 ==>
                  x in r.table && r.table[x].rate == rate && (x !in t ==> r.table[x].deadline == now))
    decreases |ids|
  {
    if ids != [] {
      assert ids == [ids[0]] + ids[1..];
      var one := Insert(t, ids[0], rate, now);
      if one.ok {
        InsertAllMeaning(one.table, ids[1..], rate, now, x);
        if x == ids[0] && x !in ids[1..] && x != 0 {
          assert x in one.table && one.table[x].rate == rate;
        } else if x in ids[1..] && x != 0 && x !in t && x == ids[0] {
          assert one.table[x].deadline == now;
        }
      }
    }
  }

  function RemoveAll(t: Table, ids: seq<byte>): Table
    decreases |ids|
  {
    if ids == [] then t else RemoveAll(t - {ids[0]}, ids[1..])
  }

  lemma {:induction false} RemoveAllKeeps(t: Table, ids: seq<byte>, x: byte)
    ensures x in RemoveAll(t, ids) <==> x in t && x !in ids
    ensures x in RemoveAll(t, ids) ==> RemoveAll(t, ids)[x] == t[x]
    decreases |ids|
  {
    if ids != [] {
      RemoveAllKeeps(t - {ids[0]}, ids[1..], x);
      assert ids == [ids[0]] + ids[1..];
    }
  }

  // ---------------------------------------------------------------------------------------------
  // With a counter that has gone wrong
  // ---------------------------------------------------------------------------------------------

  /** The map and the counter, which ought to be its size. */
  datatype Counted = Counted(table: Table, count: byte)

  datatype PutResult = PutResult(now: Counted, ok: bool)

  predicate Exact(s: Counted) { s.count == |s.table| <= SLOTS }

  /** Registering one identifier, whatever the counter says: it decides on refusal, the slots on whether
      there is room. */
  function Put(s: Counted, id: byte, rate: byte, now: u32): PutResult {
    if id in s.table then PutResult(s.(table := s.table[id := Entry(rate, s.table[id].deadline)]), true)
    else if id == 0 && |s.table| < SLOTS then PutResult(s, true)
    else if s.count >= SLOTS then PutResult(s, false)
    else if |s.table| >= SLOTS then PutResult(s, true)
    else PutResult(Counted(s.table[id := Entry(rate, now)], ToByte(s.count + 1)), true)
  }

  function PutAll(s: Counted, ids: seq<byte>, rate: byte, now: u32): PutResult
    decreases |ids|
  {
    if ids == [] then PutResult(s, true)
    else
      var one := Put(s, ids[0], rate, now);
      if one.ok then PutAll(one.now, ids[1..], rate, now) else one
  }

  /** Stopping one identifier: for identifier 0 the counter goes down once for each free slot. */
  function Drop(s: Counted, id: byte): Counted
    requires |s.table| <= SLOTS
  {
    Counted(s.table - {id},
            ToByte(s.count - if id == 0 then SLOTS - |s.table| else if id in s.table then 1 else 0))
  }

  function DropAll(s: Counted, ids: seq<byte>): Counted
    requires |s.table| <= SLOTS
    decreases |ids|
  {
    if ids == [] then s
    else
      KeysWithout(s.table, ids[0]);
      DropAll(Drop(s, ids[0]), ids[1..])
  }

  /** As long as the counter is exact it decides as the map does, and stays exact. */
  lemma {:induction false} PutAllExact(s: Counted, ids: seq<byte>, rate: byte, now: u32)
    requires Exact(s) && 0 !in s.table
    ensures var r, m := PutAll(s, ids, rate, now), InsertAll(s.table, ids, rate, now);
            Exact(r.now) && r.now.table == m.table && r.ok == m.ok && 0 !in r.now.table
    decreases |ids|
  {
    if ids != [] {
      var one := Put(s, ids[0], rate, now);
      if one.ok {
        PutAllExact(one.now, ids[1..], rate, now);
      }
    }
  }

  lemma {:induction false} DropAllExact(s: Counted, ids: seq<byte>)
    requires Exact(s)
    ensures DropAll(s, ids).table == RemoveAll(s.table, ids) && (0 !in ids ==> Exact(DropAll(s, ids)))
    decreases |ids|
  {
    hide Drop;
    DropAllTable(s, ids);
    if ids != [] && 0 !in ids {
      assert ids[0] in ids && forall x :: x in ids[1..] ==> x in ids;
      DropExact(s, ids[0]);
      DropAllExact(Drop(s, ids[0]), ids[1..]);
    }
  }

  lemma DropExact(s: Counted, id: byte)
    requires Exact(s) && id != 0
    ensures Exact(Drop(s, id))
  {
    KeysWithout(s.table, id);
  }

  lemma {:induction false} DropAllTable(s: Counted, ids: seq<byte>)
    requires |s.table| <= SLOTS
    ensures DropAll(s, ids).table == RemoveAll(s.table, ids) && |DropAll(s, ids).table| <= SLOTS
    decreases |ids|
  {
    if ids != [] {
      KeysWithout(s.table, ids[0]);
      DropAllTable(Drop(s, ids[0]), ids[1..]);
    }
  }

  /** What a stop of identifier 0 leaves of an exact counter, and what follows: with at most three
      identifiers registered every new one is refused until enough are stopped; with four nothing is
      transmitted any more; with five to seven the counter falls short, and a full table accepts new
      identifiers without registering them. A full table is untouched. */
  lemma StopOfZero(s: Counted, id: byte, rate: byte, now: u32)
    requires Exact(s) && 0 !in s.table && id != 0 && id !in s.table
    ensures var r, n := Drop(s, 0), |s.table|;
            && r.table == s.table
            && (n < 4 ==> r.count == 0xF8 + 2 * n && Put(r, id, rate, now) == PutResult(r, false))
            && (n == 4 ==> r.count == 0)
            && (4 < n < SLOTS ==> 0 < r.count == 2 * n - SLOTS < n)
            && (n == SLOTS ==> r == s)
            && (n >= 4 ==> Put(r, id, rate, now).ok == (n < SLOTS))
  {
    assert s.table - {0} == s.table;
  }

  /** A full table whose counter falls short acknowledges new identifiers and forgets them. */
  lemma FullTableForgets(s: Counted, id: byte, rate: byte, now: u32)
    requires |s.table| == SLOTS && id !in s.table
    ensures Put(s, id, rate, now) == PutResult(s, s.count < SLOTS)
  {
  }

  predicate Due(t: Table, id: byte, now: u32) { id in t && now >= t[id].deadline }

  /** What a scheduler pass does to the map: due entries get a new deadline. */
  function Advance(t: Table, now: u32): Table {
    map id | id in t ::
       if Due(t, id, now) then Entry(t[id].rate, (now + Interval(t[id].rate)) % 0x1_0000_0000) else t[id]
  }

  /** A pass at time now: an identifier whose deadline has come gets the next one 100, 500 or 1000 ms
      later, for transmission modes 1, 2 and 3; any other keeps its own. */
  lemma AdvanceByMode(t: Table, id: byte, now: u32)
    requires id in t && 1 <= t[id].rate <= 3
    ensures var e := Advance(t, now)[id];
            && e.rate == t[id].rate
            && (now < t[id].deadline ==> e.deadline == t[id].deadline)
            && (now >= t[id].deadline ==> e.deadline == (now + [100, 500, 1000][t[id].rate - 1]) % 0x1_0000_0000)
  {
  }

  // ---------------------------------------------------------------------------------------------
  // Slots
  // ---------------------------------------------------------------------------------------------

  function Free(ids: seq<byte>): (n: nat)
    ensures n <= |ids|
  {
    if ids == [] then 0 else Free(ids[..|ids| - 1]) + if ids[|ids| - 1] == 0 then 1 else 0
  }

  ghost predicate Distinct(ids: seq<byte>) {
    forall i, j :: 0 <= i < j < |ids| && ids[i] != 0 ==> ids[i] != ids[j]
  }

  function Used(ids: seq<byte>): set<byte> { set j: nat | j < |ids| && ids[j] != 0 :: ids[j] }

  lemma UsedStep(ids: seq<byte>)
    requires Distinct(ids) && ids != []
    ensures var n := |ids| - 1;
            if ids[n] == 0 then Used(ids) == Used(ids[..n])
            else Used(ids) == Used(ids[..n]) + {ids[n]} && ids[n] !in Used(ids[..n])
  {
    var n := |ids| - 1;
    forall x | x in Used(ids[..n]) ensures x in Used(ids) {
      var j: nat :| j < n && ids[..n][j] != 0 && ids[..n][j] == x;
      assert ids[j] == x;
    }
    forall x | x in Used(ids) ensures x in Used(ids[..n]) || x == ids[n] {
      var j: nat :| j <= n && ids[j] != 0 && ids[j] == x;
      assert j < n ==> ids[..n][j] == x;
    }
  }

  lemma {:induction false} SlotCount(ids: seq<byte>)
    requires Distinct(ids)
    ensures |Used(ids)| + Free(ids) == |ids|
  {
    if ids != [] {
      var n := |ids| - 1;
      SlotCount(ids[..n]);
      UsedStep(ids);
    }
  }

  lemma NoneFree(ids: seq<byte>)
    requires forall j :: 0 <= j < |ids| ==> ids[j] != 0
    ensures Free(ids) == 0
  {
    if ids != [] {
      NoneFree(ids[..|ids| - 1]);
    }
  }

  /** The slots of ids, with their rates and deadlines, represent t. */
  ghost predicate Hold(ids: seq<byte>, rates: seq<byte>, deadlines: seq<u32>, t: Table) {
    && |ids| == |rates| == |deadlines| == SLOTS
    && Distinct(ids) && Used(ids) == t.Keys && 0 !in t
    && forall j: nat :: j < SLOTS && ids[j] != 0 ==> t[ids[j]] == Entry(rates[j], deadlines[j])
  }

  /** A scheduled message: the identifier and what the application read for it. */
  datatype Message = Message(id: byte, bytes: seq<byte>)

  ghost predicate DistinctIds(ms: seq<Message>) {
    forall a, b :: 0 <= a < b < |ms| ==> ms[a].id != ms[b].id
  }

  class PeriodicTable {
    const ids: array<byte>
    const rates: array<byte>
    const deadlines: array<u32>
    var count: byte
    ghost var table: Table

    /** The slots hold the map. */
    ghost predicate Slots()
      reads this, ids, rates, deadlines
    {
      && ids.Length == rates.Length == deadlines.Length == SLOTS && ids != rates
      && Hold(ids[..], rates[..], deadlines[..], table)
    }

    ghost predicate Valid()
      reads this, ids, rates, deadlines
    {
      Slots() && count == |table|
    }

    constructor ()
      ensures Valid() && table == map[] && fresh(ids) && fresh(rates) && fresh(deadlines)
    {
      ids, rates := new byte[SLOTS](_ => 0), new byte[SLOTS](_ => 0);
      deadlines := new u32[SLOTS](_ => 0);
      count, table := 0, map[];
    }

    lemma Capacity()
      requires Slots()
      ensures |table| + Free(ids[..]) == SLOTS
    {
      SlotCount(ids[..]);
    }

    /** The first slot that holds id, or SLOTS. */
    method Find(id: byte) returns (i: nat)
      requires Slots()
      ensures i <= SLOTS && (forall k :: 0 <= k < i ==> ids[k] != id) && (i < SLOTS ==> ids[i] == id)
      ensures id != 0 ==> (i < SLOTS <==> id in table)
      ensures id == 0 ==> (i < SLOTS <==> |table| < SLOTS)
    {
      i := 0;
      while i < SLOTS && ids[i] != id
        invariant 0 <= i <= SLOTS
        invariant forall k :: 0 <= k < i ==> ids[k] != id
      {
        i := i + 1;
      }
      Capacity();
      FoundIff(ids[..], id, i);
    }

    /** What the object stands for. */
    ghost function Now(): Counted
      reads this
    {
      Counted(table, count)
    }

    method Add(id: byte, rate: byte, now: u32) returns (ok: bool)
      requires Slots()
      modifies this, ids, rates, deadlines
      ensures Slots() && PutResult(Now(), ok) == Put(old(Now()), id, rate, now)
    {
      Capacity();
      var i := Find(id);
      if i < SLOTS {
        ghost var before := table;
        if id != 0 {
          table := table[id := Entry(rate, deadlines[i])];
        }
        RateHold(ids[..], rates[..], deadlines[..], before, i, rate);
        ghost var rs := rates[..];
        rates[i] := rate;
        assert rates[..] == rs[i := rate];
        return true;
      }
      if count >= SLOTS {
        return false;
      }
      var j := Find(0);
      if j < SLOTS {
        Fill(j, id, rate, now);
      }
      ok := true;
    }

    /** Takes a free slot. */
    method Fill(j: nat, id: byte, rate: byte, now: u32)
      requires Slots() && |table| < SLOTS && j < SLOTS && ids[j] == 0 && id != 0 && id !in table
      modifies this, ids, rates, deadlines
      ensures Slots() && Now() == Counted(old(table)[id := Entry(rate, now)], ToByte(old(count) + 1))
    {
      hide Hold;
      FillHold(ids[..], rates[..], deadlines[..], table, j, id, Entry(rate, now));
      ids[j] := id;
      rates[j] := rate;
      deadlines[j] := now;
      count := ToByte(count + 1);
      table := table[id := Entry(rate, now)];
      assert ids[..] == old(ids[..])[j := id];
      assert rates[..] == old(rates[..])[j := rate];
      assert deadlines[..] == old(deadlines[..])[j := now];
    }

    /** Clears every slot that holds id, taking one off the counter for each. */
    method ClearSlots(id: byte)
      requires ids.Length == SLOTS
      modifies this`count, ids
      ensures ids[..] == Cleared(old(ids[..]), id, SLOTS)
      ensures count == (old(count) - Hits(old(ids[..]), id, SLOTS)) % 0x100
    {
      var j := 0;
      assert ids[..] == Cleared(ids[..], id, 0);
      while j < SLOTS
        invariant 0 <= j <= SLOTS
        invariant ids[..] == Cleared(old(ids[..]), id, j)
        invariant count == (old(count) - Hits(old(ids[..]), id, j)) % 0x100
      {
        assert ids[j] == ids[..][j] == old(ids[..])[j];
        if ids[j] == id {
          ids[j] := 0;
          count := (count - 1) % 0x100;
        }
        j := j + 1;
      }
    }

    /** Stops one identifier. For identifier 0 the counter goes down once for each free slot, so the
        table stays valid exactly when a non-zero identifier is stopped or no slot is free. */
    method Stop(id: byte)
      requires Slots()
      modifies this, ids
      ensures Slots() && |old(table)| <= SLOTS && Now() == Drop(old(Now()), id)
      ensures old(Valid()) ==> (Valid() <==> id != 0 || |table| == SLOTS)
    {
      hide Hold, Hits, Cleared, Free;
      Capacity();
      ClearSlots(id);
      StopHold(old(ids[..]), rates[..], deadlines[..], table, id);
      table := table - {id};
    }

    method StopEverything()
      requires Slots()
      modifies this, ids
      ensures Valid() && table == map[]
    {
      var j := 0;
      while j < SLOTS
        invariant 0 <= j <= SLOTS
        invariant forall k :: 0 <= k < j ==> ids[k] == 0
      {
        ids[j] := 0;
        j := j + 1;
      }
      count := 0;
      table := map[];
    }

    /** uds_internal_handle_periodic_read, on every table, also one whose counter has gone wrong; as long
        as it has not, the request is an operation on the map. */
    method Handle(data: seq<byte>, now: u32) returns (reply: seq<byte>)
      requires Slots() && |data| >= 1
      modifies this, ids, rates, deadlines
      ensures Slots() && |old(table)| <= SLOTS
      ensures if |data| < 2 then reply == Nrc(SID_PERIODIC, NRC_LENGTH) && Now() == old(Now())
              else if data[1] % 16 == 4 then
                reply == [SID_PERIODIC + 0x40] &&
                Now() == if |data| == 2 then Counted(map[], 0) else DropAll(old(Now()), data[2..])
              else if 1 <= data[1] % 16 <= 3 then
                var r := PutAll(old(Now()), data[2..], data[1] % 16, now);
                Now() == r.now && reply == if r.ok then [SID_PERIODIC + 0x40] else Nrc(SID_PERIODIC, NRC_TOO_LONG)
              else reply == Nrc(SID_PERIODIC, NRC_RANGE) && Now() == old(Now())
      ensures old(Valid()) ==>
              && (Valid() || (|data| > 2 && data[1] % 16 == 4 && 0 in data[2..]))
              && (|data| >= 2 && data[1] % 16 == 4 ==>
                  table == if |data| == 2 then map[] else RemoveAll(old(table), data[2..]))
              && (|data| >= 2 && 1 <= data[1] % 16 <= 3 ==>
                  var r := InsertAll(old(table), data[2..], data[1] % 16, now);
                  table == r.table && (reply == [SID_PERIODIC + 0x40] <==> r.ok))
    {
      hide Hold, InsertAll, PutAll, DropAll, RemoveAll;
      Capacity();
      if old(Valid()) && |data| >= 2 {
        PutAllExact(Now(), data[2..], data[1] % 16, now) by { NoZero(); }
        DropAllExact(Now(), data[2..]);
      }
      if |data| < 2 {
        return Nrc(SID_PERIODIC, NRC_LENGTH);
      }
      var mode := data[1] % 16;
      if mode == 4 {
        if |data| == 2 {
          StopEverything();
        } else {
          StopListed(data);
        }
        return [SID_PERIODIC + 0x40];
      }
      if mode < 1 || mode > 3 {
        return Nrc(SID_PERIODIC, NRC_RANGE);
      }
      var ok := AddListed(data, mode, now);
      return if ok then [SID_PERIODIC + 0x40] else Nrc(SID_PERIODIC, NRC_TOO_LONG);
    }

    lemma NoZero()
      requires Slots()
      ensures 0 !in table
    {
    }

    method StopListed(data: seq<byte>)
      requires Slots() && |data| >= 2
      modifies this, ids
      ensures Slots() && |old(table)| <= SLOTS && Now() == DropAll(old(Now()), data[2..])
    {
      hide Hold, Drop;
      Capacity();
      var i := 2;
      while i < |data|
        invariant 2 <= i <= |data| && Slots() && |table| <= SLOTS
        invariant DropAll(old(Now()), data[2..]) == DropAll(Now(), data[i..])
      {
        assert data[i..][1..] == data[i + 1..];
        Stop(data[i]);
        Capacity();
        i := i + 1;
      }
    }

    method AddListed(data: seq<byte>, mode: byte, now: u32) returns (ok: bool)
      requires Slots() && |data| >= 2
      modifies this, ids, rates, deadlines
      ensures Slots() && PutResult(Now(), ok) == PutAll(old(Now()), data[2..], mode, now)
    {
      hide Hold, Put;
      var i := 2;
      while i < |data|
        invariant 2 <= i <= |data| && Slots()
        invariant PutAll(old(Now()), data[2..], mode, now) == PutAll(Now(), data[i..], mode, now)
      {
        ok := Add(data[i], mode, now);
        assert data[i..][1..] == data[i + 1..];
        if !ok {
          return;
        }
        i := i + 1;
      }
      ok := true;
    }

    /** The scheduler pass of uds_process; read gives what the application delivers for an
        identifier, nothing for a failed read. Every due identifier with data is sent, once, unless the
        counter is 0: then nothing is, whatever the slots hold. */
    method Schedule(now: u32, read: byte -> seq<byte>) returns (sent: seq<Message>)
      requires Slots()
      modifies this, deadlines
      ensures Slots() && count == old(count) && table.Keys == old(table).Keys && (old(Valid()) ==> Valid())
      ensures table == if count > 0 || old(Valid()) then Advance(old(table), now) else old(table)
      ensures forall m :: m in sent <==>
                count > 0 && Due(old(table), m.id, now) && read(m.id) != [] && m.bytes == read(m.id)
      ensures DistinctIds(sent)
    {
      hide Hold;
      sent := [];
      NoSlotsUsed(table);
      if count > 0 {
        sent := PassSlots(now, read);
        PassHold(ids[..], rates[..], old(deadlines[..]), table, now);
        SentDue(ids[..], rates[..], old(deadlines[..]), table, now, read);
        table := Advance(table, now);
      }
    }

    method PassSlots(now: u32, read: byte -> seq<byte>) returns (sent: seq<Message>)
      requires ids.Length == rates.Length == deadlines.Length == SLOTS
      modifies deadlines
      ensures deadlines[..] == Passed(ids[..], rates[..], old(deadlines[..]), now, SLOTS)
      ensures sent == Sent(ids[..], old(deadlines[..]), now, read, SLOTS)
    {
      hide Passed, Sent;
      sent := [];
      var i := 0;
      PassNone(ids[..], rates[..], deadlines[..], now, read);
      while i < SLOTS
        invariant 0 <= i <= SLOTS
        invariant deadlines[..] == Passed(ids[..], rates[..], old(deadlines[..]), now, i)
        invariant sent == Sent(ids[..], old(deadlines[..]), now, read, i)
      {
        PassOne(ids[..], rates[..], old(deadlines[..]), now, read, i);
        assert deadlines[i] == deadlines[..][i];
        if ids[i] != 0 {
          if now >= deadlines[i] {
            var bytes := read(ids[i]);
            if bytes != [] {
              sent := sent + [Message(ids[i], bytes)];
            }
            var interval := 1000;
            if rates[i] == 1 {
              interval := 100;
            } else if rates[i] == 2 {
              interval := 500;
            }
            deadlines[i] := (now + interval) % 0x1_0000_0000;
          }
        }
        i := i + 1;
      }
    }
  }

  lemma NoSlotsUsed(t: Table)
    ensures |t| == 0 ==> t == map[]
  {
  }

  /** Deadlines after the scheduler has been through the first n slots. */
  function Passed(ids: seq<byte>, rates: seq<byte>, before: seq<u32>, now: u32, n: nat): (after: seq<u32>)
    requires |ids| == |rates| == |before|
    ensures |after| == |before|
    ensures forall j: nat :: j < |before| ==>
              after[j] == if j < n && ids[j] != 0 && now >= before[j] then (now + Interval(rates[j])) % 0x1_0000_0000
                          else before[j]
  {
    seq(|before|, j requires 0 <= j < |before| =>
      if j < n && ids[j] != 0 && now >= before[j] then (now + Interval(rates[j])) % 0x1_0000_0000 else before[j])
  }

  /** What it has sent by then. */
  function Sent(ids: seq<byte>, before: seq<u32>, now: u32, read: byte -> seq<byte>, n: nat): seq<Message>
    requires n <= |ids| == |before|
  {
    if n == 0 then []
    else
      Sent(ids, before, now, read, n - 1) +
      if ids[n - 1] != 0 && now >= before[n - 1] && read(ids[n - 1]) != [] then [Message(ids[n - 1], read(ids[n - 1]))]
      else []
  }

  lemma PassNone(ids: seq<byte>, rates: seq<byte>, before: seq<u32>, now: u32, read: byte -> seq<byte>)
    requires |ids| == |rates| == |before|
    ensures Passed(ids, rates, before, now, 0) == before && Sent(ids, before, now, read, 0) == []
  {
  }

  /** What the scheduler does at slot i. */
  lemma PassOne(ids: seq<byte>, rates: seq<byte>, before: seq<u32>, now: u32, read: byte -> seq<byte>, i: nat)
    requires i < |ids| == |rates| == |before|
    ensures var due := ids[i] != 0 && now >= before[i];
            && Passed(ids, rates, before, now, i)[i] == before[i]
            && Passed(ids, rates, before, now, i + 1) ==
               (if due then Passed(ids, rates, before, now, i)[i := (now + Interval(rates[i])) % 0x1_0000_0000]
                else Passed(ids, rates, before, now, i))
            && Sent(ids, before, now, read, i + 1) ==
               Sent(ids, before, now, read, i)
               + if due && read(ids[i]) != [] then [Message(ids[i], read(ids[i]))] else []
  {
  }

  lemma PassHold(ids: seq<byte>, rates: seq<byte>, before: seq<u32>, t: Table, now: u32)
    requires Hold(ids, rates, before, t)
    ensures Hold(ids, rates, Passed(ids, rates, before, now, SLOTS), Advance(t, now))
    ensures |Advance(t, now)| == |t|
  {
    var after := Passed(ids, rates, before, now, SLOTS);
    assert Advance(t, now).Keys == t.Keys;
    assert |Advance(t, now)| == |t.Keys|;
    forall j: nat | j < SLOTS && ids[j] != 0
      ensures Advance(t, now)[ids[j]] == Entry(rates[j], after[j])
    {
      assert ids[j] in Used(ids);
    }
  }

  /** Slot j is why m is sent. */
  ghost predicate SentFrom(ids: seq<byte>, before: seq<u32>, now: u32, read: byte -> seq<byte>, m: Message, j: nat)
    requires |ids| == |before|
  {
    j < |ids| && ids[j] != 0 && now >= before[j] && m.id == ids[j] && m.bytes == read(m.id) && m.bytes != []
  }

  lemma {:induction false} SentSlot(
    ids: seq<byte>, before: seq<u32>, now: u32, read: byte -> seq<byte>, n: nat, m: Message) returns (j: nat)
    requires n <= |ids| == |before| && m in Sent(ids, before, now, read, n)
    ensures j < n && SentFrom(ids, before, now, read, m, j)
  {
    if m in Sent(ids, before, now, read, n - 1) {
      j := SentSlot(ids, before, now, read, n - 1, m);
    } else {
      j := n - 1;
    }
  }

  lemma {:induction false} SlotSent(
    ids: seq<byte>, before: seq<u32>, now: u32, read: byte -> seq<byte>, n: nat, m: Message, j: nat)
    requires j < n <= |ids| == |before| && SentFrom(ids, before, now, read, m, j)
    ensures m in Sent(ids, before, now, read, n)
  {
    if j < n - 1 {
      SlotSent(ids, before, now, read, n - 1, m, j);
    }
  }

  lemma {:induction false} SentOnce(ids: seq<byte>, before: seq<u32>, now: u32, read: byte -> seq<byte>, n: nat)
    requires n <= |ids| == |before| && Distinct(ids)
    ensures DistinctIds(Sent(ids, before, now, read, n))
  {
    if n > 0 {
      SentOnce(ids, before, now, read, n - 1);
      var rest := Sent(ids, before, now, read, n - 1);
      var s := Sent(ids, before, now, read, n);
      forall a, b | 0 <= a < b < |s| ensures s[a].id != s[b].id {
        assert s[a] == rest[a];
        if b < |rest| {
          assert s[b] == rest[b];
          assert rest[a].id != rest[b].id;
        } else {
          assert s[b].id == ids[n - 1];
          var j := SentSlot(ids, before, now, read, n - 1, rest[a]);
          assert ids[j] != ids[n - 1];
          assert s[a].id != s[b].id;
        }
      }
    }
  }

  lemma SentDue(ids: seq<byte>, rates: seq<byte>, before: seq<u32>, t: Table, now: u32, read: byte -> seq<byte>)
    requires Hold(ids, rates, before, t)
    ensures var s := Sent(ids, before, now, read, SLOTS);
            && (forall m :: m in s <==> Due(t, m.id, now) && read(m.id) != [] && m.bytes == read(m.id))
            && DistinctIds(s)
  {
    hide Sent;
    SentOnce(ids, before, now, read, SLOTS);
    var s := Sent(ids, before, now, read, SLOTS);
    forall m ensures m in s <==> Due(t, m.id, now) && read(m.id) != [] && m.bytes == read(m.id) {
      if m in s {
        var j := SentSlot(ids, before, now, read, SLOTS, m);
        assert ids[j] in Used(ids);
      }
      if Due(t, m.id, now) && read(m.id) != [] && m.bytes == read(m.id) {
        assert m.id in Used(ids);
        var j: nat :| j < |ids| && ids[j] != 0 && ids[j] == m.id;
        SlotSent(ids, before, now, read, SLOTS, m, j);
      }
    }
  }

  lemma FreeFound(ids: seq<byte>, i: nat)
    requires i < |ids| && ids[i] == 0
    ensures Free(ids) > 0
  {
    if i < |ids| - 1 {
      FreeFound(ids[..|ids| - 1], i);
    }
  }

  lemma FillUsed(ids: seq<byte>, j: nat, id: byte)
    requires Distinct(ids) && j < |ids| && ids[j] == 0 && id != 0 && id !in Used(ids)
    ensures Distinct(ids[j := id]) && Used(ids[j := id]) == Used(ids) + {id}
  {
    var after := ids[j := id];
    forall x | x in Used(ids) + {id} ensures x in Used(after) {
      if x == id {
        assert after[j] == id;
      } else {
        var k: nat :| k < |ids| && ids[k] != 0 && ids[k] == x;
        assert after[k] == x;
      }
    }
    assert forall k: nat :: k < |ids| && ids[k] != 0 ==> ids[k] in Used(ids);
  }

  lemma FillHold(ids: seq<byte>, rates: seq<byte>, deadlines: seq<u32>, t: Table, j: nat, id: byte, e: Entry)
    requires Hold(ids, rates, deadlines, t) && j < SLOTS && ids[j] == 0 && id != 0 && id !in t
    ensures Hold(ids[j := id], rates[j := e.rate], deadlines[j := e.deadline], t[id := e])
  {
    FillUsed(ids, j, id);
    var after := ids[j := id];
    forall k: nat | k < SLOTS && after[k] != 0
      ensures t[id := e][after[k]] == Entry(rates[j := e.rate][k], deadlines[j := e.deadline][k])
    {
      if k != j {
        assert ids[k] in Used(ids);
      }
    }
  }

  function Cleared(ids: seq<byte>, id: byte, n: nat): (r: seq<byte>)
    requires n <= |ids|
    ensures |r| == |ids|
    ensures forall k: nat :: k < |ids| ==> r[k] == if k < n && ids[k] == id then 0 else ids[k]
  {
    seq(|ids|, k requires 0 <= k < |ids| => if k < n && ids[k] == id then 0 else ids[k])
  }

  function Hits(ids: seq<byte>, id: byte, n: nat): nat
    requires n <= |ids|
  {
    if n == 0 then 0 else Hits(ids, id, n - 1) + if ids[n - 1] == id then 1 else 0
  }

  lemma {:induction false} HitsPrefix(ids: seq<byte>, id: byte, n: nat)
    requires Distinct(ids) && n <= |ids|
    ensures if id == 0 then Hits(ids, id, n) == Free(ids[..n])
            else Hits(ids, id, n) == if id in ids[..n] then 1 else 0
  {
    if n > 0 {
      HitsPrefix(ids, id, n - 1);
      assert ids[..n][..n - 1] == ids[..n - 1];
      assert ids[..n] == ids[..n - 1] + [ids[n - 1]];
    }
  }

  lemma HitsTotal(ids: seq<byte>, id: byte)
    requires Distinct(ids)
    ensures Hits(ids, id, |ids|) == if id == 0 then Free(ids) else if id in Used(ids) then 1 else 0
  {
    HitsPrefix(ids, id, |ids|);
    assert ids[..|ids|] == ids;
  }

  lemma ClearedUsed(ids: seq<byte>, id: byte)
    requires Distinct(ids)
    ensures Distinct(Cleared(ids, id, |ids|)) && Used(Cleared(ids, id, |ids|)) == Used(ids) - {id}
  {
    var after := Cleared(ids, id, |ids|);
    forall x | x in Used(ids) - {id} ensures x in Used(after) {
      var k: nat :| k < |ids| && ids[k] != 0 && ids[k] == x;
      assert after[k] == x;
    }
  }

  lemma KeysWithout(t: Table, id: byte)
    ensures |t - {id}| == |t| - if id in t then 1 else 0
  {
    assert (t - {id}).Keys == t.Keys - {id};
    assert |t| == |t.Keys|;
  }

  lemma FoundIff(ids: seq<byte>, id: byte, i: nat)
    requires Distinct(ids) && i <= |ids| && (forall k :: 0 <= k < i ==> ids[k] != id) && (i < |ids| ==> ids[i] == id)
    ensures id != 0 ==> (i < |ids| <==> id in Used(ids))
    ensures id == 0 ==> (i < |ids| <==> Free(ids) > 0)
  {
    if id == 0 && i < |ids| {
      FreeFound(ids, i);
    } else if id == 0 {
      NoneFree(ids);
    }
  }

  lemma RateHold(ids: seq<byte>, rates: seq<byte>, deadlines: seq<u32>, t: Table, i: nat, rate: byte)
    requires Hold(ids, rates, deadlines, t) && i < SLOTS
    ensures ids[i] != 0 ==> ids[i] in t && t[ids[i]].deadline == deadlines[i]
    ensures Hold(ids, rates[i := rate], deadlines, if ids[i] == 0 then t else t[ids[i] := Entry(rate, deadlines[i])])
  {
    if ids[i] != 0 {
      assert ids[i] in Used(ids);
    }
  }

  lemma StopHold(ids: seq<byte>, rates: seq<byte>, deadlines: seq<u32>, t: Table, id: byte)
    requires Hold(ids, rates, deadlines, t)
    ensures Hold(Cleared(ids, id, SLOTS), rates, deadlines, t - {id})
    ensures Hits(ids, id, SLOTS) == if id == 0 then SLOTS - |t| else if id in t then 1 else 0
    ensures |t - {id}| == |t| - if id in t then 1 else 0
    ensures |t| <= SLOTS && (id == 0 ==> id !in t && t - {id} == t)
  {
    ClearedUsed(ids, id);
    HitsTotal(ids, id);
    SlotCount(ids);
    KeysWithout(t, id);
  }
}
