/** ReadDataByIdentifier (0x22) and WriteDataByIdentifier (0x2E) over the table of data identifiers. */
module DataById {
  import opened Bytes
  import opened Replies

  const SID_READ := 0x22
  const SID_WRITE := 0x2E

  /** An entry of the table; storage is a position in the application's memory. */
  datatype Did = Did(
    id: u16, size: u16, sessionMask: byte, securityMask: u16,
    hasRead: bool, hasWrite: bool, storage: Option<nat>)

  /** What the read callbacks do in one request: the verdict and the bytes for the k-th identifier. */
  datatype Answers = Answers(verdict: nat -> int, content: (nat, nat) -> byte)

  /** Answers for a request that calls no read callback. */
  const NO_ANSWERS: Answers := Answers((k: nat) => 0, NoContent)

  function NoContent(k: nat, i: nat): byte { 0 }

  /** Everything a request depends on. */
  datatype Env = Env(table: seq<Did>, mem: seq<byte>, txSize: u16, session: byte, level: byte, answers: Answers)

  predicate TableOk(table: seq<Did>, memSize: nat) {
    forall d :: d in table && d.storage.Some? ==> d.storage.value + d.size <= memSize
  }

  ghost predicate EnvOk(e: Env) { TableOk(e.table, |e.mem|) && e.txSize >= 3 && e.session >= 1 }

  /** uds_internal_find_did: the first entry with that identifier. */
  function Lookup(table: seq<Did>, id: u16): (r: Option<Did>)
    ensures r.Some? ==> r.value in table && r.value.id == id
    ensures r.None? ==> forall d :: d in table ==> d.id != id
  {
    if table == [] then None
    else if table[0].id == id then Some(table[0])
    else
      assert table == [table[0]] + table[1..];
      Lookup(table[1..], id)
  }

  /** The session test of an entry uses bit (session - 1) of its mask. */
  predicate SessionAllows(d: Did, session: byte)
    requires session >= 1
  {
    d.sessionMask == 0 || Bit(d.sessionMask, session - 1)
  }

  predicate SecurityAllows(d: Did, level: byte) { d.securityMask == 0 || Bit(d.securityMask, level) }

  // ---------------------------------------------------------------------------------------------
  // Reading
  // ---------------------------------------------------------------------------------------------

  datatype Record = Record(did: u16, value: seq<byte>)
  datatype One = Value(value: seq<byte>) | Refused(nrc: byte)
  datatype Outcome = Positive(records: seq<Record>) | Negative(nrc: byte)

  /** The bytes a callback leaves in the buffer for the k-th identifier. */
  function CallbackBytes(a: Answers, k: nat, n: nat): (s: seq<byte>)
    ensures |s| == n
  {
    seq<byte>(n, i requires 0 <= i < n => a.content(k, i))
  }

  /** What the k-th identifier of a request stands for: the callback's bytes or the stored ones. */
  function TableValue(e: Env, id: u16, k: nat): seq<byte>
    requires EnvOk(e)
  {
    var found := Lookup(e.table, id);
    if found.None? then []
    else if found.value.hasRead then CallbackBytes(e.answers, k, found.value.size)
    else if found.value.storage.None? then []
    else e.mem[found.value.storage.value..found.value.storage.value + found.value.size]
  }

  /** The k-th identifier of a request whose response holds used bytes so far. */
  function ReadOne(e: Env, id: u16, k: nat, used: nat): (r: One)
    requires EnvOk(e)
    ensures r.Value? ==> r.value == TableValue(e, id, k)
    ensures r.Value? ==> Lookup(e.table, id).Some? && |r.value| == Lookup(e.table, id).value.size
    ensures r.Value? ==> used + 2 + |r.value| <= e.txSize
  {
    var found := Lookup(e.table, id);
    if found.None? then Refused(NRC_RANGE)
    else
      var d := found.value;
      if !SessionAllows(d, e.session) then Refused(NRC_RANGE)
      else if !SecurityAllows(d, e.level) then Refused(NRC_SECURITY)
      else if used + d.size + 2 > e.txSize then Refused(NRC_TOO_LONG)
      else if d.hasRead then
        if e.answers.verdict(k) >= 0 then Value(TableValue(e, id, k)) else Refused(ToByte(-e.answers.verdict(k)))
      else if d.storage.Some? then Value(TableValue(e, id, k))
      else Refused(NRC_CONDITIONS)
  }

  /** The records of the identifiers from the k-th on, or the code of the first one refused. */
  function ReadFrom(e: Env, dids: seq<u16>, k: nat, used: nat): Outcome
    requires EnvOk(e) && k <= |dids|
    decreases |dids| - k
  {
    if k == |dids| then Positive([])
    else
      var one := ReadOne(e, dids[k], k, used);
      if one.Refused? then Negative(one.nrc)
      else Prepend([Record(dids[k], one.value)], ReadFrom(e, dids, k + 1, used + 2 + |one.value|))
  }

  /** The outcome once the records done have been read. */
  function Prepend(done: seq<Record>, rest: Outcome): Outcome {
    if rest.Negative? then rest else Positive(done + rest.records)
  }

  /** The identifiers a request asks for; an odd byte at the end is ignored. */
  function Requested(data: seq<byte>): (dids: seq<u16>)
    requires |data| >= 1
    ensures |dids| == (|data| - 1) / 2
    ensures forall k: nat :: k < |dids| ==> dids[k] == Word(data[1 + 2 * k], data[2 + 2 * k])
  {
    seq((|data| - 1) / 2, k requires 0 <= k < (|data| - 1) / 2 => Word(data[1 + 2 * k], data[2 + 2 * k]))
  }

  function Flatten(rs: seq<Record>): seq<byte> {
    if rs == [] then [] else [Hi(rs[0].did), Lo(rs[0].did)] + rs[0].value + Flatten(rs[1..])
  }

  function ReadReply(o: Outcome): seq<byte> {
    if o.Positive? then [SID_READ + 0x40] + Flatten(o.records) else Nrc(SID_READ, o.nrc)
  }

  /** Reading a response back with the sizes of the table. */
  function ParseRecords(table: seq<Did>, bytes: seq<byte>): Option<seq<Record>>
    decreases |bytes|
  {
    if bytes == [] then Some([])
    else if |bytes| < 2 then None
    else
      var id := Word(bytes[0], bytes[1]);
      var found := Lookup(table, id);
      if found.None? || |bytes| < 2 + found.value.size then None
      else
        var rest := ParseRecords(table, bytes[2 + found.value.size..]);
        if rest.None? then None else Some([Record(id, bytes[2..2 + found.value.size])] + rest.value)
  }

  predicate Sized(table: seq<Did>, rs: seq<Record>) {
    rs == [] ||
    (&& Lookup(table, rs[0].did).Some? && |rs[0].value| == Lookup(table, rs[0].did).value.size
     && Sized(table, rs[1..]))
  }

  lemma {:induction false} ParseInvertsFlatten(table: seq<Did>, rs: seq<Record>)
    requires Sized(table, rs)
    ensures ParseRecords(table, Flatten(rs)) == Some(rs)
    decreases |rs|
  {
    if rs != [] {
      hide Lookup, Hi, Lo, Word, Flatten;
      WordOfBytes(rs[0].did);
      FlattenParts(rs);
      ParseInvertsFlatten(table, rs[1..]);
      assert rs == [rs[0]] + rs[1..];
    }
  }

  lemma FlattenParts(rs: seq<Record>)
    requires rs != []
    ensures var f := Flatten(rs);
            var n := |rs[0].value|;
            && |f| >= 2 + n && f[0] == Hi(rs[0].did) && f[1] == Lo(rs[0].did)
            && f[2..2 + n] == rs[0].value && f[2 + n..] == Flatten(rs[1..])
  {
    var head := [Hi(rs[0].did), Lo(rs[0].did)] + rs[0].value;
    assert Flatten(rs) == head + Flatten(rs[1..]);
  }

  lemma WordOfBytes(w: u16)
    ensures Word(Hi(w), Lo(w)) == w
  {
  }

  /** The records a complete response to the identifiers from the k-th on consists of. */
  function TableRecords(e: Env, dids: seq<u16>, k: nat): (rs: seq<Record>)
    requires EnvOk(e) && k <= |dids|
    ensures |rs| == |dids| - k
    decreases |dids| - k
  {
    if k == |dids| then [] else [Record(dids[k], TableValue(e, dids[k], k))] + TableRecords(e, dids, k + 1)
  }

  lemma {:induction false} RecordsFrom(e: Env, dids: seq<u16>, k: nat, used: nat)
    requires EnvOk(e) && k <= |dids| && used <= e.txSize
    ensures var o := ReadFrom(e, dids, k, used);
            o.Positive? ==>
              && o.records == TableRecords(e, dids, k) && Sized(e.table, o.records)
              && used + |Flatten(o.records)| <= e.txSize
    decreases |dids| - k
  {
    if k < |dids| {
      hide ReadOne, Lookup, TableValue, EnvOk, TableOk;
      var one := ReadOne(e, dids[k], k, used);
      if one.Value? {
        RecordsFrom(e, dids, k + 1, used + 2 + |one.value|);
        var rest := ReadFrom(e, dids, k + 1, used + 2 + |one.value|);
        if rest.Positive? {
          assert ([Record(dids[k], one.value)] + rest.records)[1..] == rest.records;
        }
      }
    }
  }

  /** A positive response is the faithful concatenation: one record for each requested identifier, in
      request order, with the value the table gives it; it fits the transmit buffer, and reading it
      back with the sizes of the table yields exactly those records. */
  lemma PositiveIsFaithful(e: Env, data: seq<byte>)
    requires EnvOk(e) && |data| >= 1
    ensures var o := ReadFrom(e, Requested(data), 0, 1);
            o.Positive? ==>
              && o.records == TableRecords(e, Requested(data), 0)
              && |ReadReply(o)| <= e.txSize
              && ParseRecords(e.table, ReadReply(o)[1..]) == Some(o.records)
  {
    RecordsFrom(e, Requested(data), 0, 1);
    var o := ReadFrom(e, Requested(data), 0, 1);
    if o.Positive? {
      ParseInvertsFlatten(e.table, o.records);
      assert ReadReply(o)[1..] == Flatten(o.records);
    }
  }

  /** Bytes the identifiers before the n-th take in the response, when none is refused. */
  function Taken(e: Env, dids: seq<u16>, n: nat): nat
    requires n <= |dids|
  {
    if n == 0 then 1
    else
      var found := Lookup(e.table, dids[n - 1]);
      Taken(e, dids, n - 1) + 2 + if found.Some? then found.value.size else 0
  }

  // --- who may be read, in the fields of the entry -------------------------------------------------

  /** Entry i is the first of the table with the identifier; no entry has it. */
  predicate FirstDid(table: seq<Did>, id: u16, i: nat) {
    i < |table| && table[i].id == id && forall j :: 0 <= j < i ==> table[j].id != id
  }

  predicate NoDid(table: seq<Did>, id: u16) { forall i :: 0 <= i < |table| ==> table[i].id != id }

  lemma {:induction false} LookupIsFirst(table: seq<Did>, id: u16)
    ensures forall i: nat :: FirstDid(table, id, i) ==> Lookup(table, id) == Some(table[i])
    ensures Lookup(table, id).None? <==> NoDid(table, id)
    decreases |table|
  {
    if table != [] {
      LookupIsFirst(table[1..], id);
      if table[0].id != id {
        forall i: nat | FirstDid(table, id, i) ensures Lookup(table, id) == Some(table[i]) {
          assert FirstDid(table[1..], id, i - 1);
        }
        if NoDid(table[1..], id) {
          forall i | 0 <= i < |table| ensures table[i].id != id {
            if i > 0 {
              assert table[1..][i - 1] == table[i];
            }
          }
        }
        if NoDid(table, id) {
          forall i | 0 <= i < |table[1..]| ensures table[1..][i].id != id {
            assert table[1..][i] == table[i + 1];
          }
        }
      }
    }
  }

  /** Bit n of a mask of at most 16 bits. */
  predicate HasBit(mask: u16, n: nat) {
    n < 16 &&
    mask / [1, 2, 4, 8, 0x10, 0x20, 0x40, 0x80, 0x100, 0x200, 0x400, 0x800, 0x1000, 0x2000, 0x4000, 0x8000][n] % 2 == 1
  }

  lemma BitIsHasBit(mask: u16, n: nat)
    ensures Bit(mask, n) <==> HasBit(mask, n)
  {
    if n < 8 {
      LowPowers(n);
    } else if n < 16 {
      HighPowers(n);
    } else {
      HighPowers(15);
      PowerGrows(16, n);
      assert Pow2(16) == 2 * Pow2(15);
      assert mask / Pow2(n) == 0;
    }
  }

  lemma LowPowers(n: nat)
    requires n < 8
    ensures Pow2(n) == [1, 2, 4, 8, 0x10, 0x20, 0x40, 0x80][n]
  {
    assert Pow2(0) == 1 && Pow2(1) == 2 && Pow2(2) == 4 && Pow2(3) == 8;
    assert Pow2(4) == 0x10 && Pow2(5) == 0x20 && Pow2(6) == 0x40 && Pow2(7) == 0x80;
  }

  lemma HighPowers(n: nat)
    requires 8 <= n < 16
    ensures Pow2(n) == [0x100, 0x200, 0x400, 0x800, 0x1000, 0x2000, 0x4000, 0x8000][n - 8]
  {
    LowPowers(7);
    assert Pow2(8) == 0x100 && Pow2(9) == 0x200 && Pow2(10) == 0x400 && Pow2(11) == 0x800;
    assert Pow2(12) == 0x1000 && Pow2(13) == 0x2000 && Pow2(14) == 0x4000 && Pow2(15) == 0x8000;
  }

  lemma {:induction false} PowerGrows(a: nat, b: nat)
    requires a <= b
    ensures Pow2(a) <= Pow2(b)
  {
    if a < b {
      PowerGrows(a, b - 1);
    }
  }

  /** The masks of the entry, 0 standing for everyone. */
  predicate InSession(d: Did, session: byte)
    requires session >= 1
  {
    d.sessionMask == 0 || HasBit(d.sessionMask, session - 1)
  }

  predicate AtLevel(d: Did, level: byte) { d.securityMask == 0 || HasBit(d.securityMask, level) }

  /** The entry has a value to give: its callback succeeds or, if it has none, it has storage. */
  predicate Gives(e: Env, d: Did, k: nat) { if d.hasRead then e.answers.verdict(k) >= 0 else d.storage.Some? }

  /** What the k-th identifier gets when its entry is d and used bytes are taken: the value, or the code
      of the first thing that is wrong. */
  ghost predicate Served(e: Env, d: Did, k: nat, used: nat, one: One)
    requires EnvOk(e) && d in e.table
  {
    var open, trusted, room := InSession(d, e.session), AtLevel(d, e.level), used + 2 + d.size <= e.txSize;
    && (one.Value? <==> open && trusted && room && Gives(e, d, k))
    && (one.Value? && !d.hasRead ==> one.value == e.mem[d.storage.value..d.storage.value + d.size])
    && (one.Value? && d.hasRead ==>
          |one.value| == d.size && forall i: nat :: i < d.size ==> one.value[i] == e.answers.content(k, i))
    && (!open ==> one == Refused(0x31))
    && (open && !trusted ==> one == Refused(0x33))
    && (open && trusted && !room ==> one == Refused(0x14))
    && (open && trusted && room && !Gives(e, d, k) ==>
          one == Refused(if d.hasRead then -e.answers.verdict(k) % 0x100 else 0x22))
  }

  /** The same for an identifier: its entry is the first in the table; without one it is out of range. */
  ghost predicate Judged(e: Env, id: u16, k: nat, used: nat, one: One)
    requires EnvOk(e)
  {
    && (NoDid(e.table, id) ==> one == Refused(0x31))
    && (forall i: nat :: FirstDid(e.table, id, i) ==> Served(e, e.table[i], k, used, one))
  }

  lemma ReadOneJudged(e: Env, id: u16, k: nat, used: nat)
    requires EnvOk(e)
    ensures Judged(e, id, k, used, ReadOne(e, id, k, used))
  {
    hide Bit, HasBit, Lookup, NoDid;
    LookupIsFirst(e.table, id);
    forall i: nat | FirstDid(e.table, id, i) ensures Served(e, e.table[i], k, used, ReadOne(e, id, k, used)) {
      var d := e.table[i];
      BitIsHasBit(d.sessionMask, e.session - 1);
      BitIsHasBit(d.securityMask, e.level);
    }
  }

  /** The identifiers from the k-th up to the n-th, n not included, are all readable. */
  ghost predicate Readable(e: Env, dids: seq<u16>, k: nat, n: nat)
    requires EnvOk(e) && k <= n <= |dids|
    decreases n - k
  {
    k == n ||
    ((exists v :: Judged(e, dids[k], k, Taken(e, dids, k), Value(v))) && Readable(e, dids, k + 1, n))
  }

  lemma {:induction false} FirstFailureFrom(e: Env, dids: seq<u16>, k: nat) returns (n: nat)
    requires EnvOk(e) && k <= |dids|
    ensures k <= n <= |dids| && Readable(e, dids, k, n)
    ensures var o := ReadFrom(e, dids, k, Taken(e, dids, k));
            if n == |dids| then o.Positive?
            else o.Negative? && Judged(e, dids[n], n, Taken(e, dids, n), Refused(o.nrc))
    decreases |dids| - k
  {
    hide ReadOne, Lookup, EnvOk, Judged;
    n := k;
    if k < |dids| {
      var one := ReadOne(e, dids[k], k, Taken(e, dids, k));
      ReadOneJudged(e, dids[k], k, Taken(e, dids, k));
      if one.Value? {
        TakenNext(e, dids, k);
        n := FirstFailureFrom(e, dids, k + 1);
      }
    }
  }

  lemma TakenNext(e: Env, dids: seq<u16>, k: nat)
    requires EnvOk(e) && k < |dids|
    ensures var one := ReadOne(e, dids[k], k, Taken(e, dids, k));
            one.Value? ==> Taken(e, dids, k + 1) == Taken(e, dids, k) + 2 + |one.value|
  {
    hide Bit;
  }

  /** The code of a negative response is that of the first identifier that cannot be read, all those
      before it being readable, as the fields of their entries say; a response is positive exactly when
      every identifier is. */
  lemma FirstFailureDecides(e: Env, data: seq<byte>) returns (n: nat)
    requires EnvOk(e) && |data| >= 1
    ensures var dids := Requested(data);
            var o := ReadFrom(e, dids, 0, 1);
            && n <= |dids| && Readable(e, dids, 0, n)
            && (o.Positive? <==> n == |dids|)
            && (o.Negative? ==> Judged(e, dids[n], n, Taken(e, dids, n), Refused(o.nrc)))
  {
    n := FirstFailureFrom(e, Requested(data), 0);
  }

  // ---------------------------------------------------------------------------------------------
  // Writing
  // ---------------------------------------------------------------------------------------------

  datatype Written = Written(mem: seq<byte>, reply: seq<byte>)

  /** uds_internal_handle_write_data_by_id; res is the verdict of the entry's write callback. */
  function Write(e: Env, data: seq<byte>, res: int): Written
    requires EnvOk(e) && |data| < 0x1_0000
  {
    if |data| < 3 then Written(e.mem, Nrc(SID_WRITE, NRC_LENGTH))
    else
      var found := Lookup(e.table, Word(data[1], data[2]));
      if found.None? then Written(e.mem, Nrc(SID_WRITE, NRC_RANGE))
      else
        var d := found.value;
        if !SessionAllows(d, e.session) then Written(e.mem, Nrc(SID_WRITE, NRC_RANGE))
        else if !SecurityAllows(d, e.level) then Written(e.mem, Nrc(SID_WRITE, NRC_SECURITY))
        else if |data| != 3 + d.size then Written(e.mem, Nrc(SID_WRITE, NRC_LENGTH))
        else if d.hasWrite then
          Written(e.mem, if res == 0 then Accepted(data) else Nrc(SID_WRITE, NRC_CONDITIONS))
        else if d.storage.Some? then Written(Patch(e.mem, d.storage.value, data[3..]), Accepted(data))
        else Written(e.mem, Nrc(SID_WRITE, NRC_CONDITIONS))
  }

  /** What a write request gets when its entry is d: stored and acknowledged, or the code of the first
      thing that is wrong, with the memory as it was. */
  ghost predicate Stored(e: Env, d: Did, data: seq<byte>, res: int, w: Written)
    requires EnvOk(e) && d in e.table && |data| >= 3
  {
    var open, trusted, fits := InSession(d, e.session), AtLevel(d, e.level), |data| == 3 + d.size;
    var takes := if d.hasWrite then res == 0 else d.storage.Some?;
    && |w.mem| == |e.mem|
    && (open && trusted && fits && takes ==>
          && w.reply == [0x6E, data[1], data[2]]
          && (!d.hasWrite ==>
                && w.mem[..d.storage.value] == e.mem[..d.storage.value]
                && w.mem[d.storage.value..d.storage.value + d.size] == data[3..]
                && w.mem[d.storage.value + d.size..] == e.mem[d.storage.value + d.size..]))
    && (!(open && trusted && fits && takes) || d.hasWrite ==> w.mem == e.mem)
    && (!open ==> w.reply == [0x7F, 0x2E, 0x31])
    && (open && !trusted ==> w.reply == [0x7F, 0x2E, 0x33])
    && (open && trusted && !fits ==> w.reply == [0x7F, 0x2E, 0x13])
    && (open && trusted && fits && !takes ==> w.reply == [0x7F, 0x2E, 0x22])
  }

  lemma WriteJudged(e: Env, data: seq<byte>, res: int)
    requires EnvOk(e) && |data| < 0x1_0000
    ensures var w := Write(e, data, res);
            && (|data| < 3 ==> w == Written(e.mem, [0x7F, 0x2E, 0x13]))
            && (|data| >= 3 ==>
                  var high: int := data[1];
                  var id: u16 := high * 256 + data[2];
                  && (NoDid(e.table, id) ==> w == Written(e.mem, [0x7F, 0x2E, 0x31]))
                  && (forall i: nat :: FirstDid(e.table, id, i) ==> Stored(e, e.table[i], data, res, w)))
  {
    hide Bit, HasBit, Lookup, NoDid, Patch;
    if |data| >= 3 {
      var id := Word(data[1], data[2]);
      LookupIsFirst(e.table, id);
      forall i: nat | FirstDid(e.table, id, i) ensures Stored(e, e.table[i], data, res, Write(e, data, res)) {
        var d := e.table[i];
        BitIsHasBit(d.sessionMask, e.session - 1);
        BitIsHasBit(d.securityMask, e.level);
      }
    }
  }

  function Accepted(data: seq<byte>): seq<byte>
    requires |data| >= 3
  {
    [SID_WRITE + 0x40, data[1], data[2]]
  }

  /** Unique identifiers, separate storage, no callbacks. */
  ghost predicate PlainTable(table: seq<Did>) {
    && (forall i, j :: 0 <= i < j < |table| ==> table[i].id != table[j].id)
    && (forall d :: d in table ==> !d.hasRead && !d.hasWrite)
    && (forall c, d :: c in table && d in table && c != d && c.storage.Some? && d.storage.Some? ==>
          c.storage.value + c.size <= d.storage.value || d.storage.value + d.size <= c.storage.value)
  }

  /** What a positive response to a write says about the request. */
  lemma AcceptedWrite(e: Env, data: seq<byte>, res: int)
    requires EnvOk(e) && |data| < 0x1_0000 && PlainTable(e.table)
    requires Write(e, data, res).reply[0] == SID_WRITE + 0x40
    ensures |data| >= 3
    ensures var found := Lookup(e.table, Word(data[1], data[2]));
            && found.Some? && found.value.storage.Some? && |data| == 3 + found.value.size
            && found.value.storage.value + found.value.size <= |e.mem|
            && Write(e, data, res).mem == Patch(e.mem, found.value.storage.value, data[3..])
  {
    hide Bit, Patch, Word, SessionAllows, SecurityAllows;
  }

  /** One identifier after a write: the written one reads as the new bytes, any other as before. */
  lemma ReadOneAfterWrite(e: Env, data: seq<byte>, res: int, id: u16, k: nat, used: nat)
    requires EnvOk(e) && |data| < 0x1_0000 && PlainTable(e.table)
    requires Write(e, data, res).reply[0] == SID_WRITE + 0x40
    ensures |data| >= 3
    ensures var before := ReadOne(e, id, k, used);
            var after := ReadOne(e.(mem := Write(e, data, res).mem), id, k, used);
            after == if before.Value? && id == Word(data[1], data[2]) then Value(data[3..]) else before
  {
    hide Bit, Lookup, Patch, Write, Word, SessionAllows, SecurityAllows, CallbackBytes;
    AcceptedWrite(e, data, res);
    var d := Lookup(e.table, Word(data[1], data[2])).value;
    var found := Lookup(e.table, id);
    if found.Some? && found.value.storage.Some? {
      var c := found.value;
      var at, n := c.storage.value, c.size;
      var mem := Patch(e.mem, d.storage.value, data[3..]);
      if c == d {
        assert mem[at..at + n] == data[3..];
      } else {
        PatchElsewhere(e.mem, d.storage.value, data[3..], at, n);
      }
    }
  }

  lemma PatchElsewhere(s: seq<byte>, at: nat, src: seq<byte>, other: nat, n: nat)
    requires at + |src| <= |s| && other + n <= |s|
    requires other + n <= at || at + |src| <= other
    ensures Patch(s, at, src)[other..other + n] == s[other..other + n]
  {
    var p := Patch(s, at, src);
    if other + n <= at {
      SliceOfPrefix(p, at, other, other + n);
      SliceOfPrefix(s, at, other, other + n);
    } else {
      var b := at + |src|;
      SliceOfSuffix(p, b, other, other + n);
      SliceOfSuffix(s, b, other, other + n);
    }
  }

  /** The records rs with the value of identifier id replaced. */
  function Rewritten(rs: seq<Record>, id: u16, value: seq<byte>): seq<Record> {
    if rs == [] then []
    else [if rs[0].did == id then Record(id, value) else rs[0]] + Rewritten(rs[1..], id, value)
  }

  lemma {:induction false} ReadAfterWriteFrom(e: Env, data: seq<byte>, res: int, dids: seq<u16>, k: nat, used: nat)
    requires EnvOk(e) && |data| < 0x1_0000 && PlainTable(e.table) && k <= |dids|
    requires Write(e, data, res).reply[0] == SID_WRITE + 0x40
    ensures |data| >= 3
    ensures var before := ReadFrom(e, dids, k, used);
            var after := ReadFrom(e.(mem := Write(e, data, res).mem), dids, k, used);
            after == AfterWrite(before, Word(data[1], data[2]), data[3..])
    decreases |dids| - k
  {
    hide Write, ReadOne, Lookup, PlainTable, EnvOk, TableOk, Word, ReadFrom, Prepend, Rewritten;
    WriteLength(e, data, res);
    WriteKeepsEnv(e, data, res);
    var e' := e.(mem := Write(e, data, res).mem);
    if k < |dids| {
      var one := ReadOne(e, dids[k], k, used);
      Unfold(e, dids, k, used);
      Unfold(e', dids, k, used);
      ReadOneAfterWrite(e, data, res, dids[k], k, used);
      if one.Value? {
        var next := used + 2 + |one.value|;
        WriteSize(e, data, res, dids[k], k, used);
        ReadAfterWriteFrom(e, data, res, dids, k + 1, next);
        PrependRewritten(Record(dids[k], one.value), ReadFrom(e, dids, k + 1, next), Word(data[1], data[2]), data[3..]);
      }
    } else {
      Unfold(e, dids, k, used);
      Unfold(e', dids, k, used);
      RewrittenNone(Word(data[1], data[2]), data[3..]);
    }
  }

  lemma Unfold(e: Env, dids: seq<u16>, k: nat, used: nat)
    requires EnvOk(e) && k <= |dids|
    ensures k == |dids| ==> ReadFrom(e, dids, k, used) == Positive([])
    ensures k < |dids| ==>
              var one := ReadOne(e, dids[k], k, used);
              ReadFrom(e, dids, k, used) ==
              if one.Refused? then Negative(one.nrc)
              else Prepend([Record(dids[k], one.value)], ReadFrom(e, dids, k + 1, used + 2 + |one.value|))
  {
    hide ReadOne, EnvOk;
  }

  lemma RewrittenNone(id: u16, value: seq<byte>)
    ensures Rewritten([], id, value) == []
  {
  }

  /** The outcome before a write as it reads after it. */
  function AfterWrite(o: Outcome, id: u16, value: seq<byte>): Outcome {
    if o.Negative? then o else Positive(Rewritten(o.records, id, value))
  }

  lemma PrependRewritten(r: Record, rest: Outcome, id: u16, value: seq<byte>)
    ensures AfterWrite(Prepend([r], rest), id, value) ==
            Prepend([if r.did == id then Record(id, value) else r], AfterWrite(rest, id, value))
  {
    if rest.Positive? {
      RewrittenCons(r, rest.records, id, value);
    }
  }

  lemma RewrittenCons(r: Record, rs: seq<Record>, id: u16, value: seq<byte>)
    ensures Rewritten([r] + rs, id, value) == [if r.did == id then Record(id, value) else r] + Rewritten(rs, id, value)
  {
    assert ([r] + rs)[1..] == rs;
  }

  lemma WriteKeepsEnv(e: Env, data: seq<byte>, res: int)
    requires EnvOk(e) && |data| < 0x1_0000
    ensures EnvOk(e.(mem := Write(e, data, res).mem))
  {
    hide Bit, Lookup;
  }

  lemma WriteLength(e: Env, data: seq<byte>, res: int)
    requires EnvOk(e) && |data| < 0x1_0000
    requires Write(e, data, res).reply[0] == SID_WRITE + 0x40
    ensures |data| >= 3
  {
  }

  lemma WriteSize(e: Env, data: seq<byte>, res: int, id: u16, k: nat, used: nat)
    requires EnvOk(e) && |data| < 0x1_0000
    requires Write(e, data, res).reply[0] == SID_WRITE + 0x40
    requires ReadOne(e, id, k, used).Value?
    ensures |data| >= 3
    ensures id == Word(data[1], data[2]) ==> |ReadOne(e, id, k, used).value| == |data| - 3
  {
    hide Bit, Lookup;
  }

  /** Write then read: after an accepted write, any read request, for any list of identifiers, gets
      the same response as before with the new bytes in place of the old ones for the written
      identifier; a refused write changes no byte of the memory. */
  lemma WriteThenRead(e: Env, data: seq<byte>, res: int, request: seq<byte>)
    requires EnvOk(e) && |data| < 0x1_0000 && PlainTable(e.table) && |request| >= 1
    ensures var w := Write(e, data, res);
            if w.reply[0] != SID_WRITE + 0x40 then w.mem == e.mem
            else
              && |data| >= 3
              && var before := ReadFrom(e, Requested(request), 0, 1);
                 var after := ReadFrom(e.(mem := w.mem), Requested(request), 0, 1);
                 after == AfterWrite(before, Word(data[1], data[2]), data[3..])
  {
    if Write(e, data, res).reply[0] == SID_WRITE + 0x40 {
      ReadAfterWriteFrom(e, data, res, Requested(request), 0, 1);
    }
  }

  // ---------------------------------------------------------------------------------------------
  // The handlers
  // ---------------------------------------------------------------------------------------------

  class DataService {
    const table: seq<Did>
    const tx: array<byte>
    const mem: array<byte>

    ghost predicate Repr()
      reads mem
    {
      tx != mem && TableOk(table, mem.Length) && 3 <= tx.Length < 0x1_0000
    }

    ghost function View(session: byte, level: byte, answers: Answers): Env
      reads mem
    {
      Env(table, mem[..], if tx.Length < 0x1_0000 then tx.Length else 0, session, level, answers)
    }

    constructor (table: seq<Did>, tx: array<byte>, mem: array<byte>)
      requires tx != mem && TableOk(table, mem.Length) && 3 <= tx.Length < 0x1_0000
      ensures Repr() && this.table == table && this.tx == tx && this.mem == mem
    {
      this.table, this.tx, this.mem := table, tx, mem;
    }

    method FindDid(id: u16) returns (r: Option<Did>)
      ensures r == Lookup(table, id)
    {
      var i := 0;
      while i < |table|
        invariant 0 <= i <= |table|
        invariant Lookup(table, id) == Lookup(table[i..], id)
      {
        if table[i].id == id {
          return Some(table[i]);
        }
        assert table[i..][1..] == table[i + 1..];
        i := i + 1;
      }
      return None;
    }

    method Put(at: nat, src: seq<byte>)
      requires 1 <= at && at + |src| <= tx.Length
      modifies tx
      ensures tx[1..at + |src|] == old(tx[1..at]) + src
    {
      ghost var before := tx[..];
      CopyInto(tx, at, src);
      assert tx[1..at + |src|] == tx[..at][1..] + tx[at..at + |src|];
      assert tx[..at] == tx[..][..at] == before[..at];
      assert tx[at..at + |src|] == tx[..][at..at + |src|];
    }

    /** Builds the record of one identifier in the transmit buffer at txLen. */
    method AppendRecord(id: u16, k: nat, txLen: nat, session: byte, level: byte, answers: Answers)
      returns (nrc: Option<byte>, newLen: nat)
      requires Repr() && session >= 1 && 1 <= txLen <= tx.Length
      modifies tx
      ensures match ReadOne(View(session, level, answers), id, k, txLen)
              case Refused(code) => nrc == Some(code)
              case Value(v) =>
                && nrc == None && newLen == txLen + 2 + |v| <= tx.Length
                && tx[1..newLen] == old(tx[1..txLen]) + [Hi(id), Lo(id)] + v
    {
      hide Bit, Patch, Hi, Lo, Lookup;
      newLen := txLen;
      var entry := FindDid(id);
      if entry.None? {
        return Some(NRC_RANGE), newLen;
      }
      var d := entry.value;
      if d.sessionMask != 0 && !Bit(d.sessionMask, session - 1) {
        return Some(NRC_RANGE), newLen;
      }
      if d.securityMask != 0 && !Bit(d.securityMask, level) {
        return Some(NRC_SECURITY), newLen;
      }
      if txLen + d.size + 2 > tx.Length {
        return Some(NRC_TOO_LONG), newLen;
      }
      Put(txLen, [Hi(id), Lo(id)]);
      var value: seq<byte>;
      if d.hasRead {
        var verdict := answers.verdict(k);
        if verdict < 0 {
          return Some(ToByte(-verdict)), newLen;
        }
        value := CallbackBytes(answers, k, d.size);
      } else if d.storage.Some? {
        value := mem[d.storage.value..d.storage.value + d.size];
      } else {
        return Some(NRC_CONDITIONS), newLen;
      }
      Put(txLen + 2, value);
      newLen := txLen + 2 + d.size;
      nrc := None;
    }

    /** uds_internal_handle_read_data_by_id. */
    method Read(data: seq<byte>, session: byte, level: byte, answers: Answers) returns (reply: seq<byte>)
      requires Repr() && session >= 1 && |data| >= 1
      modifies tx
      ensures Repr() && mem[..] == old(mem[..])
      ensures reply == ReadReply(ReadFrom(old(View(session, level, answers)), Requested(data), 0, 1))
    {
      hide ReadOne, Flatten, Word, ReadFrom, Prepend, Hi, Lo;
      ghost var e := View(session, level, answers);
      ghost var dids := Requested(data);
      FlattenNone();
      PrependNothing(ReadFrom(e, dids, 0, 1));
      ghost var done: seq<Record> := [];
      var txLen, i := 1, 1;
      while i + 1 < |data|
        invariant i % 2 == 1 && 1 <= i <= |data|
        invariant 1 <= txLen <= tx.Length && mem[..] == e.mem
        invariant tx[1..txLen] == Flatten(done)
        invariant var k := (i - 1) / 2; ReadFrom(e, dids, 0, 1) == Prepend(done, ReadFrom(e, dids, k, txLen))
      {
        ghost var k := (i - 1) / 2;
        var did := Word(data[i], data[i + 1]);
        assert did == dids[k];
        Unfold(e, dids, k, txLen);
        PrependFails(done, ReadFrom(e, dids, k, txLen));
        var nrc, newLen := AppendRecord(did, (i - 1) / 2, txLen, session, level, answers);
        if nrc.Some? {
          return Nrc(SID_READ, nrc.value);
        }
        ghost var r := Record(did, ReadOne(e, did, k, txLen).value);
        FlattenAppend(done, r);
        PrependAppend(done, r, ReadFrom(e, dids, k + 1, newLen));
        done, txLen, i := done + [r], newLen, i + 2;
      }
      assert (i - 1) / 2 == |dids|;
      Unfold(e, dids, |dids|, txLen);
      PrependNone(done);
      tx[0] := SID_READ + 0x40;
      reply := tx[..txLen];
      assert reply == [tx[0]] + tx[1..txLen];
    }

    method WriteEntry(data: seq<byte>, session: byte, level: byte, res: int) returns (reply: seq<byte>)
      requires Repr() && session >= 1 && 1 <= |data| < 0x1_0000
      modifies tx, mem
      ensures Repr()
      ensures Written(mem[..], reply) == Write(old(View(session, level, NO_ANSWERS)), data, res)
    {
      hide Bit, Patch, Lookup;
      if |data| < 3 {
        return Nrc(SID_WRITE, NRC_LENGTH);
      }
      var entry := FindDid(Word(data[1], data[2]));
      if entry.None? {
        return Nrc(SID_WRITE, NRC_RANGE);
      }
      var d := entry.value;
      if d.sessionMask != 0 && !Bit(d.sessionMask, session - 1) {
        return Nrc(SID_WRITE, NRC_RANGE);
      }
      if d.securityMask != 0 && !Bit(d.securityMask, level) {
        return Nrc(SID_WRITE, NRC_SECURITY);
      }
      if |data| != ToU16(3 + d.size) {
        return Nrc(SID_WRITE, NRC_LENGTH);
      }
      var ok := false;
      if d.hasWrite {
        ok := res == 0;
      } else if d.storage.Some? {
        CopyInto(mem, d.storage.value, data[3..]);
        ok := true;
      }
      if ok {
        tx[0], tx[1], tx[2] := SID_WRITE + 0x40, data[1], data[2];
        return tx[..3];
      }
      return Nrc(SID_WRITE, NRC_CONDITIONS);
    }
  }

  lemma FlattenNone()
    ensures Flatten([]) == []
  {
  }

  lemma PrependFails(done: seq<Record>, rest: Outcome)
    ensures rest.Negative? ==> Prepend(done, rest) == rest
  {
  }

  lemma PrependNone(done: seq<Record>)
    ensures Prepend(done, Positive([])) == Positive(done)
  {
    assert done + [] == done;
  }

  lemma PrependNothing(rest: Outcome)
    ensures Prepend([], rest) == rest
  {
    if rest.Positive? {
      assert [] + rest.records == rest.records;
    }
  }

  lemma PrependAppend(done: seq<Record>, r: Record, rest: Outcome)
    ensures Prepend(done, Prepend([r], rest)) == Prepend(done + [r], rest)
  {
    if rest.Positive? {
      assert done + ([r] + rest.records) == done + [r] + rest.records;
    }
  }

  lemma {:induction false} FlattenAppend(rs: seq<Record>, r: Record)
    ensures Flatten(rs + [r]) == Flatten(rs) + [Hi(r.did), Lo(r.did)] + r.value
  {
    if rs == [] {
      assert Flatten([r]) == [Hi(r.did), Lo(r.did)] + r.value + Flatten([]);
    } else {
      FlattenAppend(rs[1..], r);
      assert (rs + [r])[1..] == rs[1..] + [r];
    }
  }
}
