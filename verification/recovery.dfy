/**
 From a run of the database to the bytes of its log and back (src/astervec_db.cc
 over src/oplog.cc): the operations become records, the records become frames in
 segments, a crash leaves the last frame whole or torn, and what opening the
 database then reads, decodes and replays is the state of the uncrashed run.

 Vectors are the bytes of their stored encoding, payloads those of their document.
 */
module Recovery {
  import opened Basics
  import opened IdTypes
  import opened DbState
  import opened DbReplay
  import opened DbView
  import opened DbLog
  import opened AsterVecDb
  import C = Crc32
  import F = OpLogFormat
  import D = OpLogDir
  import S = OpLogStore
  import R = OpLogRuns

  type Bytes = seq<C.Byte>
  type LogEntry = Entry<Bytes, Bytes>

  /** The vector encoding of a store: its tag and the size of a record. */
  datatype Coding = Coding(tag: C.Byte, size: nat)

  const INSERT: C.Byte := 1
  const UPDATE: C.Byte := 2
  const DELETE: C.Byte := 3
  const ABORT: C.Byte := 4

  predicate IsU64(x: nat) {
    x < 0x1_0000_0000_0000_0000
  }

  function PayloadBytes(p: Payload<Bytes>): Bytes {
    if p.Present? then p.doc else []
  }

  function PayloadOf(s: Bytes): Payload<Bytes> {
    if s == [] then Absent else Present(s)
  }

  /** Ids of 64 bits, vectors of the store's size, no empty document, and all of it within the largest body. */
  predicate Storable(c: Coding, e: LogEntry) {
    match e
    case Abort(lsn) => IsU64(lsn)
    case Logged(Delete(r, i)) => IsU64(r) && IsU64(i)
    case Logged(Insert(r, i, v, p)) => IsU64(r) && IsU64(i) && FitsBody(c, v, p)
    case Logged(Update(r, i, o, v, p)) => IsU64(r) && IsU64(i) && IsU64(o) && FitsBody(c, v, p)
  }

  predicate FitsBody(c: Coding, v: Bytes, p: Payload<Bytes>) {
    && |v| == c.size && p != Present([])
    && F.FIXED_BODY + |v| + |PayloadBytes(p)| <= F.MAX_BODY_BYTES
  }

  /** The record the write calls append; its lsn is the log's to give. */
  function Encode(c: Coding, e: LogEntry): F.OpRecord
    requires Storable(c, e)
  {
    match e
    case Abort(lsn) => F.OpRecord(0, ABORT, 0, 0, 0, lsn, [], [], [])
    case Logged(Delete(r, i)) => F.OpRecord(0, DELETE, 0, r, i, 0, [], [], [])
    case Logged(Insert(r, i, v, p)) => F.OpRecord(0, INSERT, c.tag, r, i, 0, v, [], PayloadBytes(p))
    case Logged(Update(r, i, o, v, p)) => F.OpRecord(0, UPDATE, c.tag, r, i, o, v, [], PayloadBytes(p))
  }

  /**
     What replay makes of a record. An unknown operation is corruption, and so is a vector
     of another encoding, which is looked at only if the operation was not aborted.
   */
  function Decode(c: Coding, r: F.OpRecord, aborted: bool): Option<LogEntry> {
    if r.op == ABORT then Some(Abort(r.aux))
    else if r.op == DELETE then Some(Logged(Delete(r.realId, r.internalId)))
    else if r.op != INSERT && r.op != UPDATE then None
    else if !aborted && (r.encoding != c.tag || |r.record| != c.size) then None
    else if r.op == INSERT then Some(Logged(Insert(r.realId, r.internalId, r.record, PayloadOf(r.payload))))
    else Some(Logged(Update(r.realId, r.internalId, r.aux, r.record, PayloadOf(r.payload))))
  }

  lemma DecodeOfEncode(c: Coding, e: LogEntry, lsn: F.U64, aborted: bool)
    requires Storable(c, e)
    ensures F.Fits(Encode(c, e)) && Decode(c, Encode(c, e).(lsn := lsn), aborted) == Some(e)
  {}

  /** The first records, or nothing if one of them cannot be decoded. */
  function DecodeKnowing(c: Coding, rs: seq<F.OpRecord>, aborts: set<nat>): Option<seq<LogEntry>> {
    if rs == [] then Some([])
    else
      var front := DecodeKnowing(c, rs[..|rs| - 1], aborts);
      var last := Decode(c, rs[|rs| - 1], rs[|rs| - 1].lsn in aborts);
      if front.None? || last.None? then None else Some(front.value + [last.value])
  }

  /** The lsns the records abort. */
  function AbortsIn(rs: seq<F.OpRecord>): set<nat> {
    set r | r in rs && r.op == ABORT :: r.aux
  }

  function DecodeAll(c: Coding, rs: seq<F.OpRecord>): Option<seq<LogEntry>> {
    DecodeKnowing(c, rs, AbortsIn(rs))
  }

  // ----- Which records are refused, and what the others say -----

  /** One of the records, earlier or later, aborts the `k`-th. */
  ghost predicate AbortedAmong(rs: seq<F.OpRecord>, k: nat)
    requires k < |rs|
  {
    exists j :: 0 <= j < |rs| && rs[j].op == 4 && rs[j].aux == rs[k].lsn
  }

  /** Not an operation, or one with a vector of another tag or size that nothing aborts. */
  ghost predicate Refused(c: Coding, rs: seq<F.OpRecord>, k: nat)
    requires k < |rs|
  {
    var r := rs[k];
    r.op == 0 || r.op > 4 || (r.op <= 2 && (r.encoding != c.tag || |r.record| != c.size) && !AbortedAmong(rs, k))
  }

  /** Field by field: the operation `e` is what the record `r` says. */
  ghost predicate Says(r: F.OpRecord, e: LogEntry) {
    match e
    case Logged(Insert(id, internal, v, p)) =>
      r.op == 1 && r.realId == id && r.internalId == internal && r.record == v && SaysPayload(r.payload, p)
    case Logged(Update(id, internal, prior, v, p)) =>
      r.op == 2 && r.realId == id && r.internalId == internal && r.aux == prior && r.record == v && SaysPayload(r.payload, p)
    case Logged(Delete(id, internal)) => r.op == 3 && r.realId == id && r.internalId == internal
    case Abort(lsn) => r.op == 4 && r.aux == lsn
  }

  /** No bytes are no document. */
  ghost predicate SaysPayload(s: Bytes, p: Payload<Bytes>) {
    (p.Absent? <==> s == []) && (p.Present? ==> p.doc == s)
  }

  lemma DecodeOne(c: Coding, rs: seq<F.OpRecord>, k: nat)
    requires k < |rs|
    ensures var e := Decode(c, rs[k], rs[k].lsn in AbortsIn(rs));
            (e.None? <==> Refused(c, rs, k)) && (e.Some? ==> Says(rs[k], e.value))
  {
    if AbortedAmong(rs, k) {
      var j :| 0 <= j < |rs| && rs[j].op == 4 && rs[j].aux == rs[k].lsn;
      assert rs[j] in rs && rs[j].op == ABORT;
    }
    if rs[k].lsn in AbortsIn(rs) {
      var r :| r in rs && r.op == ABORT && r.aux == rs[k].lsn;
      var j :| 0 <= j < |rs| && rs[j] == r;
      assert AbortedAmong(rs, k);
    }
  }

  lemma {:induction false} DecodeEach(c: Coding, rs: seq<F.OpRecord>, aborts: set<nat>)
    ensures var log := DecodeKnowing(c, rs, aborts);
            && (log.None? <==> exists k :: 0 <= k < |rs| && Decode(c, rs[k], rs[k].lsn in aborts).None?)
            && (log.Some? ==>
                  && |log.value| == |rs|
                  && forall k :: 0 <= k < |rs| ==> Decode(c, rs[k], rs[k].lsn in aborts) == Some(log.value[k]))
  {
    hide Decode;
    if rs != [] {
      var front := rs[..|rs| - 1];
      DecodeEach(c, front, aborts);
      assert forall k :: 0 <= k < |front| ==> front[k] == rs[k];
    }
  }

  /** The records are refused iff one of them is, and otherwise each becomes the operation it says. */
  lemma DecodeAllIs(c: Coding, rs: seq<F.OpRecord>)
    ensures var log := DecodeAll(c, rs);
            && (log.None? <==> exists k: nat :: k < |rs| && Refused(c, rs, k))
            && (log.Some? ==> |log.value| == |rs| && forall k :: 0 <= k < |rs| ==> Says(rs[k], log.value[k]))
  {
    hide Decode, DecodeKnowing, Refused, Says, AbortsIn;
    DecodeEach(c, rs, AbortsIn(rs));
    forall k: nat | k < |rs|
      ensures var e := Decode(c, rs[k], rs[k].lsn in AbortsIn(rs));
              (e.None? <==> Refused(c, rs, k)) && (e.Some? ==> Says(rs[k], e.value))
    {
      DecodeOne(c, rs, k);
    }
  }

  // ----- Writing -----

  /** Under `lsn` stands the record of `e`. */
  ghost predicate RecordOf(c: Coding, m: map<nat, F.OpRecord>, lsn: nat, e: LogEntry) {
    IsU64(lsn) && Storable(c, e) && D.Holds(m, lsn, Encode(c, e).(lsn := lsn))
  }

  /** The events append the records of `log`, in order; truncations in between stay below the checkpoint. */
  ghost predicate Writes(c: Coding, es: seq<R.Event>, log: seq<LogEntry>, base: nat)
    decreases es
  {
    if es == [] then log == []
    else
      match es[0]
      case Append(rec, _) => log != [] && Storable(c, log[0]) && rec == Encode(c, log[0]) && Writes(c, es[1..], log[1..], base)
      case Truncate(lsn) => lsn <= base && Writes(c, es[1..], log, base)
      case Crash(_, _) => false
  }

  ghost predicate Extends(was: map<nat, F.OpRecord>, now: map<nat, F.OpRecord>, end: nat) {
    forall l :: l < end && l in was ==> l in now && now[l] == was[l]
  }

  function Appends(c: Coding, log: seq<LogEntry>): seq<R.Event>
    requires forall k :: 0 <= k < |log| ==> Storable(c, log[k])
  {
    if log == [] then [] else [R.Append(Encode(c, log[0]), false)] + Appends(c, log[1..])
  }

  /** Whatever there is to log, as long as it is storable and lsns last, can be appended. */
  lemma {:induction false} CanWrite(c: Coding, s: R.State, log: seq<LogEntry>, base: nat)
    requires R.Inv(s) && s.next + |log| < 0x1_0000_0000_0000_0000
    requires forall k :: 0 <= k < |log| ==> Storable(c, log[k])
    ensures R.Possible(s, Appends(c, log)) && Writes(c, Appends(c, log), log, base)
    decreases |log|
  {
    hide R.Inv, Encode, Storable;
    if log != [] {
      var es := Appends(c, log);
      InvDir(s);
      DecodeOfEncode(c, log[0], 0, false);
      R.RunKeeps(s, []);
      OneAppend(s, es[0]);
      assert es[1..] == Appends(c, log[1..]);
      CanWrite(c, R.Step(s, es[0]), log[1..], base);
    }
  }

  lemma OneAppend(s: R.State, e: R.Event)
    requires R.Inv(s) && R.Enabled(s, e) && e.Append?
    ensures R.Inv(R.Step(s, e)) && R.Step(s, e).next == s.next + 1
  {
    hide R.Inv;
    R.AppendKeeps(s, e);
  }

  lemma AppendStands(c: Coding, s: R.State, rec: F.OpRecord, rotate: bool, e: LogEntry)
    requires R.Enabled(s, R.Append(rec, rotate)) && Storable(c, e) && rec == Encode(c, e)
    ensures var t := R.Step(s, R.Append(rec, rotate));
            t.next == s.next + 1 && t.floor == s.floor && RecordOf(c, t.latest, s.next, e) && Extends(s.latest, t.latest, s.next)
  {
    hide Encode, Storable;
  }

  lemma {:induction false} LogStands(c: Coding, s: R.State, es: seq<R.Event>, log: seq<LogEntry>, base: nat)
    requires R.Inv(s) && R.Possible(s, es) && Writes(c, es, log, base) && s.floor <= base <= s.next
    ensures var t := R.Exec(s, es);
            && R.Inv(t) && t.floor <= base && t.next == s.next + |log|
            && Extends(s.latest, t.latest, s.next)
            && forall k: nat :: k < |log| ==> RecordOf(c, t.latest, s.next + k, log[k])
    decreases es
  {
    hide R.Inv, R.Step, R.Enabled, RecordOf, Storable, Encode;
    R.RunKeeps(s, es);
    if es != [] {
      var t := R.Step(s, es[0]);
      R.RunKeeps(s, [es[0]]);
      OneStep(s, es[0]);
      match es[0]
      case Append(rec, rotate) =>
        AppendStands(c, s, rec, rotate, log[0]);
        LogStands(c, t, es[1..], log[1..], base);
        StandsOn(c, t.latest, R.Exec(s, es).latest, s.next, log[0]);
        forall k: nat | k < |log|
          ensures RecordOf(c, R.Exec(s, es).latest, s.next + k, log[k])
        {
          if k > 0 {
            assert log[1..][k - 1] == log[k];
            assert RecordOf(c, R.Exec(s, es).latest, t.next + (k - 1), log[1..][k - 1]);
          }
        }
      case Truncate(lsn) =>
        TruncateStands(s, lsn);
        LogStands(c, t, es[1..], log, base);
    }
  }

  lemma OneStep(s: R.State, e: R.Event)
    requires R.Enabled(s, e)
    ensures R.Possible(s, [e]) && R.Exec(s, [e]) == R.Step(s, e)
  {
    hide R.Step, R.Enabled;
    assert [e][1..] == [];
  }

  lemma TruncateStands(s: R.State, lsn: nat)
    requires R.Enabled(s, R.Truncate(lsn))
    ensures var t := R.Step(s, R.Truncate(lsn));
            t.next == s.next && t.floor == Max(s.floor, lsn) && t.latest == s.latest
  {}

  lemma StandsOn(c: Coding, was: map<nat, F.OpRecord>, now: map<nat, F.OpRecord>, l: nat, e: LogEntry)
    requires RecordOf(c, was, l, e) && Extends(was, now, l + 1)
    ensures RecordOf(c, now, l, e)
  {
    hide Encode, Storable;
  }

  // ----- The frame a crash tears -----

  /** A frame begun, in a new segment perhaps, and not finished. */
  ghost function Torn(segs: seq<D.Segment>, r: F.OpRecord, rotate: bool, n: nat): seq<D.Segment>
    requires segs != [] && n <= |F.Frame(r)|
  {
    D.Appended(S.Rotated(segs, r.lsn, rotate), F.Frame(r)[..n])
  }

  /** A scan does not see it. */
  lemma TornUnseen(s: R.State, r: F.OpRecord, rotate: bool, n: nat, from: nat)
    requires R.Inv(s) && s.segs != [] && (rotate ==> D.Last(s.segs).bytes != [])
    requires F.Fits(r) && r.lsn == s.next && n < |F.Frame(r)|
    ensures var segs := Torn(s.segs, r, rotate, n);
            && D.DirOk(segs) && D.Content(segs) == D.Content(s.segs)
            && D.ScanFrom([], 0, from, segs, 0).out == D.ScanFrom([], 0, from, s.segs, 0).out
            && D.ScanFrom([], 0, from, segs, 0).gap == D.ScanFrom([], 0, from, s.segs, 0).gap
  {
    hide F.Frame, F.Fits, F.Parse, D.Content, D.DirOk, D.ScanFrom, D.Run, D.Clean, D.LastEnd, S.Rotated, D.Appended, D.Recs;
    F.TornFrameRejected(r, n);
    R.RotateKeeps(s.segs, s.next, rotate);
    var segs := S.Rotated(s.segs, s.next, rotate);
    R.CleanNonempty(segs);
    D.AppendedTorn(segs, F.Frame(r)[..n]);
    R.PassedNothing(s.segs, from);
    R.PassedNothing(D.Appended(segs, F.Frame(r)[..n]), from);
    D.ScanIsRun([], 0, from, s.segs, 0);
    D.ScanIsRun([], 0, from, D.Appended(segs, F.Frame(r)[..n]), 0);
  }

  // ----- What a crash leaves of the log -----

  /** How far the write of the record in flight got, if it was not finished. */
  datatype Tear = Tear(rotate: bool, bytes: nat)

  /**
     The log `s`, at the last checkpoint before lsn `base`, then the records of the run,
     then what was written of the record in flight.
     */
  ghost predicate LeftOnDisk(c: Coding, s: R.State, es: seq<R.Event>, base: nat, evs: seq<Event<Bytes, Bytes>>,
                             f: InFlight<Bytes, Bytes>, tear: Tear, segs: seq<D.Segment>)
  {
    && s.floor <= base == s.next && R.Possible(s, es) && Writes(c, es, LogLeft(base, evs, f), base)
    && var t := R.Exec(s, es);
       if f.Started? && !f.whole then
         && Storable(c, Logged(f.ch)) && IsU64(t.next) && t.segs != []
         && (tear.rotate ==> D.Last(t.segs).bytes != [])
         && var r := Encode(c, Logged(f.ch)).(lsn := t.next);
            tear.bytes < |F.Frame(r)| && segs == Torn(t.segs, r, tear.rotate, tear.bytes)
       else segs == t.segs
  }

  lemma {:induction false} DecodedIs(c: Coding, rs: seq<F.OpRecord>, log: seq<LogEntry>, aborts: set<nat>)
    requires |rs| == |log| && forall k :: 0 <= k < |rs| ==> Decode(c, rs[k], rs[k].lsn in aborts) == Some(log[k])
    ensures DecodeKnowing(c, rs, aborts) == Some(log)
  {
    hide Decode;
    if rs != [] {
      DecodedIs(c, rs[..|rs| - 1], log[..|log| - 1], aborts);
      assert log == log[..|log| - 1] + [log[|log| - 1]];
    }
  }

  /** A scan reads the records of the run back, decoded, and the one in flight iff it is whole. */
  lemma LogReadBack(c: Coding, s: R.State, es: seq<R.Event>, base: nat, evs: seq<Event<Bytes, Bytes>>,
                    f: InFlight<Bytes, Bytes>, tear: Tear, segs: seq<D.Segment>)
    requires R.Inv(s) && LeftOnDisk(c, s, es, base, evs, f, tear, segs)
    ensures var scan := D.ScanFrom([], 0, base, segs, 0);
            !scan.gap && DecodeAll(c, scan.out) == Some(LogLeft(base, evs, f)) && |scan.out| == |LogLeft(base, evs, f)|
    ensures D.DirOk(segs)
  {
    hide R.Inv, R.Possible, R.Exec, Writes, D.ScanFrom, RecordOf, LogLeft, Torn, Encode, Storable, Decode, DecodeKnowing, AbortsIn, F.Frame, D.DirOk;
    var log := LogLeft(base, evs, f);
    LogStands(c, s, es, log, base);
    var t := R.Exec(s, es);
    R.ScanOfInv(t, base);
    var rs := D.ScanFrom([], 0, base, t.segs, 0).out;
    forall k | 0 <= k < |rs|
      ensures Decode(c, rs[k], rs[k].lsn in AbortsIn(rs)) == Some(log[k])
    {
      assert RecordOf(c, t.latest, s.next + k, log[k]);
      assert D.Holds(t.latest, base + k, rs[k]);
      RecordDecodes(c, t.latest, base + k, log[k], rs[k].lsn in AbortsIn(rs));
    }
    DecodedIs(c, rs, log, AbortsIn(rs));
    InvDir(t);
    if f.Started? && !f.whole {
      DecodeOfEncode(c, Logged(f.ch), t.next, false);
      FitsWithLsn(c, Logged(f.ch), t.next);
      TornUnseen(t, Encode(c, Logged(f.ch)).(lsn := t.next), tear.rotate, tear.bytes, base);
    }
  }

  lemma FitsWithLsn(c: Coding, e: LogEntry, lsn: F.U64)
    requires Storable(c, e)
    ensures F.Fits(Encode(c, e).(lsn := lsn))
  {}

  lemma InvDir(s: R.State)
    requires R.Inv(s)
    ensures D.DirOk(s.segs) && s.segs != []
  {}

  lemma RecordDecodes(c: Coding, m: map<nat, F.OpRecord>, lsn: nat, e: LogEntry, aborted: bool)
    requires RecordOf(c, m, lsn, e)
    ensures lsn in m && Decode(c, m[lsn], aborted) == Some(e)
  {
    hide Encode, Decode, Storable;
    DecodeOfEncode(c, e, lsn, aborted);
  }

  /**
     End to end. Whatever the log went through before the checkpoint - appends, rotations,
     crashes, reopenings, truncations - and wherever in a run of inserts, updates, deletes,
     failures and payload edits after it a crash came: scanning the segments it left,
     decoding their records and replaying them over the checkpoint and the rows that were
     written is the uncrashed run, with the operation in flight iff its frame is whole.
   */
  lemma RecoveredFromBytes(c: Coding, first: nat, history: seq<R.Event>, es: seq<R.Event>, base: nat,
                           d: Db<Bytes, Bytes>, evs: seq<Event<Bytes, Bytes>>, f: InFlight<Bytes, Bytes>,
                           tear: Tear, segs: seq<D.Segment>)
    requires first >= 1 && R.Possible(R.Fresh(first), history)
    requires LeftOnDisk(c, R.Exec(R.Fresh(first), history), es, base, evs, f, tear, segs)
    requires DbOk(d) && PossibleRun(d, evs) && CanCrash(Run(d, evs), f)
    ensures var read := DecodeAll(c, D.ScanFrom([], 0, base, segs, 0).out);
            var goal := Uncrashed(Run(d, evs), f);
            && read.Some?
            && var back := Recovered(Db(d.core, RowsLeft(Run(d, evs), f)), read.value, base);
               && DbOk(back) && back.rows == goal.rows && Settled(back.core) == Settled(goal.core) && View(back) == View(goal)
               && (NoFailedReinsert(evs) ==> back == goal)
  {
    hide LeftOnDisk, DbOk, PossibleRun, CanCrash, RowsLeft, LogLeft, Recovered, Uncrashed, DecodeAll, View, Settled, NoFailedReinsert;
    hide R.Inv, R.Possible, D.ScanFrom;
    R.FreshInv(first);
    R.RunKeeps(R.Fresh(first), history);
    LogReadBack(c, R.Exec(R.Fresh(first), history), es, base, evs, f, tear, segs);
    RecoveryIsExact(d, base, evs, f);
  }

  // ----- Opening the database -----

  datatype Opening = Opened(log: S.OpLog) | Corruption | LogUnusable | NoCheckpoint

  lemma {:induction false} RunStops(m: map<nat, F.OpRecord>, from: nat)
    ensures from + |D.Run(m, from)| !in m
    decreases D.Above(m, from)
  {
    if from in m {
      assert from in D.Above(m, from) && from !in D.Above(m, from + 1);
      RunStops(m, from + 1);
    }
  }

  /** The lsn a reopened log continues with is in none of its segments. */
  lemma NextIsNew(segs: seq<D.Segment>, from: nat)
    requires D.DirOk(segs)
    ensures from + |D.ScanFrom([], 0, from, segs, 0).out| !in D.Content(segs)
  {
    hide D.Content, D.DirOk, D.ScanFrom, D.Run;
    R.PassedNothing(segs, from);
    D.ScanIsRun([], 0, from, segs, 0);
    RunStops(D.Content(segs), from);
  }

  /** Two passes: which lsns are aborted, then every record in order, up to one that is refused. */
  method DecodeRecords(c: Coding, rs: seq<F.OpRecord>) returns (ok: bool, log: seq<LogEntry>)
    ensures ok == DecodeAll(c, rs).Some? && (ok ==> DecodeAll(c, rs) == Some(log))
    ensures ok <==> forall k: nat :: k < |rs| ==> !Refused(c, rs, k)
    ensures ok ==> |log| == |rs| && forall k :: 0 <= k < |rs| ==> Says(rs[k], log[k])
  {
    hide Decode, Refused, Says;
    DecodeAllIs(c, rs);
    var aborts: set<nat> := {};
    for k := 0 to |rs|
      invariant aborts == AbortsIn(rs[..k])
    {
      assert rs[..k + 1] == rs[..k] + [rs[k]];
      if rs[k].op == ABORT {
        aborts := aborts + {rs[k].aux};
      }
    }
    assert rs[..|rs|] == rs;
    log := [];
    for k := 0 to |rs|
      invariant DecodeKnowing(c, rs[..k], aborts) == Some(log)
    {
      assert rs[..k + 1][..k] == rs[..k];
      var e := Decode(c, rs[k], rs[k].lsn in aborts);
      if e.None? {
        Undecodable(c, rs, k + 1, aborts);
        return false, log;
      }
      log := log + [e.value];
    }
    return true, log;
  }

  lemma {:induction false} Undecodable(c: Coding, rs: seq<F.OpRecord>, n: nat, aborts: set<nat>)
    requires n <= |rs| && DecodeKnowing(c, rs[..n], aborts).None?
    ensures DecodeKnowing(c, rs, aborts).None?
    decreases |rs|
  {
    hide Decode;
    if n < |rs| {
      assert rs[..|rs| - 1][..n] == rs[..n];
      Undecodable(c, rs[..|rs| - 1], n, aborts);
    } else {
      assert rs[..n] == rs;
    }
  }

  /** Checkpoint, rows and log directory are what a crash left of a run. */
  ghost predicate CrashLeft(c: Coding, s: R.State, es: seq<R.Event>, base: nat, d: Db<Bytes, Bytes>,
                            evs: seq<Event<Bytes, Bytes>>, f: InFlight<Bytes, Bytes>, tear: Tear,
                            found: Db<Bytes, Bytes>, segs: seq<D.Segment>)
  {
    && R.Inv(s) && LeftOnDisk(c, s, es, base, evs, f, tear, segs)
    && DbOk(d) && PossibleRun(d, evs) && CanCrash(Run(d, evs), f)
    && found == Db(d.core, RowsLeft(Run(d, evs), f))
  }

  lemma CrashRead(c: Coding, s: R.State, es: seq<R.Event>, base: nat, d: Db<Bytes, Bytes>,
                  evs: seq<Event<Bytes, Bytes>>, f: InFlight<Bytes, Bytes>, tear: Tear,
                  found: Db<Bytes, Bytes>, segs: seq<D.Segment>)
    requires CrashLeft(c, s, es, base, d, evs, f, tear, found, segs)
    ensures DecodeAll(c, D.ScanFrom([], 0, base, segs, 0).out) == Some(LogLeft(base, evs, f))
    ensures DbOk(d) && PossibleRun(d, evs) && CanCrash(Run(d, evs), f) && found == Db(d.core, RowsLeft(Run(d, evs), f))
  {
    hide LeftOnDisk, DbOk, PossibleRun, CanCrash, RowsLeft, DecodeAll, D.ScanFrom, R.Inv, LogLeft;
    LogReadBack(c, s, es, base, evs, f, tear, segs);
  }

  /** Reads the log from the checkpoint's lsn on and replays what it reads, unless a record makes no sense. */
  method ReplayLog(db: AsterVecDB<Bytes, Bytes>, c: Coding, dir: S.LogDir,
                   ghost s: R.State, ghost es: seq<R.Event>, ghost d: Db<Bytes, Bytes>,
                   ghost evs: seq<Event<Bytes, Bytes>>, ghost f: InFlight<Bytes, Bytes>, ghost tear: Tear)
    returns (ok: bool, count: nat)
    modifies db`vectors, db`tombstones, db`realToInternal, db`internalToReal, db`nextUpdateId, db`liveCount, db`payloads
    ensures var read := D.ScanFrom([], 0, db.base, dir.segs, 0).out;
            && ok == DecodeAll(c, read).Some? && count == |read|
            && (ok ==> db.State() == Recovered(old(db.State()), DecodeAll(c, read).value, db.base))
    ensures CrashLeft(c, s, es, db.base, d, evs, f, tear, old(db.State()), dir.segs) ==>
              && ok && DbOk(db.State()) && db.Contents() == View(Uncrashed(Run(d, evs), f))
              && (NoFailedReinsert(evs) ==> db.State() == Uncrashed(Run(d, evs), f))
  {
    hide CrashLeft, DbOk, PossibleRun, CanCrash, RowsLeft, LogLeft, Recovered, Uncrashed, DecodeAll, View, NoFailedReinsert, D.ScanFrom;
    var rs, dropped, gap := dir.Scan(db.base);
    if CrashLeft(c, s, es, db.base, d, evs, f, tear, db.State(), dir.segs) {
      CrashRead(c, s, es, db.base, d, evs, f, tear, db.State(), dir.segs);
    }
    count := |rs|;
    var log;
    ok, log := DecodeRecords(c, rs);
    if ok {
      db.RecoverFromOpLog(log, d, evs, f);
    }
  }

  /** Right after a checkpoint the run since it is empty, and so is its log. */
  method StartOver(db: AsterVecDB<Bytes, Bytes>, count: nat)
    modifies db`base, db`log, db`start, db`events
    ensures db.base == old(db.base) + count && (DbOk(db.State()) ==> db.Valid())
  {
    hide DbOk;
    db.base, db.log, db.start, db.events := db.base + count, [], db.State(), [];
  }

  /**
     Opens a database over the log directory a crash left: replays the log, opens it behind
     the last record, and makes the outcome the new checkpoint if there was any record. If
     all that was found is what a crash left of a run, the database is that run's and ready
     for the next.
   */
  method OpenWithLog(db: AsterVecDB<Bytes, Bytes>, c: Coding, dir: S.LogDir, segmentBytes: nat, table: array<C.Word32>,
                     created: bool, removable: nat -> bool, opening: S.OpenOutcome, saved: bool,
                     ghost s: R.State, ghost es: seq<R.Event>, ghost d: Db<Bytes, Bytes>,
                     ghost evs: seq<Event<Bytes, Bytes>>, ghost f: InFlight<Bytes, Bytes>, ghost tear: Tear)
    returns (r: Opening)
    requires D.DirOk(dir.segs) && C.IsTable(table[..]) && db.base > 0
    modifies db, dir
    ensures var read := D.ScanFrom([], 0, old(db.base), old(dir.segs), 0).out; var next := old(db.base) + |read|;
            && (r == Corruption <==> DecodeAll(c, read).None?)
            && (r == Corruption <==> exists k: nat :: k < |read| && Refused(c, read, k))
            && (r.Opened? ==> var log := DecodeAll(c, read).value;
                  |log| == |read| && forall k :: 0 <= k < |read| ==> Says(read[k], log[k]))
            && (r.Opened? <==> DecodeAll(c, read).Some? && created && opening.Opened? && (read == [] || saved)
                               && S.StaleRemovable(old(dir.segs), next, removable))
            && (r.Opened? ==>
                  && db.base == next && r.log.Valid() && r.log.dir == dir && r.log.nextLsn == next
                  && db.State() == Recovered(old(db.State()), DecodeAll(c, read).value, old(db.base))
                  && D.Content(dir.segs) == D.Restrict(old(D.Content(dir.segs)), 0, next))
    ensures r.Opened? && CrashLeft(c, s, es, old(db.base), d, evs, f, tear, old(db.State()), old(dir.segs)) ==>
              && db.Valid() && db.Contents() == View(Uncrashed(Run(d, evs), f))
              && (NoFailedReinsert(evs) ==> db.State() == Uncrashed(Run(d, evs), f))
  {
    hide CrashLeft, DbOk, PossibleRun, Recovered, Uncrashed, DecodeAll, View, NoFailedReinsert;
    hide D.ScanFrom, D.DirOk, D.Content, C.IsTable, D.Restrict, S.AfterOpen, S.StaleRemovable, S.OpLog.Valid;
    hide Refused, Says;
    NextIsNew(dir.segs, db.base);
    DecodeAllIs(c, D.ScanFrom([], 0, db.base, dir.segs, 0).out);
    var ok, count := ReplayLog(db, c, dir, s, es, d, evs, f, tear);
    if !ok {
      return Corruption;
    }
    var again := S.OpLog.Open(dir, db.base + count, segmentBytes, table, created, removable, opening);
    if !again.Ok? {
      return LogUnusable;
    }
    if count != 0 && !saved {
      return NoCheckpoint;
    }
    StartOver(db, count);
    return Opened(again.value);
  }
}
