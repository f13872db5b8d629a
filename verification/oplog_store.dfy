/**
 The log as the program runs it: a directory object, a writer object appending to
 its newest segment, and what any run of appends, crashes, reopenings and
 truncations leaves for the next scan.
 */
module OpLogStore {
  import opened Basics
  import opened Crc32
  import opened OpLogFormat
  import opened OpLogDir

  datatype Result<+T> = Ok(value: T) | InvalidArgument | IOError

  /** What the operating system does with a write: all of it, or a part and then a rollback that may fail. */
  datatype WriteOutcome = Written | Failed(partial: nat, rolledBack: bool)

  /** Starting a file: done, not created, or created without its name having been made durable. */
  datatype OpenOutcome = Opened | CannotOpen | CannotSync

  // ----- Effects as functions of the directory -----

  ghost function Rotated(segs: seq<Segment>, next: nat, rotate: bool): seq<Segment> {
    if rotate then segs + [Segment(next, [])] else segs
  }

  ghost function AfterAppend(segs: seq<Segment>, r: OpRecord, rotate: bool): seq<Segment>
    requires segs != []
  {
    Appended(Rotated(segs, r.lsn, rotate), Frame(r))
  }

  ghost function KeepBelow(segs: seq<Segment>, next: nat): seq<Segment> {
    if segs == [] then []
    else if Last(segs).first >= next then KeepBelow(Front(segs), next)
    else KeepBelow(Front(segs), next) + [Last(segs)]
  }

  /** No segment named at or past `next` resists removal. */
  ghost predicate StaleRemovable(segs: seq<Segment>, next: nat, removable: nat -> bool) {
    forall i :: 0 <= i < |segs| && segs[i].first >= next ==> removable(segs[i].first)
  }

  /** The stale ones in front of position `j` are gone, from there on everything is still there. */
  ghost predicate RemovedUpTo(segs: seq<Segment>, now: seq<Segment>, next: nat, j: nat) {
    j < |segs| && now == KeepBelow(segs[..j], next) + segs[j..]
  }

  lemma NothingStale(next: nat, removable: nat -> bool)
    ensures StaleRemovable([], next, removable)
  {}

  lemma OneMoreRemovable(segs: seq<Segment>, i: nat, next: nat, removable: nat -> bool)
    requires i < |segs| && StaleRemovable(segs[..i], next, removable)
    ensures StaleRemovable(segs[..i + 1], next, removable) <==> (segs[i].first >= next ==> removable(segs[i].first))
    ensures StaleRemovable(segs, next, removable) ==> StaleRemovable(segs[..i + 1], next, removable)
  {
    forall j | 0 <= j < i
      ensures segs[..i + 1][j] == segs[..i][j]
    {}
    assert segs[..i + 1][i] == segs[i];
  }

  lemma TailFromHere(kept: seq<Segment>, segs: seq<Segment>, i: nat)
    requires i < |segs|
    ensures kept + segs[i..] == kept + [segs[i]] + segs[i + 1..]
  {}

  lemma NothingToKeep(next: nat)
    ensures KeepBelow([], next) == []
  {}

  lemma KeepOneMore(segs: seq<Segment>, i: nat, next: nat)
    requires i < |segs|
    ensures KeepBelow(segs[..i + 1], next) == KeepBelow(segs[..i], next) + (if segs[i].first >= next then [] else [segs[i]])
  {
    assert Front(segs[..i + 1]) == segs[..i] && Last(segs[..i + 1]) == segs[i];
  }

  ghost function AfterOpen(segs: seq<Segment>, next: nat): seq<Segment> {
    KeepBelow(segs, next) + [Segment(next, [])]
  }

  ghost function AfterTruncate(segs: seq<Segment>, lsn: nat): seq<Segment>
    decreases segs
  {
    if |segs| > 1 && segs[1].first <= lsn then AfterTruncate(segs[1..], lsn) else segs
  }

  lemma TruncateStep(segs: seq<Segment>, i: nat, lsn: nat)
    requires i + 1 < |segs|
    ensures segs[i..][1] == segs[i + 1]
    ensures AfterTruncate(segs[i..], lsn) == if segs[i + 1].first <= lsn then AfterTruncate(segs[i + 1..], lsn) else segs[i..]
  {
    assert segs[i..][1..] == segs[i + 1..];
  }

  /** The last segment stays in any case. */
  lemma TruncateLast(segs: seq<Segment>, lsn: nat)
    ensures segs != [] ==> AfterTruncate(segs[|segs| - 1..], lsn) == segs[|segs| - 1..]
  {}

  class LogDir {
    var segs: seq<Segment>

    constructor ()
      ensures segs == []
    {
      segs := [];
    }

    /** Scan, its callback replaced by the list of the records it is called with. */
    method Scan(from: nat) returns (out: seq<OpRecord>, dropped: nat, gap: bool)
      ensures ScanResult(out, dropped, gap) == ScanFrom([], 0, from, segs, 0)
    {
      out, dropped, gap := [], 0, false;
      var i := 0;
      while i < |segs|
        invariant 0 <= i <= |segs|
        invariant ScanFrom(out, dropped, from, segs, i) == ScanFrom([], 0, from, segs, 0)
      {
        if i + 1 < |segs| && segs[i + 1].first <= from {
          i := i + 1;
          continue;
        }
        var pos;
        out, pos, gap := ScanSegment(segs[i], from, out);
        if gap {
          return;
        }
        dropped := dropped + (|segs[i].bytes| - pos);
        i := i + 1;
      }
    }

    /** The inner loop: one file, up to its end, a bad record, or a missing lsn. */
    static method ScanSegment(seg: Segment, from: nat, before: seq<OpRecord>)
      returns (out: seq<OpRecord>, pos: nat, gap: bool)
      ensures (out, gap) == Feed(before, from, Recs(seg), 0)
      ensures !gap ==> pos <= |seg.bytes| && |seg.bytes| - pos == TailSize(seg)
    {
      hide Parse, RecordAt;
      out, pos, gap := before, 0, false;
      var bytes := seg.bytes;
      ghost var k := 0;
      assert bytes[0..] == bytes;
      NoRecordInNothing();
      while pos < |bytes|
        invariant pos <= |bytes| && k <= |Recs(seg)|
        invariant Feed(out, from, Recs(seg), k) == Feed(before, from, Recs(seg), 0)
        invariant Accepted(bytes[pos..]) == (Recs(seg)[k..], Accepted(bytes).1)
        decreases |bytes| - pos
      {
        var p := Parse(bytes[pos..]);
        if p.None? {
          break;
        }
        var (rec, n) := p.value;
        assert bytes[pos..][n..] == bytes[pos + n..];
        assert Recs(seg)[k] == rec && Recs(seg)[k..][1..] == Recs(seg)[k + 1..];
        pos := pos + n;
        k := k + 1;
        if rec.lsn < from {
          continue;
        }
        if rec.lsn != from + |out| {
          gap := true;
          return;
        }
        out := out + [rec];
      }
    }
  }

  class OpLog {
    const dir: LogDir
    const segmentBytes: nat
    const table: array<Word32>
    var nextLsn: nat
    var offset: nat
    var broken: bool

    ghost predicate Valid()
      reads this, dir, table
    {
      && IsTable(table[..]) && segmentBytes > 0
      && DirOk(dir.segs) && dir.segs != [] && LastEnd(dir.segs) == nextLsn
      && (!broken ==> Clean(dir.segs) && offset == |Last(dir.segs).bytes|)
    }

    constructor (dir: LogDir, nextLsn: nat, segmentBytes: nat, table: array<Word32>)
      ensures this.dir == dir && this.nextLsn == nextLsn && this.table == table && !broken
      ensures offset == 0
      ensures this.segmentBytes == if segmentBytes == 0 then DEFAULT_SEGMENT_BYTES else segmentBytes
    {
      this.dir := dir;
      this.nextLsn := nextLsn;
      this.segmentBytes := if segmentBytes == 0 then DEFAULT_SEGMENT_BYTES else segmentBytes;
      this.table := table;
      offset, broken := 0, false;
    }

    /**
       Opens `dir` for appending: stale segments go, a new one is started. Whatever fails on
       the way, no record below `next` is lost.
     */
    static method Open(dir: LogDir, next: nat, segmentBytes: nat, table: array<Word32>,
                       created: bool, removable: nat -> bool, opening: OpenOutcome) returns (r: Result<OpLog>)
      requires DirOk(dir.segs) && next !in Content(dir.segs) && IsTable(table[..])
      modifies dir
      ensures next == 0 <==> r == InvalidArgument
      ensures r.Ok? <==> next > 0 && created && StaleRemovable(old(dir.segs), next, removable) && opening.Opened?
      ensures r.Ok? ==> fresh(r.value) && r.value.Valid() && !r.value.broken
                        && r.value.dir == dir && r.value.nextLsn == next
                        && dir.segs == AfterOpen(old(dir.segs), next) && Last(dir.segs) == Segment(next, [])
                        && Content(dir.segs) == Restrict(old(Content(dir.segs)), 0, next)
      ensures DirOk(dir.segs) && Restrict(Content(dir.segs), 0, next) == Restrict(old(Content(dir.segs)), 0, next)
      ensures next == 0 || !created ==> dir.segs == old(dir.segs)
    {
      hide Content, DirOk, Recs, Restrict, Clean, LastEnd, IsTable, End;
      if next == 0 {
        return InvalidArgument;
      }
      if !created {
        return IOError;
      }
      ghost var was := dir.segs;
      var removed := RemoveStale(dir, next, removable);
      if !removed {
        ghost var j: nat :| RemovedUpTo(was, dir.segs, next, j);
        KeptSome(was, j, next);
        return IOError;
      }
      KeptBelow(was, next);
      NewSegment(dir.segs, next);
      RestrictTwice(Content(was), next);
      var log := new OpLog(dir, next, segmentBytes, table);
      var s := log.OpenSegmentLocked(opening);
      match s
      case Ok(_) => return Ok(log);
      case InvalidArgument => return IOError;
      case IOError => return IOError;
    }

    /** Removes every segment named at or past `next`, in order, up to one that cannot be removed. */
    static method RemoveStale(dir: LogDir, next: nat, removable: nat -> bool) returns (ok: bool)
      modifies dir
      ensures ok <==> StaleRemovable(old(dir.segs), next, removable)
      ensures ok ==> dir.segs == KeepBelow(old(dir.segs), next)
      ensures !ok ==> exists j: nat :: RemovedUpTo(old(dir.segs), dir.segs, next, j)
    {
      hide KeepBelow, StaleRemovable;
      var listed := dir.segs;
      var kept := [];
      NothingToKeep(next);
      NothingStale(next, removable);
      for i := 0 to |listed|
        invariant kept == KeepBelow(listed[..i], next)
        invariant dir.segs == kept + listed[i..]
        invariant StaleRemovable(listed[..i], next, removable)
      {
        KeepOneMore(listed, i, next);
        OneMoreRemovable(listed, i, next, removable);
        TailFromHere(kept, listed, i);
        if listed[i].first >= next {
          if !removable(listed[i].first) {
            assert RemovedUpTo(listed, dir.segs, next, i);
            return false;
          }
          dir.segs := kept + listed[i + 1..];
        } else {
          kept := kept + [listed[i]];
        }
      }
      assert listed[..|listed|] == listed;
      assert dir.segs == kept;
      return true;
    }

    /** Starts the segment named after the next lsn; no file of that name exists. */
    method OpenSegmentLocked(io: OpenOutcome) returns (r: Result<()>)
      requires forall i :: 0 <= i < |dir.segs| ==> dir.segs[i].first < nextLsn
      modifies dir, this`offset
      ensures r.Ok? <==> io.Opened?
      ensures !r.Ok? ==> r.IOError?
      ensures io.CannotOpen? ==> dir.segs == old(dir.segs) && offset == old(offset)
      ensures !io.CannotOpen? ==> dir.segs == old(dir.segs) + [Segment(nextLsn, [])] && offset == 0
    {
      if io.CannotOpen? {
        return IOError;
      }
      dir.segs := dir.segs + [Segment(nextLsn, [])];
      offset := 0;
      if io.CannotSync? {
        return IOError;
      }
      return Ok(());
    }

    /** Starts a new segment when the current one has reached its size. */
    method RotateIfFull(opening: OpenOutcome) returns (ok: bool)
      requires Valid() && !broken
      modifies this, dir
      ensures Valid() && nextLsn == old(nextLsn) && Content(dir.segs) == old(Content(dir.segs))
      ensures broken == !ok && ok == (opening.Opened? || old(offset) < segmentBytes)
      ensures ok ==> dir.segs == Rotated(old(dir.segs), nextLsn, old(offset) >= segmentBytes)
      ensures ok ==> offset < segmentBytes && offset == |Last(dir.segs).bytes|
      ensures ok && old(offset) >= segmentBytes ==> Last(dir.segs) == Segment(nextLsn, []) && Front(dir.segs) == old(dir.segs)
      ensures ok && old(offset) < segmentBytes ==> dir.segs == old(dir.segs)
    {
      hide Content, DirOk, Recs, IsTable, End;
      if offset >= segmentBytes {
        RotationIsFresh(dir.segs, nextLsn);
        NewSegment(dir.segs, nextLsn);
        var s := OpenSegmentLocked(opening);
        if !s.Ok? {
          broken := true;
          return false;
        }
      }
      return true;
    }

    /** Writes a record's bytes; a partial write is rolled back, or the log is given up. */
    method WriteRecord(buf: seq<Byte>, ghost stored: OpRecord, io: WriteOutcome) returns (r: Result<nat>)
      requires Valid() && !broken && Fits(stored) && stored.lsn == nextLsn && buf == Frame(stored)
      requires io.Failed? ==> io.partial < |buf|
      modifies this, dir
      ensures Valid()
      ensures io.Written? ==> r == Ok(old(nextLsn)) && nextLsn == old(nextLsn) + 1 && !broken
                              && dir.segs == Appended(old(dir.segs), Frame(stored))
                              && Content(dir.segs) == old(Content(dir.segs))[stored.lsn := stored]
      ensures io.Failed? ==> r == IOError && nextLsn == old(nextLsn) && broken == !io.rolledBack
                             && Content(dir.segs) == old(Content(dir.segs))
                             && (io.rolledBack ==> dir.segs == old(dir.segs))
    {
      hide Frame, Content, DirOk, Parse, Recs, IsTable, Fits;
      var n := |dir.segs| - 1;
      var current := dir.segs[n];
      match io
      case Written =>
        AppendedRecord(dir.segs, stored);
        dir.segs := dir.segs[n := Segment(current.first, current.bytes + buf)];
        offset := offset + |buf|;
        nextLsn := nextLsn + 1;
        return Ok(nextLsn - 1);
      case Failed(partial, rolledBack) =>
        if !rolledBack {
          TornFrameRejected(stored, partial);
          AppendedTorn(dir.segs, buf[..partial]);
          dir.segs := dir.segs[n := Segment(current.first, current.bytes + buf[..partial])];
          broken := true;
        }
        return IOError;
    }

    /** Appends one record under the next lsn, or leaves the log's content as it was. */
    method Append(rec: OpRecord, opening: OpenOutcome, io: WriteOutcome) returns (r: Result<nat>)
      requires Valid() && nextLsn < 0x1_0000_0000_0000_0000
      requires io.Failed? ==> io.partial < PREFIX_BYTES + BodySize(rec)
      modifies this, dir
      ensures Valid()
      ensures r.InvalidArgument? <==> !Fits(rec)
      ensures r.Ok? <==> Fits(rec) && !old(broken) && io.Written? && (opening.Opened? || old(offset) < segmentBytes)
      ensures r.Ok? ==> r.value == old(nextLsn) && nextLsn == old(nextLsn) + 1
                        && var stored := rec.(lsn := old(nextLsn));
                           && dir.segs == AfterAppend(old(dir.segs), stored, old(offset) >= segmentBytes)
                           && Content(dir.segs) == old(Content(dir.segs))[old(nextLsn) := stored]
      ensures r.Ok? && old(offset) < segmentBytes ==>
                && |dir.segs| == |old(dir.segs)| && Front(dir.segs) == Front(old(dir.segs))
                && Last(dir.segs).bytes == Last(old(dir.segs)).bytes + Frame(rec.(lsn := old(nextLsn)))
      ensures r.Ok? && old(offset) >= segmentBytes ==>
                Front(dir.segs) == old(dir.segs) && Last(dir.segs) == Segment(old(nextLsn), Frame(rec.(lsn := old(nextLsn))))
      ensures !r.Ok? ==> nextLsn == old(nextLsn) && Content(dir.segs) == old(Content(dir.segs))
      ensures r.Ok? || r.InvalidArgument? || (io.Failed? && io.rolledBack && opening.Opened?) ==> broken == old(broken)
    {
      hide Frame, AfterLsn, Content, DirOk, Parse, Recs, IsTable, Clean, LastEnd, Register, Finish;
      if BodySize(rec) > MAX_BODY_BYTES {
        return InvalidArgument;
      }
      var after := AfterLsn(rec);
      var bodyCrc := Update(table, INIT, after);
      if broken {
        return IOError;
      }
      var ready := RotateIfFull(opening);
      if !ready {
        return IOError;
      }
      var lsn := nextLsn;
      var crc := Update(table, bodyCrc, Le(lsn, 8));
      crc := Finish(crc);
      var buf := Le(BodySize(rec), 4) + Le(crc, 4) + Le(lsn, 8) + after;
      BufferIsFrame(rec, lsn, crc);
      r := WriteRecord(buf, rec.(lsn := lsn), io);
    }

    /** Nothing stored has a larger lsn, and it is stored if the current segment has a record at all. */
    method LastLsn() returns (lsn: int)
      requires Valid()
      ensures lsn == nextLsn - 1
      ensures forall l :: l in Content(dir.segs) ==> l <= lsn
      ensures Recs(Last(dir.segs)) != [] ==> lsn in Content(dir.segs) && Content(dir.segs)[lsn].lsn == lsn
    {
      LastHeld(dir.segs);
      lsn := nextLsn - 1;
    }

    /** Removes leading segments while the next one starts at or below `lsn`, up to one that cannot be removed. */
    method RemoveCovered(lsn: nat, removable: nat -> bool) returns (ok: bool, i: nat)
      requires dir.segs != []
      modifies dir
      ensures i < |old(dir.segs)| && dir.segs == old(dir.segs)[i..]
      ensures i > 0 ==> dir.segs[0].first <= lsn
      ensures ok ==> dir.segs == AfterTruncate(old(dir.segs), lsn) && (|dir.segs| == 1 || dir.segs[1].first > lsn)
      ensures !ok ==> |dir.segs| > 1 && dir.segs[1].first <= lsn && !removable(dir.segs[0].first)
    {
      hide AfterTruncate;
      var segs := dir.segs;
      i := 0;
      assert segs[0..] == segs;
      TruncateLast(segs, lsn);
      while i + 1 < |segs|
        invariant i < |segs| && dir.segs == segs[i..]
        invariant AfterTruncate(segs[i..], lsn) == AfterTruncate(segs, lsn)
        invariant i > 0 ==> segs[i].first <= lsn
      {
        TruncateStep(segs, i, lsn);
        if segs[i + 1].first > lsn {
          return true, i;
        }
        if !removable(segs[i].first) {
          return false, i;
        }
        dir.segs := segs[i + 1..];
        i := i + 1;
      }
      return true, i;
    }

    /** Removes whole segments below `lsn`, up to one that cannot be removed; the current one always stays. */
    method TruncateBelow(lsn: nat, removable: nat -> bool) returns (ok: bool)
      requires Valid()
      modifies dir
      ensures Valid() && (ok ==> dir.segs == AfterTruncate(old(dir.segs), lsn))
      ensures exists k: nat :: k < |old(dir.segs)| && dir.segs == old(dir.segs)[k..] && (k > 0 ==> dir.segs[0].first <= lsn)
      ensures ok ==> |dir.segs| == 1 || dir.segs[1].first > lsn
      ensures !ok ==> |dir.segs| > 1 && dir.segs[1].first <= lsn && !removable(dir.segs[0].first)
      ensures forall l :: l in Content(dir.segs) ==> l in old(Content(dir.segs)) && Content(dir.segs)[l] == old(Content(dir.segs))[l]
      ensures forall l :: l in old(Content(dir.segs)) && l >= lsn ==> l in Content(dir.segs)
    {
      hide Content, DirOk, Recs, IsTable, AfterTruncate;
      ghost var segs := dir.segs;
      var i;
      ok, i := RemoveCovered(lsn, removable);
      DroppedCovered(segs, i);
      assert segs[0..] == segs;
    }
  }

  const DEFAULT_SEGMENT_BYTES: nat := 0x400_0000

  lemma {:induction false} KeptBelow(segs: seq<Segment>, next: nat)
    requires DirOk(segs) && next !in Content(segs)
    ensures DirOk(KeepBelow(segs, next))
    ensures Content(KeepBelow(segs, next)) == Restrict(Content(segs), 0, next)
    ensures forall i :: 0 <= i < |KeepBelow(segs, next)| ==>
              KeepBelow(segs, next)[i].first < next && End(KeepBelow(segs, next)[i]) <= next
  {
    hide Content, Recs;
    NamesAscend(segs);
    var k := KeptIsPrefix(segs, next);
    DroppedStale(segs, k, next);
  }

  /** The last segment's records are the newest, and its last one is the newest of all. */
  lemma LastHeld(segs: seq<Segment>)
    requires DirOk(segs) && segs != []
    ensures forall l :: l in Content(segs) ==> l < LastEnd(segs)
    ensures Recs(Last(segs)) != [] ==> Holds(Content(segs), LastEnd(segs) - 1, Recs(Last(segs))[|Recs(Last(segs))| - 1])
                                       && Content(segs)[LastEnd(segs) - 1].lsn == LastEnd(segs) - 1
  {
    hide Content, Recs;
    forall l | l in Content(segs)
      ensures l < LastEnd(segs)
    {
      var i := ContentFrom(segs, l);
      assert End(segs[i]) <= LastEnd(segs);
    }
    if Recs(Last(segs)) != [] {
      ContentHas(segs, |segs| - 1, LastEnd(segs) - 1);
    }
  }

  lemma RestrictTwice(m: map<nat, OpRecord>, next: nat)
    ensures Restrict(Restrict(m, 0, next), 0, next) == Restrict(m, 0, next)
  {}

  /** Some of the stale segments removed and others still there: the content below `next` is what it was. */
  lemma KeptSome(segs: seq<Segment>, j: nat, next: nat)
    requires DirOk(segs) && j < |segs|
    ensures var after := KeepBelow(segs[..j], next) + segs[j..];
            DirOk(after) && Restrict(Content(after), 0, next) == Restrict(Content(segs), 0, next)
  {
    hide Content, Recs, RecordAt;
    NamesAscend(segs);
    var k := KeptIsPrefix(segs[..j], next);
    assert segs[..j][..k] == segs[..k];
    StaleHoldsNothingBelow(segs, k, j, next);
  }

  lemma StillInOrder(segs: seq<Segment>, k: nat, j: nat)
    requires DirOk(segs) && k <= j <= |segs|
    ensures DirOk(segs[..k] + segs[j..])
  {
    hide SegmentOk, End;
  }

  lemma StaleHoldsNothingBelow(segs: seq<Segment>, k: nat, j: nat, next: nat)
    requires DirOk(segs) && Ascending(segs) && k <= j < |segs| && (k < j ==> segs[k].first >= next)
    ensures var after := segs[..k] + segs[j..];
            DirOk(after) && Restrict(Content(after), 0, next) == Restrict(Content(segs), 0, next)
  {
    hide Content, RecordAt, DirOk, End, SegmentOk;
    StillInOrder(segs, k, j);
    var after := segs[..k] + segs[j..];
    forall l: nat | l < next
      ensures l in Content(segs) ==> Holds(Content(after), l, Content(segs)[l])
      ensures l in Content(after) ==> l in Content(segs)
    {
      if l in Content(segs) {
        HeldAround(segs, k, j, next, l);
      }
      if l in Content(after) {
        var at := ContentFrom(after, l);
        ContentHas(segs, if at < k then at else at + j - k, l);
      }
    }
    assert forall l :: l in Restrict(Content(after), 0, next) <==> l in Restrict(Content(segs), 0, next);
  }

  lemma HeldAround(segs: seq<Segment>, k: nat, j: nat, next: nat, l: nat)
    requires DirOk(segs) && Ascending(segs) && k <= j < |segs| && (k < j ==> segs[k].first >= next)
    requires l < next && l in Content(segs)
    ensures Holds(Content(segs[..k] + segs[j..]), l, Content(segs)[l])
  {
    hide Content, RecordAt, DirOk, End, SegmentOk;
    StillInOrder(segs, k, j);
    var after := segs[..k] + segs[j..];
    var i := ContentFrom(segs, l);
    assert Covers(segs[i], l);
    ContentHas(segs, i, l);
    if i < k {
      ContentHas(after, i, l);
    } else {
      assert i >= j;
      assert after[i - j + k] == segs[i];
      ContentHas(after, i - j + k, l);
    }
  }

  ghost predicate Ascending(segs: seq<Segment>) {
    forall i, j :: 0 <= i < j < |segs| ==> segs[i].first < segs[j].first
  }

  lemma NamesAscend(segs: seq<Segment>)
    requires DirOk(segs)
    ensures Ascending(segs)
  {}

  lemma {:induction false} KeepAll(segs: seq<Segment>, next: nat)
    requires forall i :: 0 <= i < |segs| ==> segs[i].first < next
    ensures KeepBelow(segs, next) == segs
  {
    if segs != [] {
      KeepAll(Front(segs), next);
      assert Last(segs).first < next && segs == Front(segs) + [Last(segs)];
    }
  }

  lemma {:induction false} KeptIsPrefix(segs: seq<Segment>, next: nat) returns (k: nat)
    requires Ascending(segs)
    ensures k <= |segs| && KeepBelow(segs, next) == segs[..k]
    ensures k > 0 ==> segs[k - 1].first < next
    ensures k < |segs| ==> segs[k].first >= next
  {
    hide Ascending, KeepBelow;
    if segs == [] || Last(segs).first < next {
      AllBelow(segs, next);
      KeepAll(segs, next);
      k := |segs|;
    } else {
      FrontAscends(segs);
      DropLast(segs, next);
      k := KeptIsPrefix(Front(segs), next);
      SliceOfFront(segs, k);
    }
  }

  lemma DropLast(segs: seq<Segment>, next: nat)
    requires segs != [] && Last(segs).first >= next
    ensures KeepBelow(segs, next) == KeepBelow(Front(segs), next)
  {}

  lemma FrontAscends(segs: seq<Segment>)
    requires Ascending(segs) && segs != []
    ensures Ascending(Front(segs))
  {}

  lemma AllBelow(segs: seq<Segment>, next: nat)
    requires Ascending(segs) && (segs == [] || Last(segs).first < next)
    ensures forall i :: 0 <= i < |segs| ==> segs[i].first < next
  {
    forall i | 0 <= i < |segs|
      ensures segs[i].first < next
    {
      assert i < |segs| - 1 ==> segs[i].first < segs[|segs| - 1].first;
    }
  }

  lemma SliceOfFront(segs: seq<Segment>, k: nat)
    requires k < |segs|
    ensures Front(segs)[..k] == segs[..k]
  {}

  /** A full segment holds a record, so the next lsn names a new file. */
  lemma RotationIsFresh(segs: seq<Segment>, next: nat)
    requires DirOk(segs) && Clean(segs) && LastEnd(segs) == next && Last(segs).bytes != []
    ensures next >= 1
    ensures forall i :: 0 <= i < |segs| ==> segs[i].first < next && End(segs[i]) <= next
  {
    hide SegmentOk;
    assert |Recs(Last(segs))| > 0 by {
      SomeRecord(Last(segs));
    }
    forall i | 0 <= i < |segs|
      ensures segs[i].first < next && End(segs[i]) <= next
    {
      EndsBefore(segs, i);
    }
    assert SegmentOk(Last(segs));
    NamedFromOne(Last(segs));
  }

  lemma SomeRecord(seg: Segment)
    requires TailSize(seg) == 0 && seg.bytes != []
    ensures Recs(seg) != []
  {
    hide Parse;
  }

  lemma NamedFromOne(seg: Segment)
    requires SegmentOk(seg)
    ensures seg.first >= 1
  {}

  lemma EndsBefore(segs: seq<Segment>, i: nat)
    requires DirOk(segs) && i < |segs|
    ensures segs[i].first <= Last(segs).first && End(segs[i]) <= LastEnd(segs)
  {
    hide SegmentOk, Recs;
  }

  /** The checksum Append computes in two parts, outside and inside the lock, is the frame's. */
  lemma BufferIsFrame(rec: OpRecord, lsn: U64, crc: Word32)
    requires crc == Finish(Register(Register(INIT, AfterLsn(rec)), Le(lsn, 8)))
    ensures Le(BodySize(rec), 4) + Le(crc, 4) + Le(lsn, 8) + AfterLsn(rec) == Frame(rec.(lsn := lsn))
  {
    hide Register, Finish, Le, Blob;
    var body := Body(rec.(lsn := lsn));
    assert body[..8] == Le(lsn, 8) && body[8..] == AfterLsn(rec);
    Regroup(Le(BodySize(rec), 4) + Le(crc, 4), Le(lsn, 8), AfterLsn(rec));
  }
}
