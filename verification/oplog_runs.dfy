/**
 Any number of appends, segment rotations, crashes at arbitrary bytes, reopenings
 and truncations: what a later scan returns. The effects are those the writer's
 methods are proved to have; `latest` remembers, for the statement only, the
 record last appended under each lsn.
 */
module OpLogRuns {
  import opened Basics
  import opened OpLogFormat
  import opened OpLogDir
  import opened OpLogStore

  datatype Event =
    | Append(rec: OpRecord, rotate: bool)
    | Crash(cut: nat, from: nat)  // the file ends at `cut`; recovery scans from `from` and reopens
    | Truncate(lsn: nat)

  datatype State = State(segs: seq<Segment>, next: nat, floor: nat, latest: map<nat, OpRecord>)

  ghost predicate Enabled(s: State, e: Event) {
    s.segs != [] &&
    match e
    case Append(rec, rotate) =>
      Fits(rec) && s.next < 0x1_0000_0000_0000_0000 && (rotate ==> Last(s.segs).bytes != [])
    case Crash(cut, from) => cut <= |Last(s.segs).bytes| && s.floor <= from <= s.next
    case Truncate(_) => true
  }

  /** One past the last lsn recovery accepts: where the reopened log continues. */
  ghost function NextAfter(segs: seq<Segment>, from: nat): nat {
    from + |ScanFrom([], 0, from, segs, 0).out|
  }

  ghost function Step(s: State, e: Event): State
    requires Enabled(s, e)
  {
    match e
    case Append(rec, rotate) =>
      var stored := rec.(lsn := s.next);
      State(AfterAppend(s.segs, stored, rotate), s.next + 1, s.floor, s.latest[s.next := stored])
    case Crash(cut, from) =>
      var left := Cut(s.segs, cut);
      State(AfterOpen(left, NextAfter(left, from)), NextAfter(left, from), from, s.latest)
    case Truncate(lsn) =>
      State(AfterTruncate(s.segs, lsn), s.next, Max(s.floor, lsn), s.latest)
  }

  ghost predicate Possible(s: State, es: seq<Event>)
    decreases es
  {
    es == [] || (Enabled(s, es[0]) && Possible(Step(s, es[0]), es[1..]))
  }

  ghost function Exec(s: State, es: seq<Event>): State
    requires Possible(s, es)
    decreases es
  {
    if es == [] then s else Exec(Step(s, es[0]), es[1..])
  }

  /** A log just opened in an empty directory. */
  ghost function Fresh(next: nat): State {
    State([Segment(next, [])], next, next, map[])
  }

  /** What is on disk was appended last under its lsn, and nothing from `floor` on is missing. */
  ghost predicate Inv(s: State) {
    && DirOk(s.segs) && Clean(s.segs) && LastEnd(s.segs) == s.next && s.floor >= 1
    && (forall l :: l in Content(s.segs) ==> Holds(s.latest, l, Content(s.segs)[l]))
    && (forall l: nat {:trigger l in Content(s.segs)} :: s.floor <= l < s.next ==> l in Content(s.segs))
  }

  lemma FreshInv(next: nat)
    requires next >= 1
    ensures Inv(Fresh(next))
  {
    NewSegment([], next);
    assert [] + [Segment(next, [])] == Fresh(next).segs;
  }

  lemma {:induction false} ContentBelowEnd(segs: seq<Segment>)
    requires DirOk(segs) && segs != []
    ensures forall l :: l in Content(segs) ==> l < LastEnd(segs)
  {
    hide Recs, Content;
    forall l | l in Content(segs)
      ensures l < LastEnd(segs)
    {
      var i := ContentFrom(segs, l);
    }
  }

  lemma {:induction false} RunLength(m: map<nat, OpRecord>, from: nat, end: nat)
    requires from <= end && end !in m
    requires forall l: nat {:trigger l in m} :: from <= l < end ==> l in m
    ensures |Run(m, from)| == end - from
    ensures forall j: nat :: j < end - from ==> Holds(m, from + j, Run(m, from)[j])
    decreases end - from
  {
    if from < end {
      RunLength(m, from + 1, end);
      forall j: nat | j < end - from
        ensures Holds(m, from + j, Run(m, from)[j])
      {
        if j > 0 {
          assert Holds(m, from + 1 + (j - 1), Run(m, from + 1)[j - 1]);
        }
      }
    }
  }

  lemma RotateKeeps(segs: seq<Segment>, next: nat, rotate: bool)
    requires DirOk(segs) && Clean(segs) && LastEnd(segs) == next
    requires rotate ==> Last(segs).bytes != []
    ensures var after := Rotated(segs, next, rotate);
            DirOk(after) && Clean(after) && LastEnd(after) == next && Content(after) == Content(segs)
  {
    hide Content, DirOk, Recs;
    if rotate {
      RotationIsFresh(segs, next);
      NewSegment(segs, next);
    }
  }

  lemma AppendKeeps(s: State, e: Event)
    requires Inv(s) && e.Append? && Enabled(s, e)
    ensures Inv(Step(s, e))
  {
    hide Frame, Fits, Content, DirOk, Recs, Appended, Clean, LastEnd, Rotated;
    var stored := e.rec.(lsn := s.next);
    FitsAnyLsn(e.rec, s.next);
    RotateKeeps(s.segs, s.next, e.rotate);
    var segs := Rotated(s.segs, s.next, e.rotate);
    assert segs != [] by { CleanNonempty(segs); }
    AppendedRecord(segs, stored);
  }

  lemma CleanNonempty(segs: seq<Segment>)
    requires Clean(segs)
    ensures segs != []
  {}

  lemma FitsAnyLsn(r: OpRecord, lsn: U64)
    requires Fits(r)
    ensures Fits(r.(lsn := lsn))
  {}

  /** Reopening continues after the last whole record, or at the checkpoint if that is later. */
  lemma CrashKeeps(s: State, e: Event)
    requires Inv(s) && e.Crash? && Enabled(s, e)
    ensures Inv(Step(s, e))
    ensures Step(s, e).next == Max(e.from, CutEnd(s.segs, e.cut))
  {
    hide Content, DirOk, Recs, Run, Cut, ScanFrom, KeepBelow, Clean, LastEnd;
    var left := Cut(s.segs, e.cut);
    CutLast(s.segs, e.cut);
    ContentBelowEnd(s.segs);
    var to := Max(e.from, CutEnd(s.segs, e.cut));
    PassedNothing(left, e.from);
    ScanIsRun([], 0, e.from, left, 0);
    RunLength(Content(left), e.from, to);
    KeptBelow(left, to);
    NewSegment(KeepBelow(left, to), to);
  }

  lemma PassedNothing(segs: seq<Segment>, from: nat)
    ensures Passed(segs, 0, from, [])
  {}

  lemma {:induction false} TruncateKeepsDir(segs: seq<Segment>, lsn: nat)
    requires DirOk(segs) && segs != []
    ensures var after := AfterTruncate(segs, lsn);
            && DirOk(after) && after != [] && Last(after) == Last(segs)
            && (forall l :: l in Content(after) ==> Holds(Content(segs), l, Content(after)[l]))
            && (forall l: nat :: l >= lsn && l in Content(segs) ==> l in Content(after))
            && (|after| == 1 || after[1].first > lsn)
    decreases segs
  {
    hide Content, Recs;
    if |segs| > 1 && segs[1].first <= lsn {
      DroppedCovered(segs, 1);
      TruncateKeepsDir(segs[1..], lsn);
    }
  }

  lemma TruncateKeeps(s: State, e: Event)
    requires Inv(s) && e.Truncate?
    ensures Enabled(s, e) && Inv(Step(s, e))
    ensures |Step(s, e).segs| == 1 || Step(s, e).segs[1].first > e.lsn
  {
    hide Content, DirOk, Recs, AfterTruncate;
    TruncateKeepsDir(s.segs, e.lsn);
  }

  lemma {:induction false} RunKeeps(s: State, es: seq<Event>)
    requires Inv(s) && Possible(s, es)
    ensures Inv(Exec(s, es))
    decreases es
  {
    hide Inv, Enabled, Step;
    if es != [] {
      match es[0]
      case Append(_, _) => AppendKeeps(s, es[0]); RunKeeps(Step(s, es[0]), es[1..]);
      case Crash(_, _) => CrashKeeps(s, es[0]); RunKeeps(Step(s, es[0]), es[1..]);
      case Truncate(_) => TruncateKeeps(s, es[0]); RunKeeps(Step(s, es[0]), es[1..]);
    }
  }

  lemma ScanOfInv(s: State, from: nat)
    requires Inv(s) && s.floor <= from <= s.next
    ensures var r := ScanFrom([], 0, from, s.segs, 0);
            && |r.out| == s.next - from && !r.gap
            && forall j: nat :: j < |r.out| ==> Holds(s.latest, from + j, r.out[j])
  {
    hide Content, DirOk, Recs, Run, ScanFrom, LastEnd;
    ContentBelowEnd(s.segs);
    PassedNothing(s.segs, from);
    ScanIsRun([], 0, from, s.segs, 0);
    RunLength(Content(s.segs), from, s.next);
    forall j: nat | j < s.next - from
      ensures Holds(s.latest, from + j, Run(Content(s.segs), from)[j])
    {
      assert Holds(Content(s.segs), from + j, Run(Content(s.segs), from)[j]);
    }
  }

  /**
   After any run, a scan from any retained lsn returns every record up to the
   end of the log, in lsn order without a gap, each one field for field the
   record last appended under its lsn.
   */
  lemma LogSurvives(first: nat, es: seq<Event>, from: nat)
    requires first >= 1 && Possible(Fresh(first), es)
    ensures var s := Exec(Fresh(first), es);
            s.floor <= from <= s.next ==>
              var r := ScanFrom([], 0, from, s.segs, 0);
              && |r.out| == s.next - from && !r.gap
              && forall j: nat :: j < |r.out| ==> Holds(s.latest, from + j, r.out[j])
  {
    hide Inv, ScanFrom, Possible;
    FreshInv(first);
    RunKeeps(Fresh(first), es);
    var s := Exec(Fresh(first), es);
    if s.floor <= from <= s.next {
      ScanOfInv(s, from);
    }
  }
}
