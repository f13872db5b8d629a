/**
 The segmented operation log (src/oplog.cc): appending with rotation, opening
 after a crash, dropping covered segments, and scanning. A directory of segments
 refines a finite map from lsn to record; Scan returns the unbroken run of that
 map from the requested lsn on.
 */
module OpLogDir {
  import opened Basics
  import opened Crc32
  import opened OpLogFormat

  /** One file: named after the first lsn it may hold. */
  datatype Segment = Segment(first: nat, bytes: seq<Byte>)

  // ----- What a segment and a directory hold -----

  /** The records a scan accepts from the start of `s`, and the bytes it then gives up on. */
  function Accepted(s: seq<Byte>): (seq<OpRecord>, seq<Byte>)
    decreases |s|
  {
    var p := Parse(s);
    if p.None? then ([], s)
    else
      var (rs, tail) := Accepted(s[p.value.1..]);
      ([p.value.0] + rs, tail)
  }

  function Recs(seg: Segment): seq<OpRecord> {
    Accepted(seg.bytes).0
  }

  function TailSize(seg: Segment): nat {
    |Accepted(seg.bytes).1|
  }

  function End(seg: Segment): nat {
    seg.first + |Recs(seg)|
  }

  ghost predicate SegmentOk(seg: Segment) {
    seg.first >= 1 && forall i :: 0 <= i < |Recs(seg)| ==> Recs(seg)[i].lsn == seg.first + i
  }

  /** Files in lsn order; each holds consecutive lsns from its name on, below the next file's name. */
  ghost predicate DirOk(segs: seq<Segment>) {
    && (forall i :: 0 <= i < |segs| ==> SegmentOk(segs[i]))
    && (forall i, j :: 0 <= i < j < |segs| ==> segs[i].first < segs[j].first && End(segs[i]) <= segs[j].first)
  }

  function At(first: nat, rs: seq<OpRecord>, l: nat): OpRecord
    requires first <= l < first + |rs|
  {
    rs[l - first]
  }

  ghost function MapOf(first: nat, rs: seq<OpRecord>): map<nat, OpRecord> {
    map l: nat | first <= l < first + |rs| :: At(first, rs, l)
  }

  ghost function SegmentContent(seg: Segment): map<nat, OpRecord> {
    MapOf(seg.first, Recs(seg))
  }

  function RecordAt(seg: Segment, l: nat): OpRecord
    requires seg.first <= l < End(seg)
  {
    At(seg.first, Recs(seg), l)
  }

  ghost function Content(segs: seq<Segment>): map<nat, OpRecord> {
    if segs == [] then map[] else Content(segs[..|segs| - 1]) + SegmentContent(segs[|segs| - 1])
  }

  /** The unbroken run of records from `from` on. */
  ghost function Run(m: map<nat, OpRecord>, from: nat): (r: seq<OpRecord>)
    decreases Above(m, from)
  {
    if from in m then
      assert from in Above(m, from) && from !in Above(m, from + 1);
      [m[from]] + Run(m, from + 1)
    else []
  }

  ghost function Above(m: map<nat, OpRecord>, from: nat): set<nat> {
    set k | k in m.Keys && k >= from
  }

  // ----- Accepted bytes -----

  lemma {:induction false} AcceptedParts(s: seq<Byte>)
    ensures var (rs, tail) := Accepted(s);
            && s == Frames(rs) + tail && Parse(tail).None?
            && forall i :: 0 <= i < |rs| ==> Fits(rs[i])
    decreases |s|
  {
    hide Frame, Fits, Parse;
    var p := Parse(s);
    if p.Some? {
      FrameOfParse(s);
      var rest := s[p.value.1..];
      AcceptedParts(rest);
      var (rs, tail) := Accepted(rest);
      FramesCons(p.value.0, rs);
      Regroup(Frame(p.value.0), Frames(rs), tail);
    } else {
      assert Frames([]) + s == s;
    }
  }

  lemma {:induction false} AcceptedConcat(s: seq<Byte>, t: seq<Byte>)
    requires Accepted(s).1 == []
    ensures Accepted(s + t) == (Accepted(s).0 + Accepted(t).0, Accepted(t).1)
    decreases |s|
  {
    hide Frame, Fits, Parse;
    FrameOfParse(s);
    NoRecordInNothing();
    if s == [] {
      assert [] + Accepted(t).0 == Accepted(t).0;
      assert s + t == t;
    } else {
      var (r, n) := Parse(s).value;
      assert s + t == Frame(r) + (s[n..] + t);
      ParseOfFrame(r, s[n..] + t);
      assert (s + t)[n..] == s[n..] + t;
      AcceptedConcat(s[n..], t);
      assert [r] + Accepted(s[n..]).0 + Accepted(t).0 == [r] + (Accepted(s[n..]).0 + Accepted(t).0);
    }
  }

  /** A bad record hides everything behind it in its segment, stale records included. */
  lemma {:induction false} AcceptedUpToBad(rs: seq<OpRecord>, bad: seq<Byte>)
    requires forall i :: 0 <= i < |rs| ==> Fits(rs[i])
    requires Parse(bad) == None
    ensures Accepted(Frames(rs) + bad) == (rs, bad)
    decreases rs
  {
    hide Frame, Fits, Parse;
    if rs == [] {
      assert Frames(rs) + bad == bad;
    } else {
      assert Frames(rs) + bad == Frame(rs[0]) + (Frames(rs[1..]) + bad);
      ParseOfFrame(rs[0], Frames(rs[1..]) + bad);
      assert (Frames(rs) + bad)[|Frame(rs[0])|..] == Frames(rs[1..]) + bad;
      AcceptedUpToBad(rs[1..], bad);
      assert [rs[0]] + rs[1..] == rs;
    }
  }

  lemma AcceptedFrame(r: OpRecord)
    requires Fits(r)
    ensures Accepted(Frame(r)) == ([r], [])
  {
    hide Frame, Fits, Parse;
    ParseOfFrame(r, []);
    assert Frame(r) + [] == Frame(r);
    assert Frame(r)[|Frame(r)|..] == [];
    NoRecordInNothing();
    assert Accepted([]) == ([], []) && [r] + [] == [r];
  }

  lemma NoRecordInNothing()
    ensures Parse([]) == None
  {}

  lemma AcceptedNothing(s: seq<Byte>)
    requires Parse(s) == None
    ensures Accepted(s) == ([], s)
  {}

  /** A cut keeps exactly the records whose frames lie wholly before it. */
  lemma {:induction false} AcceptedCut(s: seq<Byte>, c: nat)
    requires c <= |s|
    ensures var kept, all := Accepted(s[..c]).0, Accepted(s).0;
            && |kept| <= |all| && kept == all[..|kept|]
            && |Frames(kept)| <= c
            && (|kept| < |all| ==> |Frames(all[..|kept| + 1])| > c)
    decreases |s|
  {
    hide Frame, Fits, Parse;
    var all := Accepted(s).0;
    ParseOfCut(s, c);
    if Parse(s[..c]).Some? {
      var (r, n) := Parse(s).value;
      FrameOfParse(s);
      assert s[..c][n..] == s[n..][..c - n];
      AcceptedCut(s[n..], c - n);
      var kept' := Accepted(s[n..][..c - n]).0;
      FramesCons(r, kept');
      if |kept'| < |all| - 1 {
        assert all[..|kept'| + 2] == [r] + all[1..][..|kept'| + 1];
        FramesCons(r, all[1..][..|kept'| + 1]);
      }
    } else if Parse(s).Some? {
      var (r, n) := Parse(s).value;
      FrameOfParse(s);
      assert all[..1] == [r];
      FramesCons(r, []);
    }
  }

  lemma FramesCons(r: OpRecord, rs: seq<OpRecord>)
    ensures Frames([r] + rs) == Frame(r) + Frames(rs)
  {
    hide Frame;
    assert ([r] + rs)[1..] == rs;
  }

  // ----- Directory contents -----

  predicate Covers(seg: Segment, l: nat) {
    seg.first <= l < End(seg)
  }

  predicate Holds(m: map<nat, OpRecord>, l: nat, r: OpRecord) {
    l in m && m[l] == r
  }

  lemma {:induction false} ContentHas(segs: seq<Segment>, i: nat, l: nat)
    requires DirOk(segs) && i < |segs| && Covers(segs[i], l)
    ensures Holds(Content(segs), l, RecordAt(segs[i], l))
  {
    hide Recs, SegmentOk, SegmentContent;
    var n := |segs| - 1;
    SegmentContentIs(segs[n], l);
    if i < n {
      assert !Covers(segs[n], l);
      ContentHas(segs[..n], i, l);
    }
  }

  lemma SegmentContentIs(seg: Segment, l: nat)
    ensures l in SegmentContent(seg) <==> Covers(seg, l)
    ensures Covers(seg, l) ==> SegmentContent(seg)[l] == RecordAt(seg, l)
  {
    hide Recs;
  }

  lemma {:induction false} ContentFrom(segs: seq<Segment>, l: nat) returns (i: nat)
    requires l in Content(segs)
    ensures i < |segs| && Covers(segs[i], l)
  {
    hide Recs;
    var n := |segs| - 1;
    if Covers(segs[n], l) {
      i := n;
    } else {
      i := ContentFrom(segs[..n], l);
    }
  }

  lemma {:induction false} RunIs(m: map<nat, OpRecord>, from: nat, out: seq<OpRecord>)
    requires forall j :: 0 <= j < |out| ==> Holds(m, from + j, out[j])
    requires from + |out| !in m
    ensures Run(m, from) == out
    decreases out
  {
    if out != [] {
      assert Holds(m, from + 0, out[0]);
      forall j | 0 <= j < |out[1..]|
        ensures Holds(m, from + 1 + j, out[1..][j])
      {
        assert Holds(m, from + (j + 1), out[j + 1]);
      }
      RunIs(m, from + 1, out[1..]);
      assert out == [out[0]] + out[1..];
    }
  }

  // ----- Scan: what the nested loop computes -----

  datatype ScanResult = ScanResult(out: seq<OpRecord>, dropped: nat, gap: bool)

  /** Feeds the records of one segment from position `k`; true when an lsn is missing. */
  function Feed(out: seq<OpRecord>, from: nat, rs: seq<OpRecord>, k: nat): (seq<OpRecord>, bool)
    requires k <= |rs|
    decreases |rs| - k
  {
    if k == |rs| then (out, false)
    else if rs[k].lsn < from then Feed(out, from, rs, k + 1)
    else if rs[k].lsn != from + |out| then (out, true)
    else Feed(out + [rs[k]], from, rs, k + 1)
  }

  function ScanFrom(out: seq<OpRecord>, dropped: nat, from: nat, segs: seq<Segment>, i: nat): ScanResult
    requires i <= |segs|
    decreases |segs| - i
  {
    if i == |segs| then ScanResult(out, dropped, false)
    else if i + 1 < |segs| && segs[i + 1].first <= from then ScanFrom(out, dropped, from, segs, i + 1)
    else
      var (o, gap) := Feed(out, from, Recs(segs[i]), 0);
      if gap then ScanResult(o, dropped, true)
      else ScanFrom(o, dropped + TailSize(segs[i]), from, segs, i + 1)
  }

  predicate FromSegment(seg: Segment, l: nat, r: OpRecord) {
    Covers(seg, l) && RecordAt(seg, l) == r
  }

  /** One segment continues the run, or shows that the next expected lsn is missing. */
  lemma {:induction false} FeedIs(seg: Segment, out: seq<OpRecord>, from: nat, k: nat)
    requires SegmentOk(seg) && k <= |Recs(seg)|
    requires Max(seg.first + k, from) >= from + |out|
    ensures var (o, gap) := Feed(out, from, Recs(seg), k);
            && (gap <==> from + |out| < Max(seg.first + k, from) < End(seg))
            && (gap ==> o == out)
            && (!gap ==> out <= o
                         && (forall j :: |out| <= j < |o| ==> FromSegment(seg, from + j, o[j]))
                         && (End(seg) <= from || seg.first + k == End(seg) || from + |o| == End(seg)))
    decreases |Recs(seg)| - k
  {
    hide Recs;
    var rs := Recs(seg);
    if k < |rs| {
      assert rs[k].lsn == seg.first + k;
      if rs[k].lsn < from {
        FeedIs(seg, out, from, k + 1);
      } else if rs[k].lsn == from + |out| {
        FeedIs(seg, out + [rs[k]], from, k + 1);
        assert RecordAt(seg, from + |out|) == rs[k];
      }
    }
  }

  /** Everything the first `i` segments hold from `from` on has been passed on. */
  ghost predicate Passed(segs: seq<Segment>, i: nat, from: nat, out: seq<OpRecord>)
    requires i <= |segs|
  {
    && (forall j :: 0 <= j < |out| ==> Holds(Content(segs), from + j, out[j]))
    && (forall k: nat, l: nat :: k < i && Covers(segs[k], l) && l >= from ==> l < from + |out|)
    && (out != [] ==> forall k :: i <= k < |segs| ==> from + |out| <= segs[k].first)
  }

  /** The result of Scan, said of the directory's content alone. */
  ghost predicate IsScan(segs: seq<Segment>, from: nat, r: ScanResult) {
    && r.out == Run(Content(segs), from)
    && (r.gap <==> exists l :: l in Content(segs) && l > from + |r.out|)
  }

  lemma {:induction false} ScanIsRun(out: seq<OpRecord>, dropped: nat, from: nat, segs: seq<Segment>, i: nat)
    requires DirOk(segs) && i <= |segs| && Passed(segs, i, from, out)
    ensures IsScan(segs, from, ScanFrom(out, dropped, from, segs, i))
    decreases |segs| - i
  {
    hide Recs, Run, Content, RecordAt, DirOk, Passed, Feed, IsScan, TailSize;
    if i == |segs| {
      ScanDone(segs, from, out, dropped);
    } else if i + 1 < |segs| && segs[i + 1].first <= from {
      SkipSegment(segs, i, from, out);
      ScanIsRun(out, dropped, from, segs, i + 1);
    } else {
      TakeSegment(segs, i, from, out, dropped);
      var (o, gap) := Feed(out, from, Recs(segs[i]), 0);
      if !gap {
        ScanIsRun(o, dropped + TailSize(segs[i]), from, segs, i + 1);
      }
    }
  }

  lemma ScanDone(segs: seq<Segment>, from: nat, out: seq<OpRecord>, dropped: nat)
    requires DirOk(segs) && Passed(segs, |segs|, from, out)
    ensures IsScan(segs, from, ScanResult(out, dropped, false))
  {
    hide Recs, Run, Content, RecordAt;
    forall l | l in Content(segs)
      ensures l < from + |out|
    {
      var k := ContentFrom(segs, l);
    }
    RunIs(Content(segs), from, out);
  }

  lemma SkipSegment(segs: seq<Segment>, i: nat, from: nat, out: seq<OpRecord>)
    requires DirOk(segs) && i + 1 < |segs| && Passed(segs, i, from, out)
    requires segs[i + 1].first <= from
    ensures Passed(segs, i + 1, from, out)
  {
    hide Recs, Run, Content, RecordAt;
  }

  lemma TakeSegment(segs: seq<Segment>, i: nat, from: nat, out: seq<OpRecord>, dropped: nat)
    requires DirOk(segs) && i < |segs| && Passed(segs, i, from, out)
    ensures var (o, gap) := Feed(out, from, Recs(segs[i]), 0);
            && (gap ==> IsScan(segs, from, ScanResult(o, dropped, true)))
            && (!gap ==> Passed(segs, i + 1, from, o))
  {
    hide Recs, Run, Content, RecordAt, Feed;
    FeedIs(segs[i], out, from, 0);
    var (o, gap) := Feed(out, from, Recs(segs[i]), 0);
    if gap {
      MissingLsn(segs, i, from, out);
    } else {
      PassOn(segs, i, from, out, o);
    }
  }

  /** After a gap the expected lsn is nowhere, and something later is somewhere. */
  lemma MissingLsn(segs: seq<Segment>, i: nat, from: nat, out: seq<OpRecord>)
    requires DirOk(segs) && i < |segs| && Passed(segs, i, from, out)
    requires from + |out| < Max(segs[i].first, from) < End(segs[i])
    ensures Run(Content(segs), from) == out
    ensures exists l :: l in Content(segs) && l > from + |out|
  {
    hide Recs, Run, Content, RecordAt;
    if from + |out| in Content(segs) {
      var k := ContentFrom(segs, from + |out|);
    }
    RunIs(Content(segs), from, out);
    ContentHas(segs, i, Max(segs[i].first, from));
  }

  lemma PassOn(segs: seq<Segment>, i: nat, from: nat, out: seq<OpRecord>, o: seq<OpRecord>)
    requires DirOk(segs) && i < |segs| && Passed(segs, i, from, out) && out <= o
    requires forall j :: |out| <= j < |o| ==> FromSegment(segs[i], from + j, o[j])
    requires End(segs[i]) <= from || segs[i].first == End(segs[i]) || from + |o| == End(segs[i])
    ensures Passed(segs, i + 1, from, o)
  {
    hide Recs, Run, Content, RecordAt;
    forall j | 0 <= j < |o|
      ensures Holds(Content(segs), from + j, o[j])
    {
      if j < |out| {
        assert o[j] == out[j];
      } else {
        assert FromSegment(segs[i], from + j, o[j]);
        ContentHas(segs, i, from + j);
      }
    }
    if |o| > |out| {
      assert FromSegment(segs[i], from + |out|, o[|out|]);
    }
  }

  // ----- Every byte scanned is accounted for -----

  function Bytes(segs: seq<Segment>): nat {
    if segs == [] then 0 else |segs[0].bytes| + Bytes(segs[1..])
  }

  lemma {:induction false} FeedAll(out: seq<OpRecord>, from: nat, rs: seq<OpRecord>, k: nat)
    requires k <= |rs| && forall i :: 0 <= i < |rs| ==> rs[i].lsn >= from
    ensures !Feed(out, from, rs, k).1 ==> Feed(out, from, rs, k).0 == out + rs[k..]
    decreases |rs| - k
  {
    if k < |rs| && rs[k].lsn == from + |out| {
      FeedAll(out + [rs[k]], from, rs, k + 1);
      assert rs[k..] == [rs[k]] + rs[k + 1..];
    }
  }

  lemma {:induction false} FramesConcat(a: seq<OpRecord>, b: seq<OpRecord>)
    ensures |Frames(a + b)| == |Frames(a)| + |Frames(b)|
    decreases a
  {
    hide Frame;
    if a == [] {
      assert a + b == b;
    } else {
      FramesConcat(a[1..], b);
      assert a + b == [a[0]] + (a[1..] + b) && a == [a[0]] + a[1..];
      FramesCons(a[0], a[1..] + b);
      FramesCons(a[0], a[1..]);
    }
  }

  lemma SegmentBytes(seg: Segment)
    ensures |seg.bytes| == |Frames(Recs(seg))| + TailSize(seg)
  {
    hide Accepted, Frames;
    AcceptedParts(seg.bytes);
  }

  lemma {:induction false} ScanAccounts(out: seq<OpRecord>, dropped: nat, from: nat, segs: seq<Segment>, i: nat)
    requires DirOk(segs) && i <= |segs| && (segs != [] ==> from <= segs[0].first)
    ensures var r := ScanFrom(out, dropped, from, segs, i);
            !r.gap ==> |Frames(r.out)| + r.dropped == |Frames(out)| + dropped + Bytes(segs[i..])
    decreases |segs| - i
  {
    hide Recs, Frames, TailSize, Feed;
    if i < |segs| {
      FromFirst(segs, i, from);
      FeedAll(out, from, Recs(segs[i]), 0);
      assert Recs(segs[i])[0..] == Recs(segs[i]);
      FramesConcat(out, Recs(segs[i]));
      SegmentBytes(segs[i]);
      assert segs[i..][1..] == segs[i + 1..];
      var (o, gap) := Feed(out, from, Recs(segs[i]), 0);
      if !gap {
        ScanAccounts(o, dropped + TailSize(segs[i]), from, segs, i + 1);
      }
    }
  }

  lemma FromFirst(segs: seq<Segment>, i: nat, from: nat)
    requires DirOk(segs) && i < |segs| && from <= segs[0].first
    ensures forall k :: 0 <= k < |Recs(segs[i])| ==> Recs(segs[i])[k].lsn >= from
    ensures i + 1 < |segs| ==> segs[i + 1].first > from
  {
    hide Recs;
    assert SegmentOk(segs[i]);
  }

  /** Scanned from its first lsn on and without a gap, a log is its records' frames and the bytes reported dropped. */
  lemma NoByteUnaccounted(segs: seq<Segment>, from: nat)
    requires DirOk(segs) && (segs != [] ==> from <= segs[0].first)
    ensures var r := ScanFrom([], 0, from, segs, 0); !r.gap ==> |Frames(r.out)| + r.dropped == Bytes(segs)
  {
    hide ScanFrom;
    ScanAccounts([], 0, from, segs, 0);
    assert segs[0..] == segs;
  }

  // ----- Effects on the directory -----

  /** A directory whose segments cover exactly the entries of `m` has that content. */
  lemma ContentEq(segs: seq<Segment>, m: map<nat, OpRecord>)
    requires DirOk(segs)
    requires forall i: nat, l: nat :: i < |segs| && Covers(segs[i], l) ==> Holds(m, l, RecordAt(segs[i], l))
    requires forall l :: l in m ==> exists i: nat :: i < |segs| && Covers(segs[i], l)
    ensures Content(segs) == m
  {
    hide Recs, Content, RecordAt;
    forall l | l in m
      ensures l in Content(segs)
    {
      var i: nat :| i < |segs| && Covers(segs[i], l);
      ContentHas(segs, i, l);
    }
    forall l | l in Content(segs)
      ensures Holds(m, l, Content(segs)[l])
    {
      var i := ContentFrom(segs, l);
      ContentHas(segs, i, l);
    }
    assert forall l :: l in m <==> l in Content(segs);
  }

  ghost function Restrict(m: map<nat, OpRecord>, lo: nat, hi: nat): map<nat, OpRecord> {
    map l | l in m && lo <= l < hi :: m[l]
  }

  /** Appending bytes to the current segment, whose own bytes are all records. */
  ghost function Appended(segs: seq<Segment>, bytes: seq<Byte>): seq<Segment>
    requires segs != []
  {
    var last := segs[|segs| - 1];
    segs[|segs| - 1 := Segment(last.first, last.bytes + bytes)]
  }

  ghost predicate Clean(segs: seq<Segment>) {
    segs != [] && TailSize(segs[|segs| - 1]) == 0
  }

  ghost function LastEnd(segs: seq<Segment>): nat
    requires segs != []
  {
    End(segs[|segs| - 1])
  }

  lemma MapOfSnoc(first: nat, rs: seq<OpRecord>, r: OpRecord)
    ensures MapOf(first, rs + [r]) == MapOf(first, rs)[first + |rs| := r]
  {}

  lemma MapOfPrefix(first: nat, rs: seq<OpRecord>, k: nat)
    requires k <= |rs|
    ensures MapOf(first, rs[..k]) == Restrict(MapOf(first, rs), 0, first + k)
  {}

  ghost function Front(segs: seq<Segment>): seq<Segment>
    requires segs != []
  {
    segs[..|segs| - 1]
  }

  ghost function Last(segs: seq<Segment>): Segment
    requires segs != []
  {
    segs[|segs| - 1]
  }

  /** Exchanging the current segment leaves the others' content alone. */
  lemma LastReplaced(segs: seq<Segment>, seg: Segment)
    requires DirOk(segs) && segs != [] && seg.first == Last(segs).first && SegmentOk(seg)
    ensures var after := segs[|segs| - 1 := seg];
            DirOk(after) && Content(after) == Content(Front(segs)) + SegmentContent(seg)
    ensures Content(segs) == Content(Front(segs)) + SegmentContent(Last(segs))
  {
    hide Recs, SegmentContent;
    var after := segs[|segs| - 1 := seg];
    assert after[..|after| - 1] == Front(segs);
  }

  lemma FrontBelow(segs: seq<Segment>)
    requires DirOk(segs) && segs != []
    ensures forall l :: l in Content(Front(segs)) ==> l < Last(segs).first
  {
    hide Recs, Content, RecordAt;
    forall l | l in Content(Front(segs))
      ensures l < Last(segs).first
    {
      var i := ContentFrom(Front(segs), l);
    }
  }

  /** A whole record appended to a clean log adds exactly its own entry. */
  lemma AppendedRecord(segs: seq<Segment>, r: OpRecord)
    requires DirOk(segs) && Clean(segs) && Fits(r) && r.lsn == LastEnd(segs)
    ensures var after := Appended(segs, Frame(r));
            && DirOk(after) && Clean(after) && LastEnd(after) == LastEnd(segs) + 1
            && Content(after) == Content(segs)[r.lsn := r]
  {
    hide Frame, Fits, Content, Accepted;
    var last := Last(segs);
    var seg := Segment(last.first, last.bytes + Frame(r));
    AcceptedFrame(r);
    AcceptedConcat(last.bytes, Frame(r));
    assert Recs(seg) == Recs(last) + [r];
    LastReplaced(segs, seg);
    MapOfSnoc(last.first, Recs(last), r);
  }

  /** Bytes that no scan accepts add nothing. */
  lemma AppendedTorn(segs: seq<Segment>, torn: seq<Byte>)
    requires DirOk(segs) && Clean(segs) && Parse(torn) == None
    ensures var after := Appended(segs, torn);
            DirOk(after) && LastEnd(after) == LastEnd(segs) && Content(after) == Content(segs)
  {
    hide Content, Accepted, Parse;
    var last := Last(segs);
    var seg := Segment(last.first, last.bytes + torn);
    AcceptedNothing(torn);
    AcceptedConcat(last.bytes, torn);
    assert Recs(seg) == Recs(last) + [] == Recs(last);
    LastReplaced(segs, seg);
  }

  lemma EmptySegment(next: nat)
    ensures Recs(Segment(next, [])) == [] && TailSize(Segment(next, [])) == 0
    ensures SegmentContent(Segment(next, [])) == map[]
  {
    NoRecordInNothing();
  }

  lemma ContentSnoc(segs: seq<Segment>, seg: Segment)
    ensures Content(segs + [seg]) == Content(segs) + SegmentContent(seg)
  {
    assert (segs + [seg])[..|segs + [seg]| - 1] == segs;
  }

  lemma NewSegment(segs: seq<Segment>, next: nat)
    requires DirOk(segs) && next >= 1
    requires forall i :: 0 <= i < |segs| ==> segs[i].first < next && End(segs[i]) <= next
    ensures var after := segs + [Segment(next, [])];
            DirOk(after) && Clean(after) && LastEnd(after) == next && Content(after) == Content(segs)
  {
    hide SegmentContent, Recs, Content;
    var seg := Segment(next, []);
    EmptySegment(next);
    assert (segs + [seg])[..|segs|] == segs;
    ContentSnoc(segs, seg);
    assert Content(segs) + map[] == Content(segs);
  }

  /** Removing the segments named at or past `next` loses nothing below it. */
  lemma DroppedStale(segs: seq<Segment>, k: nat, next: nat)
    requires DirOk(segs) && k <= |segs| && next !in Content(segs)
    requires forall i :: 0 <= i < k ==> segs[i].first < next
    requires forall i :: k <= i < |segs| ==> segs[i].first >= next
    ensures DirOk(segs[..k]) && Content(segs[..k]) == Restrict(Content(segs), 0, next)
    ensures forall i :: 0 <= i < k ==> End(segs[i]) <= next
  {
    hide Recs, Content, RecordAt;
    forall i: nat | i < k
      ensures End(segs[i]) <= next
    {
      if End(segs[i]) > next {
        ContentHas(segs, i, next);
      }
    }
    var m := Restrict(Content(segs), 0, next);
    forall i: nat, l: nat | i < k && Covers(segs[i], l)
      ensures Holds(m, l, RecordAt(segs[i], l))
    {
      ContentHas(segs, i, l);
    }
    forall l | l in m
      ensures exists i: nat :: i < k && Covers(segs[..k][i], l)
    {
      var i := ContentFrom(segs, l);
      assert i < k && Covers(segs[..k][i], l);
    }
    ContentEq(segs[..k], m);
  }

  /** Removing leading segments loses exactly the lsns below the first one kept. */
  lemma DroppedCovered(segs: seq<Segment>, k: nat)
    requires DirOk(segs) && k < |segs|
    ensures DirOk(segs[k..])
    ensures forall l :: l in Content(segs[k..]) <==> l in Content(segs) && l >= segs[k].first
    ensures forall l :: l in Content(segs[k..]) ==> Content(segs[k..])[l] == Content(segs)[l]
  {
    hide Recs, Content, RecordAt;
    var m := map l | l in Content(segs) && l >= segs[k].first :: Content(segs)[l];
    forall i: nat, l: nat | i < |segs| - k && Covers(segs[k..][i], l)
      ensures Holds(m, l, RecordAt(segs[k..][i], l))
    {
      ContentHas(segs, k + i, l);
    }
    forall l | l in m
      ensures exists i: nat :: i < |segs| - k && Covers(segs[k..][i], l)
    {
      var i := ContentFrom(segs, l);
      assert Covers(segs[k..][i - k], l);
    }
    ContentEq(segs[k..], m);
  }

  /** The current segment cut at byte `c`: what a crash may leave of it. */
  ghost function Cut(segs: seq<Segment>, c: nat): seq<Segment>
    requires segs != [] && c <= |segs[|segs| - 1].bytes|
  {
    var last := segs[|segs| - 1];
    segs[|segs| - 1 := Segment(last.first, last.bytes[..c])]
  }

  /** The lsn after the last whole record the cut leaves. */
  ghost function CutEnd(segs: seq<Segment>, c: nat): nat
    requires segs != [] && c <= |segs[|segs| - 1].bytes|
  {
    LastEnd(Cut(segs, c))
  }

  ghost predicate FrameWithin(seg: Segment, k: nat, c: nat)
    requires k < |Recs(seg)|
  {
    |Frames(Recs(seg)[..k + 1])| <= c
  }

  lemma CutSegment(seg: Segment, c: nat)
    requires SegmentOk(seg) && c <= |seg.bytes|
    ensures var cut := Segment(seg.first, seg.bytes[..c]);
            SegmentOk(cut) && End(cut) <= End(seg) && Recs(cut) == Recs(seg)[..|Recs(cut)|]
  {
    hide Accepted, Frames;
    AcceptedCut(seg.bytes, c);
    var cut := Segment(seg.first, seg.bytes[..c]);
    assert forall i :: 0 <= i < |Recs(cut)| ==> Recs(cut)[i] == Recs(seg)[i];
  }

  /** A cut loses exactly the records whose frames it damages, and no other. */
  lemma CutLast(segs: seq<Segment>, c: nat)
    requires DirOk(segs) && segs != [] && c <= |segs[|segs| - 1].bytes|
    ensures DirOk(Cut(segs, c)) && CutEnd(segs, c) <= LastEnd(segs)
    ensures Content(Cut(segs, c)) == Restrict(Content(segs), 0, CutEnd(segs, c))
    ensures var last := segs[|segs| - 1];
            forall k: nat :: k < |Recs(last)| ==>
              (FrameWithin(last, k, c) <==> last.first + k < CutEnd(segs, c))
  {
    hide Content, Recs, FrameWithin, SegmentOk, DirOk, MapOf;
    var last := Last(segs);
    var seg := Segment(last.first, last.bytes[..c]);
    LastOk(segs);
    CutSegment(last, c);
    forall k: nat | k < |Recs(last)|
      ensures FrameWithin(last, k, c) <==> k < |Recs(seg)|
    {
      KeptIffWithin(last, c, k);
    }
    LastReplaced(segs, seg);
    FrontBelow(segs);
    MapOfPrefix(last.first, Recs(last), |Recs(seg)|);
  }

  lemma LastOk(segs: seq<Segment>)
    requires DirOk(segs) && segs != []
    ensures SegmentOk(Last(segs))
  {
    hide SegmentOk;
  }

  lemma KeptIffWithin(seg: Segment, c: nat, k: nat)
    requires c <= |seg.bytes| && k < |Recs(seg)|
    ensures FrameWithin(seg, k, c) <==> k < |Recs(Segment(seg.first, seg.bytes[..c]))|
  {
    hide Accepted, Frames;
    AcceptedCut(seg.bytes, c);
    var kept := |Accepted(seg.bytes[..c]).0|;
    if k < kept {
      FramesGrow(Recs(seg), k + 1, kept);
    } else {
      FramesGrow(Recs(seg), kept + 1, k + 1);
    }
  }

  lemma {:induction false} FramesGrow(rs: seq<OpRecord>, j: nat, k: nat)
    requires j <= k <= |rs|
    ensures |Frames(rs[..j])| <= |Frames(rs[..k])|
    decreases rs
  {
    hide Frame;
    if j > 0 {
      assert rs[..j] == [rs[0]] + rs[1..][..j - 1];
      assert rs[..k] == [rs[0]] + rs[1..][..k - 1];
      FramesCons(rs[0], rs[1..][..j - 1]);
      FramesCons(rs[0], rs[1..][..k - 1]);
      FramesGrow(rs[1..], j - 1, k - 1);
    }
  }
}
