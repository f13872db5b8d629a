/**
 Checkpoint installation (src/astervec_db.cc): the metadata file is replaced in
 steps any of which may be the last before a crash. A complete checkpoint can be
 opened at all times, and for every complete checkpoint on disk the log still
 holds all later records.
 */
module Checkpoint {
  import opened Basics

  datatype File = Absent | Damaged | Whole(lsn: nat)

  datatype Phase = Idle | Writing | Written | Unlinked | Linked | Renamed | Truncated

  /**
     The checkpoint files, the lsns the log holds (from `first` up to but not
     including `next`), the lsn truncation goes by, and how far a checkpoint at
     lsn `target` has come.
   */
  datatype State = State(
    meta: File,
    prev: File,
    tmp: File,
    first: nat,
    next: nat,
    main: nat,
    target: nat,
    phase: Phase)

  datatype Step =
    | Append
    | OpenTmp
    | FinishTmp
    | RemovePrev
    | LinkPrev
    | Rename
    | TruncateLog(keep: nat)
    | Done
    | Fail
    | Crash(metaDamaged: bool, prevDamaged: bool)

  /** Records are appended between checkpoints only; truncation works in whole segments and may keep more. */
  predicate Enabled(s: State, step: Step) {
    match step
    case Append => s.phase.Idle?
    case OpenTmp => s.phase.Idle? && s.next > 0
    case FinishTmp => s.phase.Writing?
    case RemovePrev => s.phase.Written? && s.meta != Absent
    case LinkPrev => s.phase.Unlinked?
    case Rename => s.phase.Linked? || (s.phase.Written? && s.meta == Absent)
    case TruncateLog(keep) => s.phase.Renamed? && s.first <= keep <= Max(s.first, s.main + 1)
    case Done => s.phase.Renamed? || s.phase.Truncated?
    case Fail => !s.phase.Idle?
    case Crash(_, _) => true
  }

  function Damage(f: File, damaged: bool): File {
    if damaged && f != Absent then Damaged else f
  }

  /** Open loads the main file, or else the previous one, and then removes a damaged main file. */
  predicate CanOpen(meta: File, prev: File) {
    meta.Whole? || prev.Whole?
  }

  function Opened(s: State): State
    requires CanOpen(s.meta, s.prev)
  {
    if s.meta.Whole? then s.(main := s.meta.lsn, phase := Idle)
    else s.(meta := Absent, main := s.prev.lsn, phase := Idle)
  }

  function Crashed(s: State, step: Step): State
    requires step.Crash?
  {
    s.(meta := Damage(s.meta, step.metaDamaged), prev := Damage(s.prev, step.prevDamaged))
  }

  function Do(s: State, step: Step): State
    requires Enabled(s, step)
    requires step.Crash? ==> CanOpen(Crashed(s, step).meta, Crashed(s, step).prev)
  {
    match step
    case Append => s.(next := s.next + 1)
    case OpenTmp => s.(tmp := Damaged, target := s.next - 1, phase := Writing)
    case FinishTmp => s.(tmp := Whole(s.target), phase := Written)
    case RemovePrev => s.(prev := Absent, phase := Unlinked)
    case LinkPrev => s.(prev := s.meta, phase := Linked)
    case Rename => s.(meta := s.tmp, tmp := Absent, phase := Renamed)
    case TruncateLog(keep) => s.(first := keep, phase := Truncated)
    case Done => s.(main := s.target, phase := Idle)
    case Fail => s.(phase := Idle)
    case Crash(_, _) => Opened(Crashed(s, step))
  }

  // ----- The invariant -----

  /** The log holds every record after the checkpoint, without a gap. */
  predicate Covered(f: File, s: State) {
    f.Whole? ==> s.first <= f.lsn + 1 <= s.next
  }

  /** Truncation would spare the checkpoint. */
  predicate Spared(f: File, s: State) {
    f.Whole? ==> s.main <= f.lsn
  }

  predicate Inv(s: State) {
    && Covered(s.meta, s) && Covered(s.prev, s) && s.meta != Damaged && CanOpen(s.meta, s.prev)
    && Spared(s.meta, s) && s.main + 1 <= s.next
    && (s.meta == Absent || s.phase.Linked? || s.phase.Renamed? ==> Spared(s.prev, s))
    && (s.phase.Unlinked? || s.phase.Linked? ==> s.meta != Absent)
    && (!s.phase.Idle? ==> s.target + 1 == s.next)
    && (s.phase.Written? || s.phase.Unlinked? || s.phase.Linked? ==> s.tmp == Whole(s.target))
    && (s.phase.Renamed? || s.phase.Truncated? ==> s.meta == Whole(s.target))
  }

  /** A store just created: its first metadata file, and an empty log. */
  function Created(lsn: nat): State {
    State(Whole(lsn), Absent, Absent, lsn + 1, lsn + 1, lsn, 0, Idle)
  }

  lemma CreatedOk(lsn: nat)
    ensures Inv(Created(lsn))
  {}

  /** A crash leaves something to open unless it damages every complete checkpoint. */
  ghost predicate Survivable(s: State, step: Step) {
    step.Crash? ==> CanOpen(Crashed(s, step).meta, Crashed(s, step).prev)
  }

  lemma StepKeeps(s: State, step: Step)
    requires Inv(s) && Enabled(s, step) && Survivable(s, step)
    ensures Inv(Do(s, step))
  {}

  // ----- Runs -----

  ghost predicate Possible(s: State, steps: seq<Step>)
    decreases |steps|
  {
    steps != [] ==>
      Enabled(s, steps[0]) && Survivable(s, steps[0]) && Possible(Do(s, steps[0]), steps[1..])
  }

  function DoAll(s: State, steps: seq<Step>): State
    requires Possible(s, steps)
    decreases |steps|
  {
    if steps == [] then s else DoAll(Do(s, steps[0]), steps[1..])
  }

  predicate Undamaged(steps: seq<Step>) {
    forall k :: 0 <= k < |steps| && steps[k].Crash? ==> !steps[k].metaDamaged
  }

  lemma {:induction false} RunKeeps(s: State, steps: seq<Step>)
    requires Inv(s) && Possible(s, steps)
    ensures Inv(DoAll(s, steps))
    ensures s.meta.Whole? && Undamaged(steps) ==> DoAll(s, steps).meta.Whole?
    decreases |steps|
  {
    hide Inv;
    if steps != [] {
      StepKeeps(s, steps[0]);
      if s.meta.Whole? && Undamaged(steps) {
        assert !(steps[0].Crash? && steps[0].metaDamaged);
        MetaStays(s, steps[0]);
      }
      RunKeeps(Do(s, steps[0]), steps[1..]);
    }
  }

  lemma MetaStays(s: State, step: Step)
    requires Inv(s) && Enabled(s, step) && Survivable(s, step) && s.meta.Whole? && !(step.Crash? && step.metaDamaged)
    ensures Do(s, step).meta.Whole?
  {}

  function Appended(steps: seq<Step>): nat {
    if steps == [] then 0 else (if steps[0] == Append then 1 else 0) + Appended(steps[1..])
  }

  /** The log ends where the records appended put its end; nothing else moves it. */
  lemma {:induction false} NextCounts(s: State, steps: seq<Step>)
    requires Possible(s, steps)
    ensures DoAll(s, steps).next == s.next + Appended(steps)
    decreases |steps|
  {
    if steps != [] {
      NextCounts(Do(s, steps[0]), steps[1..]);
    }
  }

  /**
     At every point of every run a complete checkpoint can be opened, and the log
     holds all records after every complete checkpoint. While no crash damages
     it, the main file itself is complete at every point.
   */
  lemma AlwaysRecoverable(lsn: nat, steps: seq<Step>)
    requires Possible(Created(lsn), steps)
    ensures var s := DoAll(Created(lsn), steps);
            && CanOpen(s.meta, s.prev) && Covered(s.meta, s) && Covered(s.prev, s)
            && (Undamaged(steps) ==> s.meta.Whole?)
            && s.next == lsn + 1 + Appended(steps)
  {
    CreatedOk(lsn);
    NextCounts(Created(lsn), steps);
    RunKeeps(Created(lsn), steps);
  }

  /** Opened after a crash, the store has all records from its checkpoint on to replay. */
  lemma OpenedIsCovered(s: State)
    requires Inv(s)
    ensures var o := Opened(s);
            && s.first <= o.main + 1 <= s.next && Inv(o)
            && (if s.meta.Whole? then o.main == s.meta.lsn else o.main == s.prev.lsn && o.meta == Absent)
  {}

  /** A damaged main file can be survived iff the previous checkpoint is complete. */
  lemma FallbackNeedsPrev(s: State)
    requires Inv(s)
    ensures Survivable(s, Crash(true, false)) <==> s.prev.Whole?
  {}

  lemma OneStepMore(s: State, step: Step, rest: seq<Step>)
    requires Enabled(s, step) && !step.Crash? && Possible(Do(s, step), rest)
    ensures Possible(s, [step] + rest) && DoAll(s, [step] + rest) == DoAll(Do(s, step), rest)
  {
    hide Enabled, Do;
    assert ([step] + rest)[1..] == rest;
  }

  /** From any idle state a checkpoint can be installed; the log then keeps what the one that was the main one needs. */
  lemma CanInstall(s: State, keep: nat)
    requires Inv(s) && s.phase.Idle? && s.meta != Absent && s.first <= keep <= Max(s.first, s.main + 1)
    ensures var steps := [OpenTmp, FinishTmp, RemovePrev, LinkPrev, Rename, TruncateLog(keep), Done];
            && Possible(s, steps)
            && DoAll(s, steps) == s.(meta := Whole(s.next - 1), prev := s.meta, tmp := Absent, first := keep, main := s.next - 1,
                                     target := s.next - 1, phase := Idle)
  {
    hide Possible, DoAll, Inv, Enabled, Survivable, Do;
    var a, b, c, d, e, f := InstallStates(s, keep);
    Joined(keep);
    NoSteps(Do(f, Done));
    OneStepMore(f, Done, []);
    OneStepMore(e, TruncateLog(keep), [Done]);
    OneStepMore(d, Rename, [TruncateLog(keep), Done]);
    OneStepMore(c, LinkPrev, [Rename, TruncateLog(keep), Done]);
    OneStepMore(b, RemovePrev, [LinkPrev, Rename, TruncateLog(keep), Done]);
    OneStepMore(a, FinishTmp, [RemovePrev, LinkPrev, Rename, TruncateLog(keep), Done]);
    OneStepMore(s, OpenTmp, [FinishTmp, RemovePrev, LinkPrev, Rename, TruncateLog(keep), Done]);
  }

  predicate Leads(s: State, step: Step, t: State) {
    Enabled(s, step) && !step.Crash? && t == Do(s, step)
  }

  lemma InstallStates(s: State, keep: nat) returns (a: State, b: State, c: State, d: State, e: State, f: State)
    requires Inv(s) && s.phase.Idle? && s.meta != Absent && s.first <= keep <= Max(s.first, s.main + 1)
    ensures Leads(s, OpenTmp, a) && Leads(a, FinishTmp, b) && Leads(b, RemovePrev, c) && Leads(c, LinkPrev, d)
    ensures Leads(d, Rename, e) && Leads(e, TruncateLog(keep), f) && Enabled(f, Done)
    ensures Do(f, Done) == s.(meta := Whole(s.next - 1), prev := s.meta, tmp := Absent, first := keep, main := s.next - 1,
                              target := s.next - 1, phase := Idle)
  {
    a := Do(s, OpenTmp);
    b := Do(a, FinishTmp);
    c := Do(b, RemovePrev);
    d := Do(c, LinkPrev);
    e := Do(d, Rename);
    f := Do(e, TruncateLog(keep));
  }

  /** Putting a step in front of such a list is writing it there. */
  lemma Joined(keep: nat)
    ensures [Done] + [] == [Done] && [TruncateLog(keep)] + [Done] == [TruncateLog(keep), Done]
    ensures [Rename] + [TruncateLog(keep), Done] == [Rename, TruncateLog(keep), Done]
    ensures [LinkPrev] + [Rename, TruncateLog(keep), Done] == [LinkPrev, Rename, TruncateLog(keep), Done]
    ensures [RemovePrev] + [LinkPrev, Rename, TruncateLog(keep), Done] == [RemovePrev, LinkPrev, Rename, TruncateLog(keep), Done]
    ensures [FinishTmp] + [RemovePrev, LinkPrev, Rename, TruncateLog(keep), Done]
            == [FinishTmp, RemovePrev, LinkPrev, Rename, TruncateLog(keep), Done]
    ensures [OpenTmp] + [FinishTmp, RemovePrev, LinkPrev, Rename, TruncateLog(keep), Done]
            == [OpenTmp, FinishTmp, RemovePrev, LinkPrev, Rename, TruncateLog(keep), Done]
  {}

  lemma NoSteps(s: State)
    ensures Possible(s, []) && DoAll(s, []) == s
  {}

  // ----- Installing one checkpoint -----

  class CheckpointFiles {
    var meta: File
    var prev: File
    var tmp: File
    var first: nat
    var next: nat
    var mainCheckpointLsn: nat
    ghost var target: nat
    ghost var phase: Phase

    ghost function Now(): State
      reads this
    {
      State(meta, prev, tmp, first, next, mainCheckpointLsn, target, phase)
    }

    /** A store just created, with its first metadata file installed. */
    constructor (lsn: nat)
      ensures Now() == Created(lsn)
    {
      meta, prev, tmp := Whole(lsn), Absent, Absent;
      first, next, mainCheckpointLsn := lsn + 1, lsn + 1, lsn;
      target, phase := 0, Idle;
    }

    /** Writes the metadata to a temporary file and syncs it. */
    method WriteTmp(lsn: nat, stop: nat) returns (ok: bool)
      requires Inv(Now()) && phase.Idle? && lsn + 1 == next
      modifies this`tmp, this`target, this`phase
      ensures Inv(Now()) && ok == (stop > 1)
      ensures ok ==> phase.Written? && tmp == Whole(lsn) && target == lsn
    {
      if stop == 0 {
        return false;
      }
      tmp := Damaged;
      target, phase := lsn, Writing;
      if stop == 1 {
        return false;
      }
      tmp := Whole(lsn);
      phase := Written;
      return true;
    }

    /** Keeps the current checkpoint as the previous one and puts the new one in its place. */
    method Install(stop: nat) returns (ok: bool)
      requires Inv(Now()) && phase.Written? && tmp == Whole(target)
      modifies this`meta, this`prev, this`tmp, this`phase
      ensures Inv(Now())
      ensures ok ==> phase.Renamed? && meta == Whole(target) && prev == if old(meta) != Absent then old(meta) else old(prev)
      ensures !ok ==> meta == old(meta)
      ensures ok <==> stop > 2
    {
      if meta != Absent {
        if stop == 0 {
          return false;
        }
        prev := Absent;
        phase := Unlinked;
        if stop == 1 {
          return false;
        }
        prev := meta;
        phase := Linked;
      }
      if stop <= 2 {
        return false;
      }
      meta := tmp;
      tmp := Absent;
      phase := Renamed;
      return true;
    }

    /**
     Installs a checkpoint at the last logged lsn, or stops after any of its
     steps, as a crash or an error makes it. The log is then truncated to what the
     checkpoint that was the main one before still needs.
     */
    method CheckpointLocked(keep: nat, stop: nat) returns (ok: bool)
      requires Inv(Now()) && phase.Idle? && next > 0
      requires first <= keep <= Max(first, mainCheckpointLsn + 1)
      modifies this
      ensures Inv(Now()) && next == old(next)
      ensures ok ==> phase.Idle? && meta == Whole(next - 1) && mainCheckpointLsn == next - 1 && first == keep
      ensures ok && old(meta).Whole? ==> prev == old(meta)
      ensures meta == old(meta) || meta == Whole(next - 1)
      ensures ok <==> stop > 5
    {
      var lsn := next - 1;
      ok := WriteTmp(lsn, stop);
      if !ok {
        return;
      }
      ok := Install(stop - 2);
      if !ok {
        return;
      }
      if stop == 5 {
        return false;
      }
      first := keep;
      phase := Truncated;
      mainCheckpointLsn := lsn;
      phase := Idle;
      return true;
    }

    /** Loads the main checkpoint, or the previous one if the main one is missing or damaged. */
    method LoadCheckpoint() returns (ok: bool)
      modifies this`meta, this`mainCheckpointLsn, this`phase
      ensures ok == CanOpen(old(meta), old(prev))
      ensures ok ==> Now() == Opened(old(Now()))
    {
      if meta.Whole? {
        mainCheckpointLsn := meta.lsn;
      } else if prev.Whole? {
        mainCheckpointLsn := prev.lsn;
        meta := Absent;
      } else {
        return false;
      }
      phase := Idle;
      return true;
    }
  }
}
