/**
 The operation log of the database as recovery sees it (src/astervec_db.cc):
 records in lsn order, abort records among them. Recovery finds the aborted
 operations first and then applies the rest.
 */
module DbLog {
  import opened IdTypes
  import opened DbState
  import opened DbReplay
  import opened DbView

  datatype Entry<V, P> = Logged(ch: Change<V, P>) | Abort(lsn: nat)

  /** The records of a run, the first of them at lsn `base`. */
  function LogOf<V, P>(base: nat, evs: seq<Event<V, P>>): seq<Entry<V, P>> {
    if evs == [] then [] else
    var front := LogOf(base, evs[..|evs| - 1]);
    match evs[|evs| - 1]
    case Completed(ch) => front + [Logged(ch)]
    case Aborted(ch) => front + [Logged(ch), Abort(base + |front|)]
    case Edited(_, _) => front
  }

  function AbortedLsns<V, P>(log: seq<Entry<V, P>>): set<nat> {
    set k | 0 <= k < |log| && log[k].Abort? :: log[k].lsn
  }

  function ReplayEntry<V, P>(d: Db<V, P>, e: Entry<V, P>, lsn: nat, aborted: set<nat>): Db<V, P> {
    match e
    case Logged(ch) => Replay(d, ch, lsn in aborted)
    case Abort(_) => d
  }

  function ReplayAll<V, P>(d: Db<V, P>, log: seq<Entry<V, P>>, base: nat, aborted: set<nat>): Db<V, P> {
    if log == [] then d
    else ReplayEntry(ReplayAll(d, log[..|log| - 1], base, aborted), log[|log| - 1], base + |log| - 1, aborted)
  }

  function Recovered<V, P>(d: Db<V, P>, log: seq<Entry<V, P>>, base: nat): Db<V, P> {
    ReplayAll(d, log, base, AbortedLsns(log))
  }

  lemma AbortedSnoc<V, P>(log: seq<Entry<V, P>>, e: Entry<V, P>)
    ensures AbortedLsns(log + [e]) == AbortedLsns(log) + if e.Abort? then {e.lsn} else {}
  {
    var more := log + [e];
    assert more[|log|] == e;
    assert forall k :: 0 <= k < |log| ==> more[k] == log[k];
    forall l | l in AbortedLsns(log)
      ensures l in AbortedLsns(more)
    {
      var k :| 0 <= k < |log| && log[k].Abort? && log[k].lsn == l;
      assert more[k].Abort?;
    }
  }

  /** The log aborts operations of its own only, those that failed. */
  lemma {:induction false} AbortsOfRun<V, P>(base: nat, evs: seq<Event<V, P>>)
    ensures forall l :: l in AbortedLsns(LogOf(base, evs)) ==> base <= l < base + |LogOf(base, evs)|
  {
    if evs != [] {
      var front := LogOf(base, evs[..|evs| - 1]);
      AbortsOfRun(base, evs[..|evs| - 1]);
      match evs[|evs| - 1]
      case Completed(ch) => AbortedSnoc(front, Logged(ch));
      case Aborted(ch) =>
        AbortedSnoc(front, Logged(ch));
        AbortedSnoc(front + [Logged(ch)], Abort(base + |front|));
        assert front + [Logged(ch), Abort(base + |front|)] == front + [Logged(ch)] + [Abort(base + |front|)];
      case Edited(_, _) =>
    }
  }

  ghost predicate SameBelow(a: set<nat>, b: set<nat>, base: nat, end: nat) {
    forall l :: base <= l < end ==> (l in a <==> l in b)
  }

  /** One more record applied, or one more abort record passed over. */
  lemma ReplaySnoc<V, P>(d: Db<V, P>, log: seq<Entry<V, P>>, e: Entry<V, P>, base: nat, aborted: set<nat>)
    ensures ReplayAll(d, log + [e], base, aborted)
            == ReplayEntry(ReplayAll(d, log, base, aborted), e, base + |log|, aborted)
  {
    assert (log + [e])[..|log|] == log;
  }

  /** Replaying the log redoes the run event by event. */
  lemma {:induction false} LogRedoesRun<V, P>(d: Db<V, P>, base: nat, evs: seq<Event<V, P>>, aborted: set<nat>)
    requires SameBelow(aborted, AbortedLsns(LogOf(base, evs)), base, base + |LogOf(base, evs)|)
    ensures ReplayAll(d, LogOf(base, evs), base, aborted) == RedoAll(d, evs)
  {
    if evs != [] {
      hide ReplayAll, AbortedLsns, Replay;
      var front := LogOf(base, evs[..|evs| - 1]);
      var lsn := base + |front|;
      AbortsOfRun(base, evs[..|evs| - 1]);
      match evs[|evs| - 1]
      case Completed(ch) =>
        AbortedSnoc(front, Logged(ch));
        LogRedoesRun(d, base, evs[..|evs| - 1], aborted);
        ReplaySnoc(d, front, Logged(ch), base, aborted);
        assert lsn !in aborted;
      case Aborted(ch) =>
        AbortedSnoc(front, Logged(ch));
        AbortedSnoc(front + [Logged(ch)], Abort(lsn));
        assert front + [Logged(ch), Abort(lsn)] == front + [Logged(ch)] + [Abort(lsn)];
        LogRedoesRun(d, base, evs[..|evs| - 1], aborted);
        ReplaySnoc(d, front, Logged(ch), base, aborted);
        ReplaySnoc(d, front + [Logged(ch)], Abort(lsn), base, aborted);
        assert lsn in aborted;
      case Edited(_, _) => LogRedoesRun(d, base, evs[..|evs| - 1], aborted);
    } else {
      assert LogOf(base, evs) == [];
    }
  }

  // ----- A crash -----

  /** The operation a crash cut short: how many of its effects were done, and whether its record is whole. */
  datatype InFlight<V, P> = Nothing | Started(ch: Change<V, P>, done: nat, whole: bool)

  /** An operation is logged before its first effect. */
  ghost predicate CanCrash<V, P>(s: Db<V, P>, f: InFlight<V, P>) {
    f.Started? ==> Issued(s.core, f.ch) && f.done <= |Effects(s, f.ch)| && (!f.whole ==> f.done == 0)
  }

  /** What the crash leaves: the log, and the payload rows with the effects done. */
  function LogLeft<V, P>(base: nat, evs: seq<Event<V, P>>, f: InFlight<V, P>): seq<Entry<V, P>> {
    if f.Started? && f.whole then LogOf(base, evs) + [Logged(f.ch)] else LogOf(base, evs)
  }

  function RowsLeft<V, P>(s: Db<V, P>, f: InFlight<V, P>): map<nat, P>
    requires f.Started? ==> f.done <= |Effects(s, f.ch)|
  {
    if f.Started? then RowsSoFar(s, f.ch, f.done) else s.rows
  }

  /** The state of the uncrashed run, with the operation in flight if its record is whole. */
  function Uncrashed<V, P>(s: Db<V, P>, f: InFlight<V, P>): Db<V, P> {
    if f.Started? && f.whole then Complete(s, f.ch) else s
  }

  /** With the operation in flight counted as done when its record is whole. */
  function EventsLeft<V, P>(evs: seq<Event<V, P>>, f: InFlight<V, P>): seq<Event<V, P>> {
    if f.Started? && f.whole then evs + [Completed(f.ch)] else evs
  }

  lemma LeftIsLog<V, P>(base: nat, evs: seq<Event<V, P>>, f: InFlight<V, P>)
    ensures LogLeft(base, evs, f) == LogOf(base, EventsLeft(evs, f))
  {
    if f.Started? && f.whole {
      assert (evs + [Completed(f.ch)])[..|evs|] == evs;
    }
  }

  lemma LeftIsRun<V, P>(d: Db<V, P>, evs: seq<Event<V, P>>, f: InFlight<V, P>)
    requires DbOk(d) && PossibleRun(d, evs) && CanCrash(Run(d, evs), f)
    ensures PossibleRun(d, EventsLeft(evs, f)) && Run(d, EventsLeft(evs, f)) == Uncrashed(Run(d, evs), f)
    ensures NoFailedReinsert(evs) ==> NoFailedReinsert(EventsLeft(evs, f))
  {
    hide CoreOk, Effects, Complete, Issued;
    if f.Started? && f.whole {
      assert (evs + [Completed(f.ch)])[..|evs|] == evs;
    }
  }

  lemma LeftRows<V, P>(d: Db<V, P>, evs: seq<Event<V, P>>, f: InFlight<V, P>)
    requires DbOk(d) && PossibleRun(d, evs) && CanCrash(Run(d, evs), f)
    ensures RedoAll(Db(d.core, RowsLeft(Run(d, evs), f)), EventsLeft(evs, f)).rows == Uncrashed(Run(d, evs), f).rows
  {
    hide CoreOk, Possible, Effects, Issued, ReplayRows, ReplayCore, RowsAfter;
    var s := Run(d, evs);
    if f.Started? && f.whole {
      assert (evs + [Completed(f.ch)])[..|evs|] == evs;
      InFlightRows(d, evs, f.ch, f.done);
      CompleteIs(s, f.ch);
    } else {
      NoEffects(s, f);
      CompletedRows(d, evs);
    }
  }

  lemma NoEffects<V, P>(s: Db<V, P>, f: InFlight<V, P>)
    requires f.Started? ==> f.done == 0
    ensures RowsLeft(s, f) == s.rows
  {}

  /**
     Recovery is exact. From the core of any checkpoint and the payload rows as
     the crash left them, replaying the log after the checkpoint yields the rows,
     the vectors, tombstones, live count and mappings of the uncrashed run,
     with the operation in flight iff its record is whole; and the state to the
     letter unless a reinsert failed since the checkpoint.
   */
  lemma RecoveryIsExact<V, P>(d: Db<V, P>, base: nat, evs: seq<Event<V, P>>, f: InFlight<V, P>)
    requires DbOk(d) && PossibleRun(d, evs) && CanCrash(Run(d, evs), f)
    ensures var back := Recovered(Db(d.core, RowsLeft(Run(d, evs), f)), LogLeft(base, evs, f), base);
            var goal := Uncrashed(Run(d, evs), f);
            && DbOk(back) && DbOk(goal) && back.rows == goal.rows && Settled(back.core) == Settled(goal.core)
            && View(back) == View(goal)
            && (NoFailedReinsert(evs) ==> back == goal)
  {
    hide CoreOk, PossibleRun, CanCrash, NoFailedReinsert, RowsLeft, LogLeft, EventsLeft, Settled, Tracks, View, Uncrashed;
    var s := Run(d, evs);
    var left := EventsLeft(evs, f);
    CanCrashDone(s, f);
    var rows := RowsLeft(s, f);
    LeftIsLog(base, evs, f);
    LeftIsRun(d, evs, f);
    LeftRows(d, evs, f);
    RecoveredIsRedone(Db(d.core, rows), base, left);
    RunKeeps(d, left);
    RunTracks(d, rows, left);
    TracksSettled(RedoAll(Db(d.core, rows), left).core, Run(d, left).core);
    LiveOfSettled(RedoAll(Db(d.core, rows), left).core, Run(d, left).core);
    SettledView(RedoAll(Db(d.core, rows), left), Run(d, left));
    if NoFailedReinsert(evs) {
      RunExact(d, rows, left);
    }
  }

  lemma CanCrashDone<V, P>(s: Db<V, P>, f: InFlight<V, P>)
    requires CanCrash(s, f)
    ensures f.Started? ==> f.done <= |Effects(s, f.ch)|
  {}

  lemma RecoveredIsRedone<V, P>(d: Db<V, P>, base: nat, evs: seq<Event<V, P>>)
    ensures Recovered(d, LogOf(base, evs), base) == RedoAll(d, evs)
  {
    LogRedoesRun(d, base, evs, AbortedLsns(LogOf(base, evs)));
  }

  lemma LiveOfSettled<V>(a: Core<V>, b: Core<V>)
    requires Tracks(a, b)
    ensures LiveIds(a) == LiveIds(b)
  {}

  // ----- Update ids after recovery -----

  /** An update id that shows in the log, aborted or not, is never handed out again. */
  lemma {:induction false} LoggedIdsTaken<V, P>(d: Db<V, P>, log: seq<Entry<V, P>>, base: nat, aborted: set<nat>, k: nat)
    requires k < |log| && log[k].Logged? && !log[k].ch.Delete?
    ensures var i := log[k].ch.internal;
            i >= FIRST_UPDATE_ID ==> i < ReplayAll(d, log, base, aborted).core.next
  {
    var front := log[..|log| - 1];
    if k < |front| {
      assert front[k] == log[k];
      LoggedIdsTaken(d, front, base, aborted, k);
      NextGrows(ReplayAll(d, front, base, aborted), log[|log| - 1], base + |log| - 1, aborted);
    }
  }

  lemma NextGrows<V, P>(d: Db<V, P>, e: Entry<V, P>, lsn: nat, aborted: set<nat>)
    ensures ReplayEntry(d, e, lsn, aborted).core.next >= d.core.next
  {}

  // ----- The discrepancy of failed reinserts -----

  /** A reinsert that failed stays mapped in memory; recovery does not map it. */
  lemma FailedReinsertDiffers()
    ensures var gone := Core.Core(map[7 := 1], {7}, map[], map[], FIRST_UPDATE_ID, 0);
            var d: Db<nat, nat> := Db.Db(gone, map[]);
            var again := Insert(7, FIRST_UPDATE_ID, 2, Absent);
            var evs := [Aborted(again)];
            && DbOk(d) && PossibleRun(d, evs)
            && Resolve(Run(d, evs).core, 7) == FIRST_UPDATE_ID
            && Resolve(Recovered(d, LogOf(1, evs), 1).core, 7) == 7
  {
    var gone := Core.Core(map[7 := 1], {7}, map[], map[], FIRST_UPDATE_ID, 0);
    var d: Db<nat, nat> := Db.Db(gone, map[]);
    var again := Insert(7, FIRST_UPDATE_ID, 2, Absent);
    var evs := [Aborted(again)];
    assert LiveIds(gone) == {};
    assert evs[..0] == [];
    RecoveredIsRedone(d, 1, evs);
    assert RedoAll(d, evs) == Replay(d, again, true);
  }
}
