/**
 Recovery from the operation log (src/astervec_db.cc): replaying the records
 after a checkpoint over payload rows that have run ahead of it yields the state
 of the run that did not crash.
 */
module DbReplay {
  import opened IdTypes
  import opened DbState

  // ----- Replaying one record -----

  /** Replay decides by the state it finds whether the live count changes. */
  function ReplayCore<V, P>(c: Core<V>, ch: Change<V, P>, aborted: bool): Core<V> {
    var t := Taken(c, ch);
    if aborted then t else
    match ch
    case Insert(r, i, v, _) =>
      var m := if i >= FIRST_UPDATE_ID then MapTo(t, r, i) else t;
      m.(vectors := m.vectors[i := v], live := if Alive(t, r) then t.live else t.live + 1)
    case Update(r, i, o, v, _) =>
      var m := MapTo(t.(vectors := t.vectors[i := v]), r, i);
      m.(tombs := m.tombs + {o}, live := if Alive(t, r) then t.live else t.live + 1)
    case Delete(r, i) =>
      var m := Forget(t.(tombs := t.tombs + {i}), r);
      m.(live := if Alive(t, r) then t.live - 1 else t.live)
  }

  /** Rows that are there are left alone: they may be newer than the record. */
  function ReplayRows<V, P>(rows: map<nat, P>, ch: Change<V, P>): map<nat, P> {
    match ch
    case Insert(_, i, _, p) => if i !in rows && p.Present? then rows[i := p.doc] else rows
    case Update(_, i, o, _, p) => (if i in rows then rows else NewRow(rows, i, o, p)) - {o}
    case Delete(_, i) => rows - {i}
  }

  function Replay<V, P>(d: Db<V, P>, ch: Change<V, P>, aborted: bool): Db<V, P> {
    Db(ReplayCore(d.core, ch, aborted), if aborted then d.rows else ReplayRows(d.rows, ch))
  }

  /** On the state the operation was issued in, replay does to the core what the operation did. */
  lemma ReplayIsComplete<V, P>(c: Core<V>, ch: Change<V, P>)
    requires CoreOk(c) && Ready(c, ch)
    ensures ReplayCore(c, ch, false) == CoreAfter(c, ch)
  {
    hide IdsOk, MapsOk, MapTo, Forget, LiveIds;
    match ch
    case Insert(r, i, v, _) =>
      TakenAlive(c, ch);
      MapElsewhere(Taken(c, ch), r, i, v);
    case Update(r, i, o, v, _) =>
      TakenAlive(c, ch);
      MapElsewhere(Taken(c, ch), r, i, v);
    case Delete(r, i) => ForgetElsewhere(c, i, r);
  }

  lemma TakenAlive<V, P>(c: Core<V>, ch: Change<V, P>)
    ensures Alive(Taken(c, ch), ch.realId) == Alive(c, ch.realId)
  {}

  /**
     An operation that failed leaves what its replay leaves unless it was a
     reinsert: that one has been mapped before its node was inserted.
   */
  lemma FailedIsReplayed<V, P>(c: Core<V>, ch: Change<V, P>)
    requires CoreOk(c) && Issued(c, ch) && !ch.Delete?
    ensures Failed(c, ch) == ReplayCore(c, ch, true) <==> ch.Update? || ch.realId !in c.tombs
  {
    IssuedIsReady(c, ch);
    FreshId(c, ch);
    if ch.Insert? && ch.realId in c.tombs {
      assert ch.internal in Failed(c, ch).rev && ch.internal !in ReplayCore(c, ch, true).rev;
    }
  }

  // ----- Runs -----

  datatype Event<V, P> =
    | Completed(ch: Change<V, P>)
    | Aborted(ch: Change<V, P>)
    | Edited(realId: nat, doc: P)

  ghost predicate Possible<V, P>(d: Db<V, P>, ev: Event<V, P>) {
    match ev
    case Completed(ch) => Issued(d.core, ch)
    case Aborted(ch) => Issued(d.core, ch) && !ch.Delete?
    case Edited(r, _) => r < FIRST_UPDATE_ID && Alive(d.core, r)
  }

  function After<V, P>(d: Db<V, P>, ev: Event<V, P>): Db<V, P> {
    match ev
    case Completed(ch) => Complete(d, ch)
    case Aborted(ch) => d.(core := Failed(d.core, ch))
    case Edited(r, doc) => d.(rows := d.rows[Resolve(d.core, r) := doc])
  }

  function Run<V, P>(d: Db<V, P>, evs: seq<Event<V, P>>): Db<V, P> {
    if evs == [] then d else After(Run(d, evs[..|evs| - 1]), evs[|evs| - 1])
  }

  ghost predicate PossibleRun<V, P>(d: Db<V, P>, evs: seq<Event<V, P>>) {
    evs != [] ==>
      PossibleRun(d, evs[..|evs| - 1]) && Possible(Run(d, evs[..|evs| - 1]), evs[|evs| - 1])
  }

  /** What replay makes of an event: payload edits are not logged. */
  function Redo<V, P>(d: Db<V, P>, ev: Event<V, P>): Db<V, P> {
    match ev
    case Completed(ch) => Replay(d, ch, false)
    case Aborted(ch) => Replay(d, ch, true)
    case Edited(_, _) => d
  }

  function RedoAll<V, P>(d: Db<V, P>, evs: seq<Event<V, P>>): Db<V, P> {
    if evs == [] then d else Redo(RedoAll(d, evs[..|evs| - 1]), evs[|evs| - 1])
  }

  lemma AfterKeeps<V, P>(d: Db<V, P>, ev: Event<V, P>)
    requires DbOk(d) && Possible(d, ev)
    ensures DbOk(After(d, ev))
  {
    hide CoreOk, Complete, Failed, Issued;
    match ev
    case Completed(ch) =>
      IssuedIsReady(d.core, ch);
      CompleteKeeps(d, ch);
    case Aborted(ch) =>
      IssuedIsReady(d.core, ch);
      FailedKeeps(d, ch);
    case Edited(r, doc) => ResolvedLive(d.core, r);
  }

  lemma {:induction false} RunKeeps<V, P>(d: Db<V, P>, evs: seq<Event<V, P>>)
    requires DbOk(d) && PossibleRun(d, evs)
    ensures DbOk(Run(d, evs))
  {
    hide DbOk, Possible, After;
    if evs != [] {
      RunKeeps(d, evs[..|evs| - 1]);
      AfterKeeps(Run(d, evs[..|evs| - 1]), evs[|evs| - 1]);
    }
  }

  // ----- The core -----

  /** A mapping to an id without a vector resolves to nothing: it is what a failed reinsert leaves. */
  function Settled<V>(c: Core<V>): Core<V> {
    c.(fwd := map r | r in c.fwd && c.fwd[r] in c.vectors :: c.fwd[r],
       rev := map i | i in c.rev && i in c.vectors :: c.rev[i])
  }

  /** The replayed core has the run's vectors, tombstones, counters and mappings to stored ids. */
  ghost predicate Tracks<V>(t: Core<V>, c: Core<V>) {
    && t.vectors == c.vectors && t.tombs == c.tombs && t.next == c.next && t.live == c.live
    && SameStored(t.fwd, c.fwd, c.vectors.Keys)
  }

  /** The second map has the first one's keys, and they agree on what leads to a stored id. */
  ghost predicate SameStored(a: map<nat, nat>, b: map<nat, nat>, stored: set<nat>) {
    && (forall r :: r in a ==> r in b && (a[r] in stored || b[r] in stored ==> b[r] == a[r]))
    && (forall r :: r in b && b[r] in stored ==> r in a)
  }

  /** Another id is stored that nobody is mapped to, or that one real id is mapped to with it. */
  lemma OneMoreStored(a: map<nat, nat>, b: map<nat, nat>, stored: set<nat>, r: nat, i: nat)
    requires SameStored(a, b, stored)
    requires (forall q :: q in a ==> a[q] != i) && (forall q :: q in b ==> b[q] != i)
    ensures SameStored(a, b, stored + {i}) && SameStored(a[r := i], b[r := i], stored + {i})
  {}

  lemma TracksSettled<V>(t: Core<V>, c: Core<V>)
    requires CoreOk(t) && CoreOk(c) && Tracks(t, c)
    ensures Settled(t) == Settled(c)
  {
    hide LiveIds, MapsOk, IdsOk;
    var a, b := Settled(t), Settled(c);
    assert a.fwd == b.fwd by {
      hide CoreOk;
    }
    forall i
      ensures i in a.rev ==> i in b.rev && a.rev[i] == b.rev[i]
      ensures i in b.rev ==> i in a.rev
    {
      if i in a.rev {
        BackAndForth(t, i);
        BackAndForth(c, i);
      }
      if i in b.rev {
        BackAndForth(c, i);
        BackAndForth(t, i);
      }
    }
    assert a.rev == b.rev;
  }

  /** The two maps of a core are inverse to each other at an id. */
  lemma BackAndForth<V>(c: Core<V>, i: nat)
    requires MapsOk(c)
    ensures i in c.rev ==> c.rev[i] in c.fwd && c.fwd[c.rev[i]] == i
    ensures forall r :: r in c.fwd && c.fwd[r] == i ==> i in c.rev && c.rev[i] == r
  {}

  lemma TracksIssued<V, P>(t: Core<V>, c: Core<V>, ch: Change<V, P>)
    requires CoreOk(t) && CoreOk(c) && Tracks(t, c) && Issued(c, ch)
    ensures Issued(t, ch)
  {
    hide LiveIds;
  }

  lemma NotMapped<V>(c: Core<V>, i: nat)
    requires MapsOk(c) && i !in c.rev
    ensures forall r :: r in c.fwd ==> c.fwd[r] != i
  {}

  lemma TracksInsert<V, P>(t: Core<V>, c: Core<V>, ch: Change<V, P>)
    requires CoreOk(t) && CoreOk(c) && Tracks(t, c) && Ready(c, ch) && Ready(t, ch) && ch.Insert?
    ensures Tracks(CoreAfter(t, ch), CoreAfter(c, ch))
  {
    hide LiveIds, MapsOk, IdsOk, Alive, SameStored, Ready;
    FreshId(c, ch);
    FreshId(t, ch);
    NotMapped(c, ch.internal);
    NotMapped(t, ch.internal);
    OneMoreStored(t.fwd, c.fwd, c.vectors.Keys, ch.realId, ch.internal);
    assert CoreAfter(c, ch).vectors.Keys == c.vectors.Keys + {ch.internal};
  }

  lemma TracksUpdate<V, P>(t: Core<V>, c: Core<V>, ch: Change<V, P>)
    requires CoreOk(t) && CoreOk(c) && Tracks(t, c) && Ready(c, ch) && Ready(t, ch) && ch.Update?
    ensures Tracks(CoreAfter(t, ch), CoreAfter(c, ch))
  {
    hide LiveIds, MapsOk, IdsOk, Alive, SameStored, Ready;
    FreshId(c, ch);
    FreshId(t, ch);
    NotMapped(c, ch.internal);
    NotMapped(t, ch.internal);
    OneMoreStored(t.fwd, c.fwd, c.vectors.Keys, ch.realId, ch.internal);
    assert CoreAfter(c, ch).vectors.Keys == c.vectors.Keys + {ch.internal};
  }

  lemma TracksDelete<V, P>(t: Core<V>, c: Core<V>, ch: Change<V, P>)
    requires CoreOk(t) && CoreOk(c) && Tracks(t, c) && Ready(c, ch) && Ready(t, ch) && ch.Delete?
    ensures Tracks(CoreAfter(t, ch), CoreAfter(c, ch))
  {
    hide LiveIds;
  }

  lemma TracksCompleted<V, P>(t: Core<V>, c: Core<V>, ch: Change<V, P>)
    requires CoreOk(t) && CoreOk(c) && Tracks(t, c) && Ready(c, ch) && Ready(t, ch)
    ensures Tracks(CoreAfter(t, ch), CoreAfter(c, ch))
  {
    hide CoreOk, Tracks, Ready, CoreAfter;
    match ch
    case Insert(_, _, _, _) => TracksInsert(t, c, ch);
    case Update(_, _, _, _, _) => TracksUpdate(t, c, ch);
    case Delete(_, _) => TracksDelete(t, c, ch);
  }

  lemma SameLive<V>(a: Core<V>, b: Core<V>)
    requires a.vectors == b.vectors && a.tombs == b.tombs
    ensures LiveIds(a) == LiveIds(b)
  {}

  lemma TakenOk<V, P>(t: Core<V>, ch: Change<V, P>)
    requires CoreOk(t)
    ensures CoreOk(Taken(t, ch))
  {
    hide LiveIds;
    SameLive(t, Taken(t, ch));
  }

  lemma TracksAborted<V, P>(t: Core<V>, c: Core<V>, ch: Change<V, P>)
    requires CoreOk(t) && CoreOk(c) && Tracks(t, c) && Ready(c, ch) && !ch.Delete?
    ensures Tracks(Taken(t, ch), Failed(c, ch)) && CoreOk(Taken(t, ch))
  {
    hide IdsOk, LiveIds;
    FreshId(c, ch);
    TakenOk(t, ch);
    if ch.internal >= FIRST_UPDATE_ID && ch.Insert? {
      TracksMapped(t, c, ch.realId, ch.internal);
    }
  }

  /** Mapping a dead real id to an id without a vector changes nothing that resolves. */
  lemma TracksMapped<V>(t: Core<V>, c: Core<V>, r: nat, i: nat)
    requires Tracks(t, c) && MapsOk(c) && !Alive(c, r) && i !in c.vectors
    ensures Tracks(Observe(t, i), MapTo(Observe(c, i), r, i))
  {}

  lemma TracksCore<V, P>(t: Db<V, P>, d: Db<V, P>, ev: Event<V, P>)
    requires DbOk(d) && CoreOk(t.core) && Tracks(t.core, d.core) && Possible(d, ev)
    ensures CoreOk(Redo(t, ev).core) && Tracks(Redo(t, ev).core, After(d, ev).core)
  {
    hide MapsOk, IdsOk, LiveIds, CoreAfter, Issued, Tracks, Failed, Taken, Complete, ReplayCore, Ready;
    match ev
    case Completed(ch) =>
      TracksIssued(t.core, d.core, ch);
      IssuedIsReady(d.core, ch);
      IssuedIsReady(t.core, ch);
      TracksCompleted(t.core, d.core, ch);
      ReplayIsComplete(t.core, ch);
      CompleteIs(d, ch);
      MapsAfter(t.core, ch);
      IdsAfter(t.core, ch);
      CountAfter(t.core, ch);
    case Aborted(ch) =>
      IssuedIsReady(d.core, ch);
      TracksAborted(t.core, d.core, ch);
      AbortedCore(t.core, ch);
    case Edited(_, _) =>
  }

  lemma AbortedCore<V, P>(c: Core<V>, ch: Change<V, P>)
    ensures ReplayCore(c, ch, true) == Taken(c, ch)
  {}

  lemma {:induction false} RunTracks<V, P>(d: Db<V, P>, rows: map<nat, P>, evs: seq<Event<V, P>>)
    requires DbOk(d) && PossibleRun(d, evs)
    ensures var t := RedoAll(Db(d.core, rows), evs); CoreOk(t.core) && Tracks(t.core, Run(d, evs).core)
  {
    hide CoreOk, Possible, After, Redo;
    if evs != [] {
      RunTracks(d, rows, evs[..|evs| - 1]);
      RunKeeps(d, evs[..|evs| - 1]);
      TracksCore(RedoAll(Db(d.core, rows), evs[..|evs| - 1]), Run(d, evs[..|evs| - 1]), evs[|evs| - 1]);
    }
  }

  /** No reinsert of the run failed. */
  ghost predicate NoFailedReinsert<V, P>(evs: seq<Event<V, P>>) {
    forall k :: 0 <= k < |evs| && evs[k].Aborted? && evs[k].ch.Insert? ==> evs[k].ch.internal < FIRST_UPDATE_ID
  }

  lemma {:induction false} RunExact<V, P>(d: Db<V, P>, rows: map<nat, P>, evs: seq<Event<V, P>>)
    requires DbOk(d) && PossibleRun(d, evs) && NoFailedReinsert(evs)
    ensures RedoAll(Db(d.core, rows), evs).core == Run(d, evs).core
  {
    if evs != [] {
      hide CoreOk, CoreAfter, ReplayCore, Issued, Complete;
      var front := evs[..|evs| - 1];
      RunExact(d, rows, front);
      RunKeeps(d, front);
      var s := Run(d, front);
      match evs[|evs| - 1]
      case Completed(ch) =>
        IssuedIsReady(s.core, ch);
        ReplayIsComplete(s.core, ch);
        CompleteIs(s, ch);
      case Aborted(ch) => AbortedCore(s.core, ch);
      case Edited(_, _) =>
    }
  }

  // ----- The payload rows -----

  /** Nothing is unstored or revived, and a row goes only with its version. */
  ghost predicate Later<V, P>(a: Db<V, P>, b: Db<V, P>) {
    && a.core.vectors.Keys <= b.core.vectors.Keys && a.core.tombs <= b.core.tombs
    && (forall i :: i in a.rows && i !in b.core.tombs ==> i in b.rows)
  }

  lemma AfterLater<V, P>(d: Db<V, P>, ev: Event<V, P>)
    requires DbOk(d) && Possible(d, ev)
    ensures Later(d, After(d, ev))
  {
    hide MapsOk, IdsOk, LiveIds, MapTo, Forget, Complete;
    match ev
    case Completed(ch) =>
      CompleteIs(d, ch);
      StoredAfter(d.core, ch);
    case Aborted(ch) => FailedStored(d.core, ch);
    case Edited(r, doc) =>
  }

  lemma FailedStored<V, P>(c: Core<V>, ch: Change<V, P>)
    ensures Failed(c, ch).vectors == c.vectors && Failed(c, ch).tombs == c.tombs
  {}

  lemma {:induction false} PossiblePrefix<V, P>(d: Db<V, P>, evs: seq<Event<V, P>>, k: nat)
    requires PossibleRun(d, evs) && k <= |evs|
    ensures PossibleRun(d, evs[..k])
  {
    hide Possible;
    if k < |evs| {
      PossiblePrefix(d, evs[..|evs| - 1], k);
      assert evs[..|evs| - 1][..k] == evs[..k];
    } else {
      assert evs[..k] == evs;
    }
  }

  lemma {:induction false} RunLater<V, P>(d: Db<V, P>, evs: seq<Event<V, P>>, k: nat)
    requires DbOk(d) && PossibleRun(d, evs) && k <= |evs|
    ensures Later(Run(d, evs[..k]), Run(d, evs))
  {
    hide DbOk, Possible, After, Later;
    if k < |evs| {
      var front := evs[..|evs| - 1];
      RunLater(d, front, k);
      assert front[..k] == evs[..k];
      RunKeeps(d, front);
      AfterLater(Run(d, front), evs[|evs| - 1]);
      LaterStill(Run(d, evs[..k]), Run(d, front), Run(d, evs));
    } else {
      assert evs[..k] == evs;
      LaterSame(Run(d, evs));
    }
  }

  lemma LaterStill<V, P>(a: Db<V, P>, b: Db<V, P>, c: Db<V, P>)
    requires Later(a, b) && Later(b, c)
    ensures Later(a, c)
  {}

  lemma LaterSame<V, P>(a: Db<V, P>)
    ensures Later(a, a)
  {}

  ghost predicate SameAt<P>(a: map<nat, P>, b: map<nat, P>, i: nat) {
    (i in a <==> i in b) && (i in a ==> a[i] == b[i])
  }

  /** The rows the run ends with, at least for the versions in `keep`; versions dead by then have none. */
  ghost predicate Ahead<V, P>(rows: map<nat, P>, s: Db<V, P>, keep: set<nat>) {
    && (forall i :: i in keep ==> i in LiveIds(s.core) && SameAt(rows, s.rows, i))
    && (forall i :: i in s.core.tombs ==> i !in rows)
  }

  /**
     While rows that ran ahead are replayed up to the state `cur` of the run: what
     is not stored yet and what stays are as they will be; what will die has a
     row only if it has one in the run; what is dead has none.
   */
  ghost predicate TrackAt<V, P>(q: map<nat, P>, rows: map<nat, P>, cur: Db<V, P>, s: Db<V, P>, keep: set<nat>, i: nat) {
    if i !in cur.core.vectors then SameAt(q, rows, i)
    else if i in cur.core.tombs then i !in q
    else (i in keep ==> SameAt(q, rows, i)) && (i in s.core.tombs && i in q ==> i in cur.rows)
  }

  ghost predicate RowsTrack<V, P>(q: map<nat, P>, rows: map<nat, P>, cur: Db<V, P>, s: Db<V, P>, keep: set<nat>) {
    forall i :: TrackAt(q, rows, cur, s, keep, i)
  }

  /** A step of the run at one id; `next` is the state after it. */
  lemma InsertAt<V, P>(q: map<nat, P>, rows: map<nat, P>, cur: Db<V, P>, ch: Change<V, P>, next: Db<V, P>, s: Db<V, P>,
                       keep: set<nat>, i: nat)
    requires ch.Insert? && ch.internal !in cur.core.vectors && ch.internal !in cur.core.tombs
    requires next.core.vectors.Keys == cur.core.vectors.Keys + {ch.internal} && next.core.tombs == cur.core.tombs
    requires next.rows == RowsAfter(cur.rows, ch) && Later(next, s) && Ahead(rows, s, keep)
    requires TrackAt(q, rows, cur, s, keep, i)
    ensures TrackAt(ReplayRows(q, ch), rows, next, s, keep, i)
  {
    hide LiveIds;
    OldIds(s.core);
  }

  lemma UpdateAt<V, P>(q: map<nat, P>, rows: map<nat, P>, cur: Db<V, P>, ch: Change<V, P>, next: Db<V, P>, s: Db<V, P>,
                       keep: set<nat>, i: nat)
    requires ch.Update? && ch.internal !in cur.core.vectors && ch.internal !in cur.core.tombs
    requires ch.prior in cur.core.vectors && ch.prior !in cur.core.tombs
    requires next.core.vectors.Keys == cur.core.vectors.Keys + {ch.internal} && next.core.tombs == cur.core.tombs + {ch.prior}
    requires next.rows == RowsAfter(cur.rows, ch) && Later(next, s) && Ahead(rows, s, keep)
    requires TrackAt(q, rows, cur, s, keep, i) && TrackAt(q, rows, cur, s, keep, ch.prior)
    ensures TrackAt(ReplayRows(q, ch), rows, next, s, keep, i)
  {
    hide LiveIds;
    OldIds(s.core);
    assert ch.prior in s.core.tombs && ch.prior != ch.internal;
    assert i != ch.internal && i != ch.prior ==> SameAt(ReplayRows(q, ch), q, i);
  }

  lemma DeleteAt<V, P>(q: map<nat, P>, rows: map<nat, P>, cur: Db<V, P>, ch: Change<V, P>, next: Db<V, P>, s: Db<V, P>,
                       keep: set<nat>, i: nat)
    requires ch.Delete? && ch.internal in cur.core.vectors
    requires next.core.vectors.Keys == cur.core.vectors.Keys && next.core.tombs == cur.core.tombs + {ch.internal}
    requires next.rows == RowsAfter(cur.rows, ch) && TrackAt(q, rows, cur, s, keep, i)
    ensures TrackAt(ReplayRows(q, ch), rows, next, s, keep, i)
  {}

  lemma OldIds<V>(c: Core<V>)
    ensures forall i :: i in LiveIds(c) ==> i in c.vectors && i !in c.tombs
  {}

  lemma PriorStored<V, P>(c: Core<V>, ch: Change<V, P>)
    requires Issued(c, ch)
    ensures ch.Update? ==> ch.prior in c.vectors && ch.prior !in c.tombs
    ensures ch.Delete? ==> ch.internal in c.vectors
  {}

  lemma RowsCompleted<V, P>(q: map<nat, P>, rows: map<nat, P>, cur: Db<V, P>, ch: Change<V, P>, s: Db<V, P>, keep: set<nat>)
    requires DbOk(cur) && Issued(cur.core, ch) && Later(Complete(cur, ch), s) && Ahead(rows, s, keep)
    requires RowsTrack(q, rows, cur, s, keep)
    ensures RowsTrack(ReplayRows(q, ch), rows, Complete(cur, ch), s, keep)
  {
    hide CoreOk, CoreAfter, LiveIds, Issued, Complete, Later, Ahead, TrackAt, RowsAfter, ReplayRows;
    CompleteIs(cur, ch);
    StoredAfter(cur.core, ch);
    PriorStored(cur.core, ch);
    if !ch.Delete? {
      IssuedIsReady(cur.core, ch);
      FreshId(cur.core, ch);
    }
    var next, after := Complete(cur, ch), ReplayRows(q, ch);
    forall i
      ensures TrackAt(after, rows, next, s, keep, i)
    {
      assert TrackAt(q, rows, cur, s, keep, i);
      match ch
      case Insert(_, _, _, _) => InsertAt(q, rows, cur, ch, next, s, keep, i);
      case Update(_, _, _, _, _) => UpdateAt(q, rows, cur, ch, next, s, keep, i);
      case Delete(_, _) => DeleteAt(q, rows, cur, ch, next, s, keep, i);
    }
  }

  lemma RowsStep<V, P>(t: Db<V, P>, rows: map<nat, P>, cur: Db<V, P>, ev: Event<V, P>, s: Db<V, P>, keep: set<nat>)
    requires DbOk(cur) && Possible(cur, ev) && Later(After(cur, ev), s) && Ahead(rows, s, keep)
    requires RowsTrack(t.rows, rows, cur, s, keep)
    ensures RowsTrack(Redo(t, ev).rows, rows, After(cur, ev), s, keep)
  {
    hide CoreOk, LiveIds, Issued, Complete, Later, Ahead, ReplayRows;
    match ev
    case Completed(ch) =>
      hide RowsTrack;
      RowsCompleted(t.rows, rows, cur, ch, s, keep);
    case Aborted(ch) =>
      FailedStored(cur.core, ch);
      forall i
        ensures TrackAt(t.rows, rows, After(cur, ev), s, keep, i)
      {
        assert TrackAt(t.rows, rows, cur, s, keep, i);
      }
    case Edited(r, doc) =>
      forall i
        ensures TrackAt(t.rows, rows, After(cur, ev), s, keep, i)
      {
        assert TrackAt(t.rows, rows, cur, s, keep, i);
      }
  }

  lemma {:induction false} RowsOfRun<V, P>(d: Db<V, P>, rows: map<nat, P>, evs: seq<Event<V, P>>, k: nat, keep: set<nat>)
    requires DbOk(d) && PossibleRun(d, evs) && Ahead(rows, Run(d, evs), keep) && k <= |evs|
    ensures RowsTrack(RedoAll(Db(d.core, rows), evs[..k]).rows, rows, Run(d, evs[..k]), Run(d, evs), keep)
  {
    hide DbOk, Possible, After, Later, Ahead, RowsTrack, Redo;
    var s := Run(d, evs);
    RunLater(d, evs, k);
    if k == 0 {
      TrackStart(rows, d, s, keep);
    } else {
      RowsOfRun(d, rows, evs, k - 1, keep);
      PossiblePrefix(d, evs, k);
      var front := evs[..k - 1];
      assert evs[..k][..k - 1] == front;
      RunKeeps(d, front);
      RowsStep(RedoAll(Db(d.core, rows), front), rows, Run(d, front), evs[k - 1], s, keep);
    }
  }

  lemma TrackStart<V, P>(rows: map<nat, P>, d: Db<V, P>, s: Db<V, P>, keep: set<nat>)
    requires Later(d, s) && Ahead(rows, s, keep)
    ensures RowsTrack(rows, rows, d, s, keep)
  {
    forall i
      ensures TrackAt(rows, rows, d, s, keep, i)
    {}
  }

  // ----- Recovery -----

  /** Replayed over rows that ran ahead, the run ends with those rows, but for versions that are neither kept nor dead. */
  lemma RowsReplayed<V, P>(d: Db<V, P>, rows: map<nat, P>, evs: seq<Event<V, P>>, keep: set<nat>)
    requires DbOk(d) && PossibleRun(d, evs) && Ahead(rows, Run(d, evs), keep)
    ensures var s := Run(d, evs); var q := RedoAll(Db(d.core, rows), evs).rows;
            && (forall i :: i in keep || i !in s.core.vectors ==> SameAt(q, rows, i))
            && (forall i :: i in s.core.tombs && i in s.core.vectors ==> i !in q)
  {
    hide DbOk, PossibleRun;
    RowsOfRun(d, rows, evs, |evs|, keep);
    assert evs[..|evs|] == evs;
    var s, q := Run(d, evs), RedoAll(Db(d.core, rows), evs).rows;
    forall i
      ensures i in keep || i !in s.core.vectors ==> SameAt(q, rows, i)
      ensures i in s.core.tombs && i in s.core.vectors ==> i !in q
    {
      assert TrackAt(q, rows, s, s, keep, i);
      LiveIff(s.core, i);
    }
  }

  lemma SameRows<P>(a: map<nat, P>, b: map<nat, P>)
    requires forall i: nat :: SameAt(a, b, i)
    ensures a == b
  {
    forall i | i in a || i in b
      ensures i in a && i in b && a[i] == b[i]
    {
      assert SameAt(a, b, i);
    }
    assert a.Keys == b.Keys;
  }

  /** No crash in flight: rows with all the run's payload effects come out as the run's. */
  lemma CompletedRows<V, P>(d: Db<V, P>, evs: seq<Event<V, P>>)
    requires DbOk(d) && PossibleRun(d, evs)
    ensures RedoAll(Db(d.core, Run(d, evs).rows), evs).rows == Run(d, evs).rows
  {
    hide Possible, CoreOk;
    var s := Run(d, evs);
    RunKeeps(d, evs);
    RowsReplayed(d, s.rows, evs, LiveIds(s.core));
    var q := RedoAll(Db(d.core, s.rows), evs).rows;
    forall i
      ensures SameAt(q, s.rows, i)
    {
      LiveIff(s.core, i);
    }
    SameRows(q, s.rows);
  }

  /** The rows after the first effects of an operation. */
  function RowsSoFar<V, P>(d: Db<V, P>, ch: Change<V, P>, k: nat): map<nat, P>
    requires k <= |Effects(d, ch)|
  {
    ApplyAll(d.(core := Taken(d.core, ch)), Effects(d, ch)[..k]).rows
  }

  predicate Quiet<V, P>(es: seq<Effect<V, P>>) {
    forall k :: 0 <= k < |es| ==> !es[k].PutRow? && !es[k].DropRow?
  }

  lemma {:induction false} QuietKeepsRows<V, P>(d: Db<V, P>, es: seq<Effect<V, P>>)
    requires Quiet(es)
    ensures ApplyAll(d, es).rows == d.rows
    decreases |es|
  {
    if es != [] {
      QuietKeepsRows(Apply(d, es[0]), es[1..]);
    }
  }

  /** Quiet effects, one on the rows, quiet effects: the rows change at that one. */
  lemma OneRowEffect<V, P>(d: Db<V, P>, a: seq<Effect<V, P>>, e: Effect<V, P>, b: seq<Effect<V, P>>, k: nat)
    requires Quiet(a) && Quiet(b) && k <= |a| + 1 + |b|
    ensures var es := a + [e] + b;
            ApplyAll(d, es[..k]).rows == if k <= |a| then d.rows else Apply(d, e).rows
  {
    var es := a + [e] + b;
    if k <= |a| {
      assert es[..k] == a[..k];
      QuietKeepsRows(d, a[..k]);
    } else {
      var rest := b[..k - |a| - 1];
      assert es[..k] == a + [e] + rest;
      ApplyConcat(d, a + [e], rest);
      ApplyConcat(d, a, [e]);
      QuietKeepsRows(d, a);
      ApplyOne(ApplyAll(d, a), e);
      QuietKeepsRows(ApplyAll(d, a + [e]), rest);
      RowsOfEffect(d, ApplyAll(d, a), e);
    }
  }

  lemma RowsOfEffect<V, P>(c: Db<V, P>, d: Db<V, P>, e: Effect<V, P>)
    requires c.rows == d.rows
    ensures Apply(c, e).rows == Apply(d, e).rows
  {}

  /** An operation writes its new row before it drops the old one, and touches no other. */
  lemma RowsSoFarAre<V, P>(d: Db<V, P>, ch: Change<V, P>, k: nat)
    requires k <= |Effects(d, ch)|
    ensures var rows := RowsSoFar(d, ch, k);
            match ch
            case Insert(_, i, _, p) => rows == d.rows || rows == RowsAfter(d.rows, ch)
            case Update(_, i, o, _, p) => rows == d.rows || rows == NewRow(d.rows, i, o, p) || rows == RowsAfter(d.rows, ch)
            case Delete(_, i) => rows == d.rows || rows == RowsAfter(d.rows, ch)
  {
    hide ApplyAll, Alive;
    var es, t := Effects(d, ch), d.(core := Taken(d.core, ch));
    match ch
    case Insert(r, i, v, p) =>
      var quiet := (if i >= FIRST_UPDATE_ID then [MapReal(r, i)] else []) + [StoreVector(i, v), CountLive(1)];
      if p.Present? {
        assert es == quiet + [PutRow(i, p.doc)] + [];
        OneRowEffect(t, quiet, PutRow(i, p.doc), [], k);
      } else {
        assert es == quiet;
        QuietKeepsRows(t, es[..k]);
      }
    case Update(r, i, o, v, p) =>
      var quiet := [StoreVector(i, v), MapReal(r, i), Tombstone(o)];
      var row := if p.Present? then [PutRow(i, p.doc)] else if o in d.rows then [PutRow(i, d.rows[o])] else [];
      if row == [] {
        assert es == quiet + [DropRow(o)] + [];
        OneRowEffect(t, quiet, DropRow(o), [], k);
      } else if k <= 4 {
        assert es[..k] == (quiet + row + [])[..k];
        OneRowEffect(t, quiet, row[0], [], k);
      } else {
        assert es[..k] == es && es == (quiet + row) + [DropRow(o)];
        ApplyConcat(t, quiet + row, [DropRow(o)]);
        assert (quiet + row + [])[..4] == quiet + row;
        OneRowEffect(t, quiet, row[0], [], 4);
        ApplyOne(ApplyAll(t, quiet + row), DropRow(o));
      }
    case Delete(r, i) =>
      var rest := [ForgetReal(r)] + (if Alive(d.core, r) then [CountLive(-1)] else []);
      assert es == [Tombstone(i)] + [DropRow(i)] + rest;
      OneRowEffect(t, [Tombstone(i)], DropRow(i), rest, k);
  }

  /** With an operation in flight whose record is whole: replay completes it. */
  lemma InFlightRows<V, P>(d: Db<V, P>, evs: seq<Event<V, P>>, ch: Change<V, P>, k: nat)
    requires DbOk(d) && PossibleRun(d, evs) && Issued(Run(d, evs).core, ch) && k <= |Effects(Run(d, evs), ch)|
    ensures var s := Run(d, evs); var crashed := Db(d.core, RowsSoFar(s, ch, k));
            ReplayRows(RedoAll(crashed, evs).rows, ch) == RowsAfter(s.rows, ch)
  {
    hide Possible, CoreOk, Effects, RowsSoFar, RedoAll, Issued, ReplayRows, RowsAfter;
    var s := Run(d, evs);
    var rows := RowsSoFar(s, ch, k);
    RunKeeps(d, evs);
    RowsSoFarAre(s, ch, k);
    PriorStored(s.core, ch);
    if !ch.Delete? {
      IssuedIsReady(s.core, ch);
      FreshId(s.core, ch);
    }
    var keep := KeptInFlight(s, ch, rows);
    InFlightAhead(s, ch, rows);
    RowsReplayed(d, rows, evs, keep);
    var q := RedoAll(Db(d.core, rows), evs).rows;
    forall i: nat
      ensures SameAt(ReplayRows(q, ch), RowsAfter(s.rows, ch), i)
    {
      LiveIff(s.core, i);
      LiveIff(s.core, ch.internal);
      if ch.Update? {
        LiveIff(s.core, ch.prior);
      }
      InFlightAt(s, ch, rows, q, i);
    }
    SameRows(ReplayRows(q, ch), RowsAfter(s.rows, ch));
  }

  /** The live versions whose rows the operation in flight has not dropped. */
  ghost function KeptInFlight<V, P>(s: Db<V, P>, ch: Change<V, P>, rows: map<nat, P>): set<nat> {
    match ch
    case Insert(_, _, _, _) => LiveIds(s.core)
    case Update(_, _, o, _, _) => if o in rows || o !in s.rows then LiveIds(s.core) else LiveIds(s.core) - {o}
    case Delete(_, i) => LiveIds(s.core) - {i}
  }

  ghost predicate SoFar<V, P>(s: Db<V, P>, ch: Change<V, P>, rows: map<nat, P>) {
    rows == s.rows || rows == RowsAfter(s.rows, ch)
    || (ch.Update? && rows == NewRow(s.rows, ch.internal, ch.prior, ch.payload))
  }

  lemma InFlightAhead<V, P>(s: Db<V, P>, ch: Change<V, P>, rows: map<nat, P>)
    requires DbOk(s) && SoFar(s, ch, rows)
    requires !ch.Delete? ==> ch.internal !in s.core.vectors && ch.internal !in s.core.tombs
    ensures Ahead(rows, s, KeptInFlight(s, ch, rows))
  {
    hide MapsOk, IdsOk, LiveIds;
    OldIds(s.core);
  }

  lemma InFlightAt<V, P>(s: Db<V, P>, ch: Change<V, P>, rows: map<nat, P>, q: map<nat, P>, i: nat)
    requires DbOk(s) && SoFar(s, ch, rows)
    requires !ch.Delete? ==> ch.internal !in s.core.vectors && ch.internal !in s.core.tombs
    requires ch.Update? ==> ch.prior in LiveIds(s.core)
    requires forall j :: j in KeptInFlight(s, ch, rows) || j !in s.core.vectors ==> SameAt(q, rows, j)
    requires forall j :: j in s.core.tombs && j in s.core.vectors ==> j !in q
    ensures SameAt(ReplayRows(q, ch), RowsAfter(s.rows, ch), i)
  {
    hide MapsOk, IdsOk, LiveIds;
    LiveIff(s.core, i);
    LiveIff(s.core, ch.internal);
    OldIds(s.core);
  }
}
