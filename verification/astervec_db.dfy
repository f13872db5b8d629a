/**
 The write calls of the database and its recovery (src/astervec_db.cc). Each call
 acts on the view of the database as on a map from real id to version, and the
 log records it so that recovery can repeat it. Whether a node insertion
 succeeds is a parameter; appends to the log and payload writes succeed.
 */
module AsterVecDb {
  import opened IdTypes
  import opened DbState
  import opened DbReplay
  import opened DbView
  import opened DbLog

  class AsterVecDB<V, P> {
    var vectors: map<nat, V>
    var tombstones: set<nat>
    var realToInternal: map<nat, nat>
    var internalToReal: map<nat, nat>
    var nextUpdateId: nat
    var liveCount: int
    var payloads: map<nat, P>
    var log: seq<Entry<V, P>>
    var base: nat

    ghost var start: Db<V, P>
    ghost var events: seq<Event<V, P>>

    function State(): Db<V, P>
      reads this`vectors, this`tombstones, this`realToInternal, this`internalToReal, this`nextUpdateId, this`liveCount
      reads this`payloads
    {
      Db(Core(vectors, tombstones, realToInternal, internalToReal, nextUpdateId, liveCount), payloads)
    }

    /** The state is the run's since the checkpoint, and the log from lsn `base` on tells it. */
    ghost predicate Valid()
      reads this
    {
      DbOk(start) && PossibleRun(start, events) && State() == Run(start, events) && log == LogOf(base, events)
    }

    ghost predicate SameCheckpoint(start: Db<V, P>, base: nat)
      reads this`start, this`base
    {
      this.start == start && this.base == base
    }

    /** The map callers see. */
    ghost function Contents(): map<nat, Version<V, P>>
      reads this`vectors, this`tombstones, this`realToInternal, this`internalToReal, this`nextUpdateId, this`liveCount
      reads this`payloads
    {
      View(State())
    }

    /** The state a checkpoint holds; recovery from the log comes next. */
    constructor (checkpoint: Core<V>, rows: map<nat, P>, base: nat)
      ensures State() == Db(checkpoint, rows) && this.base == base && log == []
      ensures start == State() && events == []
    {
      vectors, tombstones := checkpoint.vectors, checkpoint.tombs;
      realToInternal, internalToReal := checkpoint.fwd, checkpoint.rev;
      nextUpdateId, liveCount := checkpoint.next, checkpoint.live;
      payloads, log, this.base := rows, [], base;
      start, events := Db(checkpoint, rows), [];
    }

    function ResolveInternal(r: nat): nat
      reads this`realToInternal
    {
      if r in realToInternal then realToInternal[r] else r
    }

    predicate IsAlive(r: nat)
      reads this`realToInternal, this`tombstones, this`vectors
    {
      ResolveInternal(r) !in tombstones && ResolveInternal(r) in vectors
    }

    method AllocateUpdateId() returns (i: nat)
      modifies this`nextUpdateId
      ensures i == old(nextUpdateId) && nextUpdateId == i + 1
    {
      i := nextUpdateId;
      nextUpdateId := nextUpdateId + 1;
    }

    method ObserveUpdateId(i: nat)
      modifies this`nextUpdateId
      ensures State().core == Observe(old(State().core), i)
    {
      if nextUpdateId <= i {
        nextUpdateId := i + 1;
      }
    }

    method RecordUpdateMapping(r: nat, i: nat)
      modifies this`realToInternal, this`internalToReal
      ensures State().core == MapTo(old(State().core), r, i)
    {
      if r in realToInternal {
        internalToReal := internalToReal - {realToInternal[r]};
      }
      realToInternal := realToInternal[r := i];
      internalToReal := internalToReal[i := r];
    }

    method ForgetUpdateMapping(r: nat)
      modifies this`realToInternal, this`internalToReal
      ensures State().core == Forget(old(State().core), r)
    {
      if r in realToInternal {
        internalToReal := internalToReal - {realToInternal[r]};
        realToInternal := realToInternal - {r};
      }
    }

    // ----- Write calls -----

    /** The event that just happened joins the history. */
    ghost method Happened(ev: Event<V, P>, before: Db<V, P>)
      requires DbOk(start) && PossibleRun(start, events) && before == Run(start, events) && Possible(before, ev)
      requires State() == After(before, ev) && log == LogOf(base, events + [ev])
      modifies this`events
      ensures Valid() && events == old(events) + [ev]
    {
      hide DbOk, Possible, After, LogOf;
      assert (events + [ev])[..|events|] == events;
      events := events + [ev];
    }

    lemma LogSnoc(ev: Event<V, P>)
      ensures LogOf(base, events + [ev]) ==
                LogOf(base, events) +
                match ev
                case Completed(ch) => [Logged(ch)]
                case Aborted(ch) => [Logged(ch), Abort(base + |LogOf(base, events)|)]
                case Edited(_, _) => []
    {
      assert (events + [ev])[..|events|] == events;
    }

    ghost method Finished(before: Db<V, P>, ch: Change<V, P>)
      requires DbOk(start) && PossibleRun(start, events) && before == Run(start, events) && Issued(before.core, ch)
      requires State() == Complete(before, ch) && log == LogOf(base, events) + [Logged(ch)]
      modifies this`events
      ensures Valid() && Contents() == ViewAfter(before, ch)
    {
      hide CoreOk, PossibleRun, Issued, Complete, LogOf, Run, ViewAfter, View;
      RunKeeps(start, events);
      LogSnoc(Completed(ch));
      CompleteView(before, ch);
      Happened(Completed(ch), before);
    }

    ghost method GaveUp(before: Db<V, P>, ch: Change<V, P>)
      requires DbOk(start) && PossibleRun(start, events) && before == Run(start, events) && Issued(before.core, ch)
      requires !ch.Delete? && State() == before.(core := Failed(before.core, ch))
      requires log == LogOf(base, events) + [Logged(ch), Abort(base + |LogOf(base, events)|)]
      modifies this`events
      ensures Valid() && Contents() == View(before)
    {
      hide CoreOk, PossibleRun, Issued, Failed, LogOf, Run, View;
      RunKeeps(start, events);
      LogSnoc(Aborted(ch));
      FailedView(before, ch);
      Happened(Aborted(ch), before);
    }

    /** What an insert does once its id is taken: log, map a reinsert, insert the node, count, write the payload. */
    method InsertVersion(r: nat, i: nat, v: V, payload: Payload<P>, inserted: bool, ghost before: Db<V, P>)
      requires var ch := Insert(r, i, v, payload);
               DbOk(before) && Issued(before.core, ch) && State() == before.(core := Taken(before.core, ch))
      modifies this`vectors, this`realToInternal, this`internalToReal, this`liveCount, this`payloads, this`log
      ensures var ch := Insert(r, i, v, payload);
              && State() == (if inserted then Complete(before, ch) else before.(core := Failed(before.core, ch)))
              && log == old(log) + [Logged(ch)] + if inserted then [] else [Abort(base + |old(log)|)]
    {
      hide DbOk, Issued, MapTo, Observe, Complete;
      ghost var ch := Insert(r, i, v, payload);
      var lsn := base + |log|;
      log := log + [Logged(Insert(r, i, v, payload))];
      if i >= FIRST_UPDATE_ID {
        RecordUpdateMapping(r, i);
      }
      if !inserted {
        log := log + [Abort(lsn)];
        return;
      }
      vectors := vectors[i := v];
      liveCount := liveCount + 1;
      if payload.Present? {
        payloads := payloads[i := payload.doc];
      }
      CompleteIs(before, ch);
    }

    /** Inserts a new version of a dead or unknown real id; a live one is updated instead. */
    method InsertDense(r: nat, v: V, payload: Payload<P>, inserted: bool) returns (ok: bool)
      requires Valid() && r < FIRST_UPDATE_ID
      modifies this
      ensures Valid() && SameCheckpoint(old(start), old(base))
      ensures ok == inserted
      ensures Contents() == if ok then Upserted(old(Contents()), r, v, payload) else old(Contents())
      decreases if IsAlive(r) then 1 else 0
    {
      hide DbOk, PossibleRun, Possible, View, Run, LogOf, Failed, Complete;
      ghost var before := State();
      RunOk();
      if IsAlive(r) {
        ok := UpdateDense(r, v, payload, inserted);
        return;
      }
      var reinsert := r in tombstones;
      var i := r;
      if reinsert {
        i := AllocateUpdateId();
      }
      ghost var ch := Insert(r, i, v, payload);
      InsertIssued(before, ch);
      ViewAt(before, r);
      InsertVersion(r, i, v, payload, inserted, before);
      if inserted {
        Finished(before, ch);
      } else {
        GaveUp(before, ch);
      }
      return inserted;
    }

    /** What an update does once its id is taken: log, insert the node, map, retire the old version, move the payload. */
    method UpdateVersion(r: nat, i: nat, prior: nat, v: V, payload: Payload<P>, inserted: bool, ghost before: Db<V, P>)
      requires var ch := Update(r, i, prior, v, payload);
               DbOk(before) && Issued(before.core, ch) && State() == before.(core := Taken(before.core, ch))
      modifies this`vectors, this`tombstones, this`realToInternal, this`internalToReal, this`payloads, this`log
      ensures var ch := Update(r, i, prior, v, payload);
              && State() == (if inserted then Complete(before, ch) else before.(core := Failed(before.core, ch)))
              && log == old(log) + [Logged(ch)] + if inserted then [] else [Abort(base + |old(log)|)]
    {
      hide DbOk, Issued, MapTo, Observe, Complete;
      ghost var ch := Update(r, i, prior, v, payload);
      var lsn := base + |log|;
      log := log + [Logged(Update(r, i, prior, v, payload))];
      if !inserted {
        log := log + [Abort(lsn)];
        return;
      }
      vectors := vectors[i := v];
      RecordUpdateMapping(r, i);
      tombstones := tombstones + {prior};
      if payload.Present? {
        payloads := payloads[i := payload.doc];
      } else if prior in payloads {
        payloads := payloads[i := payloads[prior]];
      }
      payloads := payloads - {prior};
      MapElsewhere(Taken(before.core, ch), r, i, v);
      CompleteIs(before, ch);
    }

    /** Inserts a new version of a live real id and retires the old one; the payload moves along unless replaced. Real ids have 63 bits. */
    method UpdateDense(r: nat, v: V, payload: Payload<P>, inserted: bool) returns (ok: bool)
      requires Valid()
      modifies this
      ensures Valid() && SameCheckpoint(old(start), old(base))
      ensures ok == (inserted && r < FIRST_UPDATE_ID)
      ensures Contents() == if ok then Upserted(old(Contents()), r, v, payload) else old(Contents())
      decreases if IsAlive(r) then 0 else 1
    {
      hide DbOk, PossibleRun, Possible, View, Run, LogOf, Failed, Complete;
      if r >= FIRST_UPDATE_ID {
        return false;
      }
      ghost var before := State();
      RunOk();
      if !IsAlive(r) {
        ok := InsertDense(r, v, payload, inserted);
        return;
      }
      var prior := ResolveInternal(r);
      var i := AllocateUpdateId();
      ghost var ch := Update(r, i, prior, v, payload);
      UpdateIssued(before, ch);
      ViewAt(before, r);
      UpdateVersion(r, i, prior, v, payload, inserted, before);
      if inserted {
        Finished(before, ch);
      } else {
        GaveUp(before, ch);
      }
      return inserted;
    }

    /** What a delete does: log, tombstone, drop the payload, forget the mapping, count. */
    method DeleteVersion(r: nat, i: nat, ghost before: Db<V, P>)
      requires State() == before
      modifies this`tombstones, this`realToInternal, this`internalToReal, this`liveCount, this`payloads, this`log
      ensures State() == Complete(before, Delete(r, i)) && log == old(log) + [Logged(Delete(r, i))]
    {
      hide Forget, Complete;
      var wasAlive := IsAlive(r);
      log := log + [Logged(Delete(r, i))];
      tombstones := tombstones + {i};
      payloads := payloads - {i};
      ForgetUpdateMapping(r);
      if wasAlive {
        liveCount := liveCount - 1;
      }
      ForgetElsewhere(before.core, i, r);
      CompleteIs(before, Delete(r, i));
    }

    /** Deletes the current version; a real id that never had a vector is left alone. */
    method DeleteDense(r: nat)
      requires Valid() && r < FIRST_UPDATE_ID
      modifies this
      ensures Valid() && SameCheckpoint(old(start), old(base))
      ensures Contents() == old(Contents()) - {r}
    {
      hide DbOk, PossibleRun, Possible, View, Run, LogOf, Complete;
      ghost var before := State();
      RunOk();
      ViewAt(before, r);
      var i := ResolveInternal(r);
      if i !in vectors {
        assert old(Contents()) - {r} == old(Contents());
        return;
      }
      DeleteIssued(before, Delete(r, i));
      DeleteVersion(r, i, before);
      Finished(before, Delete(r, i));
    }

    /** Sets the payload of a live real id, without logging it. */
    method SetPayloadDense(r: nat, doc: P) returns (ok: bool)
      requires Valid() && r < FIRST_UPDATE_ID
      modifies this
      ensures Valid() && SameCheckpoint(old(start), old(base)) && log == old(log)
      ensures ok == (r in old(Contents()))
      ensures Contents() == if ok then old(Contents())[r := old(Contents())[r].(payload := Present(doc))] else old(Contents())
    {
      hide DbOk, PossibleRun, View, Run, LogOf;
      ghost var before := State();
      RunOk();
      ViewAt(before, r);
      if !IsAlive(r) {
        return false;
      }
      payloads := payloads[ResolveInternal(r) := doc];
      LogSnoc(Edited(r, doc));
      EditedView(before, r, doc);
      Happened(Edited(r, doc), before);
      return true;
    }

    /** Edits the payload a real id has, alive or not: only the live have one. */
    method EditPayloadDense(r: nat, edit: P -> P) returns (ok: bool)
      requires Valid() && r < FIRST_UPDATE_ID
      modifies this
      ensures Valid() && SameCheckpoint(old(start), old(base)) && log == old(log)
      ensures ok == (r in old(Contents()) && old(Contents())[r].payload.Present?)
      ensures Contents() ==
                if ok then old(Contents())[r := old(Contents())[r].(payload := Present(edit(old(Contents())[r].payload.doc)))]
                else old(Contents())
    {
      hide DbOk, PossibleRun, View, Run, LogOf;
      ghost var before := State();
      RunOk();
      ViewAt(before, r);
      RowsOfLive(before, r);
      var i := ResolveInternal(r);
      if i !in payloads {
        return false;
      }
      var doc := edit(payloads[i]);
      payloads := payloads[i := doc];
      LogSnoc(Edited(r, doc));
      EditedView(before, r, doc);
      Happened(Edited(r, doc), before);
      return true;
    }

    lemma RunOk()
      requires Valid()
      ensures DbOk(State()) && CoreOk(State().core)
    {
      RunKeeps(start, events);
    }

    // ----- Recovery -----

    method ReplayInsert(r: nat, i: nat, v: V, p: Payload<P>)
      modifies this`vectors, this`realToInternal, this`internalToReal, this`liveCount, this`payloads
      ensures var c := old(State().core); var m := if i >= FIRST_UPDATE_ID then MapTo(c, r, i) else c;
              State().core == m.(vectors := m.vectors[i := v], live := if old(IsAlive(r)) then c.live else c.live + 1)
      ensures payloads == ReplayRows(old(payloads), Insert(r, i, v, p))
    {
      var wasAlive := IsAlive(r);
      if i >= FIRST_UPDATE_ID {
        RecordUpdateMapping(r, i);
      }
      vectors := vectors[i := v];
      if !wasAlive {
        liveCount := liveCount + 1;
      }
      if i !in payloads && p.Present? {
        payloads := payloads[i := p.doc];
      }
    }

    method ReplayUpdate(r: nat, i: nat, prior: nat, v: V, p: Payload<P>)
      modifies this`vectors, this`tombstones, this`realToInternal, this`internalToReal, this`liveCount, this`payloads
      ensures var c := old(State().core); var m := MapTo(c.(vectors := c.vectors[i := v]), r, i);
              State().core == m.(tombs := m.tombs + {prior}, live := if old(IsAlive(r)) then c.live else c.live + 1)
      ensures payloads == ReplayRows(old(payloads), Update(r, i, prior, v, p))
    {
      var wasAlive := IsAlive(r);
      vectors := vectors[i := v];
      RecordUpdateMapping(r, i);
      tombstones := tombstones + {prior};
      if !wasAlive {
        liveCount := liveCount + 1;
      }
      if i !in payloads {
        if p.Present? {
          payloads := payloads[i := p.doc];
        } else if prior in payloads {
          payloads := payloads[i := payloads[prior]];
        }
      }
      payloads := payloads - {prior};
    }

    method ReplayDelete(r: nat, i: nat)
      modifies this`tombstones, this`realToInternal, this`internalToReal, this`liveCount, this`payloads
      ensures var c := old(State().core); var m := Forget(c.(tombs := c.tombs + {i}), r);
              State().core == m.(live := if old(IsAlive(r)) then c.live - 1 else c.live)
      ensures payloads == old(payloads) - {i}
    {
      var wasAlive := IsAlive(r);
      tombstones := tombstones + {i};
      payloads := payloads - {i};
      ForgetUpdateMapping(r);
      if wasAlive {
        liveCount := liveCount - 1;
      }
    }

    /** Applies one logged operation; rows that are there stay, and a failed operation only uses its id up. */
    method ReplayRecord(ch: Change<V, P>, aborted: bool)
      modifies this`vectors, this`tombstones, this`realToInternal, this`internalToReal, this`nextUpdateId, this`liveCount
      modifies this`payloads
      ensures State() == Replay(old(State()), ch, aborted)
    {
      hide Observe, MapTo, Forget, NewRow;
      if !ch.Delete? && ch.internal >= FIRST_UPDATE_ID {
        ObserveUpdateId(ch.internal);
      }
      if aborted {
        return;
      }
      match ch
      case Insert(r, i, v, p) => ReplayInsert(r, i, v, p);
      case Update(r, i, prior, v, p) => ReplayUpdate(r, i, prior, v, p);
      case Delete(r, i) => ReplayDelete(r, i);
    }

    /**
     Replays the records after the checkpoint: one pass finds the aborted
     operations, a second applies the others. If the checkpoint, the rows and the
     records are what a crash left of a run, the database is as if it had not
     crashed.
     */
    method RecoverFromOpLog(records: seq<Entry<V, P>>, ghost d: Db<V, P>, ghost evs: seq<Event<V, P>>, ghost f: InFlight<V, P>)
      modifies this`vectors, this`tombstones, this`realToInternal, this`internalToReal, this`nextUpdateId, this`liveCount
      modifies this`payloads
      ensures State() == Recovered(old(State()), records, base)
      ensures DbOk(d) && PossibleRun(d, evs) && CanCrash(Run(d, evs), f) && records == LogLeft(base, evs, f)
              && old(State()) == Db(d.core, RowsLeft(Run(d, evs), f)) ==>
                && DbOk(State()) && Contents() == View(Uncrashed(Run(d, evs), f))
                && (NoFailedReinsert(evs) ==> State() == Uncrashed(Run(d, evs), f))
    {
      hide DbOk, PossibleRun, CanCrash, LogLeft, RowsLeft, Uncrashed, View, NoFailedReinsert, Replay, AbortedLsns;
      var aborted := {};
      assert records[..0] == [] && AbortedLsns<V, P>([]) == {} by {
        NoneAborted<V, P>();
      }
      for k := 0 to |records|
        invariant aborted == AbortedLsns(records[..k]) && State() == old(State())
      {
        assert records[..k + 1] == records[..k] + [records[k]];
        AbortedSnoc(records[..k], records[k]);
        if records[k].Abort? {
          aborted := aborted + {records[k].lsn};
        }
      }
      assert records[..|records|] == records;
      for k := 0 to |records|
        invariant State() == ReplayAll(old(State()), records[..k], base, aborted)
      {
        assert records[..k + 1] == records[..k] + [records[k]];
        ReplaySnoc(old(State()), records[..k], records[k], base, aborted);
        if records[k].Logged? {
          ReplayRecord(records[k].ch, base + k in aborted);
        }
      }
      if DbOk(d) && PossibleRun(d, evs) && CanCrash(Run(d, evs), f) {
        RecoveryIsExact(d, base, evs, f);
      }
    }
  }

  /** What an upsert does to the map callers see: without a payload the one there stays. */
  function Upserted<V, P>(m: map<nat, Version<V, P>>, r: nat, v: V, payload: Payload<P>): map<nat, Version<V, P>> {
    m[r := Version(v, if payload.Present? then payload else if r in m then m[r].payload else Absent)]
  }

  lemma NoneAborted<V, P>()
    ensures AbortedLsns<V, P>([]) == {}
  {}

  lemma RowsOfLive<V, P>(d: Db<V, P>, r: nat)
    requires DbOk(d) && r < FIRST_UPDATE_ID
    ensures Resolve(d.core, r) in d.rows ==> Alive(d.core, r)
  {
    ResolvedLive(d.core, r);
  }

  // ----- The steps of a call, taken together -----

  lemma InsertIssued<V, P>(d: Db<V, P>, ch: Change<V, P>)
    requires DbOk(d) && ch.Insert? && ch.realId < FIRST_UPDATE_ID && !Alive(d.core, ch.realId)
    requires ch.internal == if ch.realId in d.core.tombs then d.core.next else ch.realId
    ensures Issued(d.core, ch)
    ensures ch.internal >= FIRST_UPDATE_ID <==> ch.realId in d.core.tombs
  {}

  lemma UpdateIssued<V, P>(d: Db<V, P>, ch: Change<V, P>)
    requires DbOk(d) && ch.Update? && ch.realId < FIRST_UPDATE_ID && Alive(d.core, ch.realId)
    requires ch.internal == d.core.next && ch.prior == Resolve(d.core, ch.realId)
    ensures Issued(d.core, ch)
    ensures ch.internal >= FIRST_UPDATE_ID
  {}

  lemma DeleteIssued<V, P>(d: Db<V, P>, ch: Change<V, P>)
    requires DbOk(d) && ch.Delete? && ch.realId < FIRST_UPDATE_ID
    requires ch.internal == Resolve(d.core, ch.realId) && ch.internal in d.core.vectors
    ensures Issued(d.core, ch)
  {}
}
