/**
 The id state of the database (src/astervec_db.cc and the resolvers in
 src/astervec_index.cc): stored vectors, tombstones, the two sparse maps between
 real and internal ids, the update-id counter, the live count and the payload
 rows; and what inserts, updates and deletes do to them, effect by effect.
 */
module DbState {

  import opened IdTypes

  /** An empty payload is none at all. */
  datatype Payload<+P> = Absent | Present(doc: P)

  /** A logged operation. */
  datatype Change<V, P> =
    | Insert(realId: nat, internal: nat, vec: V, payload: Payload<P>)
    | Update(realId: nat, internal: nat, prior: nat, vec: V, payload: Payload<P>)
    | Delete(realId: nat, internal: nat)

  datatype Core<V> = Core(
    vectors: map<nat, V>,
    tombs: set<nat>,
    fwd: map<nat, nat>,
    rev: map<nat, nat>,
    next: nat,
    live: int)

  datatype Db<V, P> = Db(core: Core<V>, rows: map<nat, P>)

  // ----- Resolution -----

  function Resolve<V>(c: Core<V>, r: nat): nat {
    if r in c.fwd then c.fwd[r] else r
  }

  function ResolveReal<V>(c: Core<V>, i: nat): nat {
    if i < FIRST_UPDATE_ID then i else if i in c.rev then c.rev[i] else i
  }

  predicate Alive<V>(c: Core<V>, r: nat) {
    Resolve(c, r) !in c.tombs && Resolve(c, r) in c.vectors
  }

  // ----- Single effects -----

  function MapTo<V>(c: Core<V>, r: nat, i: nat): Core<V> {
    var rev := if r in c.fwd then c.rev - {c.fwd[r]} else c.rev;
    c.(fwd := c.fwd[r := i], rev := rev[i := r])
  }

  function Forget<V>(c: Core<V>, r: nat): Core<V> {
    if r in c.fwd then c.(fwd := c.fwd - {r}, rev := c.rev - {c.fwd[r]}) else c
  }

  function Observe<V>(c: Core<V>, i: nat): Core<V> {
    if c.next <= i then c.(next := i + 1) else c
  }

  datatype Effect<V, P> =
    | StoreVector(id: nat, vec: V)
    | MapReal(realId: nat, id: nat)
    | ForgetReal(realId: nat)
    | Tombstone(id: nat)
    | CountLive(n: int)
    | PutRow(id: nat, doc: P)
    | DropRow(id: nat)

  function Apply<V, P>(d: Db<V, P>, e: Effect<V, P>): Db<V, P> {
    match e
    case StoreVector(i, v) => d.(core := d.core.(vectors := d.core.vectors[i := v]))
    case MapReal(r, i) => d.(core := MapTo(d.core, r, i))
    case ForgetReal(r) => d.(core := Forget(d.core, r))
    case Tombstone(i) => d.(core := d.core.(tombs := d.core.tombs + {i}))
    case CountLive(n) => d.(core := d.core.(live := d.core.live + n))
    case PutRow(i, p) => d.(rows := d.rows[i := p])
    case DropRow(i) => d.(rows := d.rows - {i})
  }

  function ApplyAll<V, P>(d: Db<V, P>, es: seq<Effect<V, P>>): Db<V, P>
    decreases |es|
  {
    if es == [] then d else ApplyAll(Apply(d, es[0]), es[1..])
  }

  // ----- Operations -----

  /** The operation is what the write call makes of its arguments in this state. */
  ghost predicate Issued<V, P>(c: Core<V>, ch: Change<V, P>) {
    match ch
    case Insert(r, i, _, _) =>
      r < FIRST_UPDATE_ID && !Alive(c, r) && i == if r in c.tombs then c.next else r
    case Update(r, i, o, _, _) =>
      r < FIRST_UPDATE_ID && Alive(c, r) && i == c.next && o == Resolve(c, r)
    case Delete(r, i) =>
      r < FIRST_UPDATE_ID && i == Resolve(c, r) && i in c.vectors
  }

  /** The update id an operation takes from the counter, if it takes one. */
  function Taken<V, P>(c: Core<V>, ch: Change<V, P>): Core<V> {
    if !ch.Delete? && ch.internal >= FIRST_UPDATE_ID then Observe(c, ch.internal) else c
  }

  /** The row an update gives the new version: its payload, or the row of the old version. */
  function NewRow<P>(rows: map<nat, P>, i: nat, o: nat, p: Payload<P>): map<nat, P> {
    match p
    case Present(doc) => rows[i := doc]
    case Absent => if o in rows then rows[i := rows[o]] else rows
  }

  /** What a write call does after logging, in its order. */
  function Effects<V, P>(d: Db<V, P>, ch: Change<V, P>): seq<Effect<V, P>> {
    match ch
    case Insert(r, i, v, p) =>
      (if i >= FIRST_UPDATE_ID then [MapReal(r, i)] else [])
      + [StoreVector(i, v), CountLive(1)]
      + (if p.Present? then [PutRow(i, p.doc)] else [])
    case Update(r, i, o, v, p) =>
      [StoreVector(i, v), MapReal(r, i), Tombstone(o)]
      + (if p.Present? then [PutRow(i, p.doc)] else if o in d.rows then [PutRow(i, d.rows[o])] else [])
      + [DropRow(o)]
    case Delete(r, i) =>
      [Tombstone(i), DropRow(i), ForgetReal(r)] + (if Alive(d.core, r) then [CountLive(-1)] else [])
  }

  /** The operation done: its id taken, all its effects applied. */
  function Complete<V, P>(d: Db<V, P>, ch: Change<V, P>): Db<V, P> {
    ApplyAll(d.(core := Taken(d.core, ch)), Effects(d, ch))
  }

  /** What a failed operation leaves: its id is taken, and a reinsert has already been mapped. */
  function Failed<V, P>(c: Core<V>, ch: Change<V, P>): Core<V> {
    var t := Taken(c, ch);
    if ch.Insert? && ch.internal >= FIRST_UPDATE_ID then MapTo(t, ch.realId, ch.internal) else t
  }

  // ----- The same in one piece -----

  function CoreAfter<V, P>(c: Core<V>, ch: Change<V, P>): Core<V> {
    match ch
    case Insert(r, i, v, _) =>
      var t := Failed(c, ch);
      t.(vectors := t.vectors[i := v], live := t.live + 1)
    case Update(r, i, o, v, _) =>
      var t := MapTo(Taken(c, ch), r, i);
      t.(vectors := t.vectors[i := v], tombs := t.tombs + {o})
    case Delete(r, i) =>
      var t := Forget(c, r);
      t.(tombs := t.tombs + {i}, live := if Alive(c, r) then t.live - 1 else t.live)
  }

  function RowsAfter<V, P>(rows: map<nat, P>, ch: Change<V, P>): map<nat, P> {
    match ch
    case Insert(_, i, _, p) => if p.Present? then rows[i := p.doc] else rows
    case Update(_, i, o, _, p) => NewRow(rows, i, o, p) - {o}
    case Delete(_, i) => rows - {i}
  }

  lemma {:induction false} ApplyConcat<V, P>(d: Db<V, P>, a: seq<Effect<V, P>>, b: seq<Effect<V, P>>)
    ensures ApplyAll(d, a + b) == ApplyAll(ApplyAll(d, a), b)
    decreases |a|
  {
    if a == [] {
      assert a + b == b;
    } else {
      assert (a + b)[1..] == a[1..] + b;
      ApplyConcat(Apply(d, a[0]), a[1..], b);
    }
  }


  lemma ApplyOne<V, P>(d: Db<V, P>, e: Effect<V, P>)
    ensures ApplyAll(d, [e]) == Apply(d, e)
  {
    assert [e][1..] == [];
  }

  lemma ApplyTwo<V, P>(d: Db<V, P>, e: Effect<V, P>, f: Effect<V, P>)
    ensures ApplyAll(d, [e, f]) == Apply(Apply(d, e), f)
  {
    assert [e, f][1..] == [f];
    ApplyOne(Apply(d, e), f);
  }

  lemma ApplyThree<V, P>(d: Db<V, P>, e: Effect<V, P>, f: Effect<V, P>, g: Effect<V, P>)
    ensures ApplyAll(d, [e, f, g]) == Apply(Apply(Apply(d, e), f), g)
  {
    assert [e, f, g][1..] == [f, g];
    ApplyTwo(Apply(d, e), f, g);
  }

  /** Effect by effect, an operation does what it does in one piece. */
  lemma CompleteIs<V, P>(d: Db<V, P>, ch: Change<V, P>)
    ensures Complete(d, ch) == Db(CoreAfter(d.core, ch), RowsAfter(d.rows, ch))
  {
    hide ApplyAll, MapTo, Forget, Observe, Alive;
    var t := d.(core := Taken(d.core, ch));
    match ch
    case Insert(r, i, v, p) =>
      var map_ := if i >= FIRST_UPDATE_ID then [MapReal(r, i)] else [];
      var store := [StoreVector(i, v), CountLive(1)];
      var row := if p.Present? then [PutRow(i, p.doc)] else [];
      ApplyConcat(t, map_ + store, row);
      ApplyConcat(t, map_, store);
      ApplyMaybe(t, MapReal(r, i), i >= FIRST_UPDATE_ID);
      ApplyTwo(ApplyAll(t, map_), store[0], store[1]);
      if p.Present? {
        ApplyOne(ApplyAll(t, map_ + store), PutRow(i, p.doc));
      } else {
        ApplyNone(ApplyAll(t, map_ + store));
      }
    case Update(r, i, o, v, p) =>
      var store := [StoreVector(i, v), MapReal(r, i), Tombstone(o)];
      var row := if p.Present? then [PutRow(i, p.doc)] else if o in d.rows then [PutRow(i, d.rows[o])] else [];
      ApplyConcat(t, store + row, [DropRow(o)]);
      ApplyConcat(t, store, row);
      ApplyThree(t, store[0], store[1], store[2]);
      var s := ApplyAll(t, store);
      if row != [] {
        ApplyOne(s, row[0]);
      } else {
        assert store + row == store;
        ApplyNone(s);
      }
      ApplyOne(ApplyAll(t, store + row), DropRow(o));
      MapElsewhere(t.core, r, i, v);
    case Delete(r, i) =>
      var first := [Tombstone(i), DropRow(i), ForgetReal(r)];
      var count := if Alive(d.core, r) then [CountLive(-1)] else [];
      ApplyConcat(t, first, count);
      ApplyThree(t, first[0], first[1], first[2]);
      ApplyMaybe(ApplyAll(t, first), CountLive(-1), Alive(d.core, r));
      ForgetElsewhere(d.core, i, r);
  }

  lemma ApplyNone<V, P>(d: Db<V, P>)
    ensures ApplyAll(d, []) == d
  {}

  lemma ApplyMaybe<V, P>(d: Db<V, P>, e: Effect<V, P>, b: bool)
    ensures ApplyAll(d, if b then [e] else []) == if b then Apply(d, e) else d
  {
    if b {
      ApplyOne(d, e);
    }
  }

  lemma MapElsewhere<V>(c: Core<V>, r: nat, i: nat, v: V)
    ensures MapTo(c.(vectors := c.vectors[i := v]), r, i) == MapTo(c, r, i).(vectors := c.vectors[i := v])
    ensures MapTo(c, r, i).tombs == c.tombs && MapTo(c, r, i).vectors == c.vectors && MapTo(c, r, i).live == c.live
  {}

  lemma ForgetElsewhere<V>(c: Core<V>, i: nat, r: nat)
    ensures Forget(c.(tombs := c.tombs + {i}), r) == Forget(c, r).(tombs := Forget(c, r).tombs + {i})
    ensures Forget(c, r).tombs == c.tombs && Forget(c, r).live == c.live
  {}

  // ----- What every operation keeps -----

  function LiveIds<V>(c: Core<V>): set<nat> {
    c.vectors.Keys - c.tombs
  }

  /** The two sparse maps are inverse, and name update ids handed out for tombstoned direct ids. */
  ghost predicate MapsOk<V>(c: Core<V>) {
    && (forall r :: r in c.fwd ==>
          && r < FIRST_UPDATE_ID && r in c.tombs && FIRST_UPDATE_ID <= c.fwd[r] < c.next && c.fwd[r] !in c.tombs
          && c.fwd[r] in c.rev && c.rev[c.fwd[r]] == r)
    && (forall i :: i in c.rev ==> c.rev[i] in c.fwd && c.fwd[c.rev[i]] == i)
  }

  /** Stored update ids were handed out, tombstones are of stored vectors, live update ids are mapped. */
  ghost predicate IdsOk<V>(c: Core<V>) {
    && FIRST_UPDATE_ID <= c.next && (forall i :: i in c.vectors ==> i < c.next) && c.tombs <= c.vectors.Keys
    && (forall i :: i in c.vectors && i >= FIRST_UPDATE_ID && i !in c.tombs ==> i in c.rev)
  }

  ghost predicate CoreOk<V>(c: Core<V>) {
    MapsOk(c) && IdsOk(c) && c.live == |LiveIds(c)|
  }

  /** Rows belong to live versions. */
  ghost predicate DbOk<V, P>(d: Db<V, P>) {
    CoreOk(d.core) && d.rows.Keys <= LiveIds(d.core)
  }

  /** Whatever an operation was issued in, it may be done: its update id is fresh and its versions are current. */
  ghost predicate Ready<V, P>(c: Core<V>, ch: Change<V, P>) {
    match ch
    case Insert(r, i, _, _) =>
      r < FIRST_UPDATE_ID && !Alive(c, r) && (if r in c.tombs then FreshUpdateId(c, i) else i == r)
    case Update(r, i, o, _, _) =>
      r < FIRST_UPDATE_ID && Alive(c, r) && FreshUpdateId(c, i) && o == Resolve(c, r)
    case Delete(r, i) =>
      r < FIRST_UPDATE_ID && i == Resolve(c, r) && i in c.vectors
  }

  ghost predicate FreshUpdateId<V>(c: Core<V>, i: nat) {
    i >= FIRST_UPDATE_ID && i !in c.vectors && i !in c.rev
  }

  lemma IssuedIsReady<V, P>(c: Core<V>, ch: Change<V, P>)
    requires CoreOk(c) && Issued(c, ch)
    ensures Ready(c, ch)
  {
    hide LiveIds;
  }

  /** A new version gets an internal id that was never stored before. */
  lemma FreshId<V, P>(c: Core<V>, ch: Change<V, P>)
    requires CoreOk(c) && Ready(c, ch) && !ch.Delete?
    ensures ch.internal !in c.vectors && ch.internal !in c.tombs && ch.internal !in c.rev
    ensures ch.internal >= FIRST_UPDATE_ID ==> ch.internal < Taken(c, ch).next
    ensures ch.internal < FIRST_UPDATE_ID ==> ch.internal == ch.realId && ch.realId !in c.fwd
  {}

  /** Mapping a real id whose direct version is dead to a fresh update id. */
  lemma MapsMapped<V>(c: Core<V>, r: nat, i: nat, tombs: set<nat>)
    requires MapsOk(c) && r < FIRST_UPDATE_ID <= i < c.next && i !in c.rev && i !in tombs
    requires c.tombs <= tombs && r in tombs && forall q :: q in c.fwd && q != r ==> c.fwd[q] !in tombs
    ensures MapsOk(MapTo(c.(tombs := tombs), r, i))
  {}

  lemma MapsForgotten<V>(c: Core<V>, r: nat, tombs: set<nat>)
    requires MapsOk(c) && c.tombs <= tombs && forall q :: q in c.fwd && q != r ==> c.fwd[q] !in tombs
    ensures MapsOk(Forget(c.(tombs := tombs), r))
  {}

  /** Two real ids never share a version. */
  lemma VersionsApart<V>(c: Core<V>, r: nat, q: nat)
    requires MapsOk(c) && r < FIRST_UPDATE_ID && q in c.fwd && q != r
    ensures c.fwd[q] != Resolve(c, r)
  {}

  lemma MapsAfter<V, P>(c: Core<V>, ch: Change<V, P>)
    requires CoreOk(c) && Ready(c, ch)
    ensures MapsOk(CoreAfter(c, ch))
  {
    hide LiveIds, MapsOk, IdsOk, MapTo, Forget;
    if !ch.Delete? {
      FreshId(c, ch);
      TakenMaps(c, ch);
    }
    forall q | q in c.fwd && q != ch.realId
      ensures c.fwd[q] != Resolve(c, ch.realId) && c.fwd[q] !in c.tombs
    {
      VersionsApart(c, ch.realId, q);
      MapTarget(c, q);
    }
    match ch
    case Insert(r, i, v, _) =>
      if i >= FIRST_UPDATE_ID {
        MapsMapped(Taken(c, ch), r, i, c.tombs);
      }
      MapsOfVectors(Failed(c, ch), Failed(c, ch).vectors[i := v], Failed(c, ch).live + 1);
    case Update(r, i, o, v, _) =>
      if r in c.fwd {
        MapTarget(c, r);
      }
      var t := Taken(c, ch);
      MapsMapped(t, r, i, c.tombs + {o});
      MapTombs(t, r, i, o);
      MapsOfVectors(MapTo(t.(tombs := c.tombs + {o}), r, i), MapTo(t, r, i).vectors[i := v], MapTo(t, r, i).live);
    case Delete(r, i) =>
      MapsForgotten(c, r, c.tombs + {i});
      ForgetElsewhere(c, i, r);
      MapsOfVectors(Forget(c.(tombs := c.tombs + {i}), r), Forget(c, r).vectors, CoreAfter(c, ch).live);
  }

  lemma MapTarget<V>(c: Core<V>, q: nat)
    requires MapsOk(c) && q in c.fwd
    ensures c.fwd[q] !in c.tombs && q in c.tombs
  {}

  lemma MapTombs<V>(c: Core<V>, r: nat, i: nat, o: nat)
    ensures MapTo(c.(tombs := c.tombs + {o}), r, i) == MapTo(c, r, i).(tombs := c.tombs + {o})
    ensures MapTo(c, r, i).tombs == c.tombs
  {}

  lemma MapsOfVectors<V>(c: Core<V>, vectors: map<nat, V>, live: int)
    requires MapsOk(c)
    ensures MapsOk(c.(vectors := vectors, live := live))
  {}

  lemma TakenMaps<V, P>(c: Core<V>, ch: Change<V, P>)
    requires MapsOk(c)
    ensures MapsOk(Taken(c, ch))
  {}

  lemma IdsAfter<V, P>(c: Core<V>, ch: Change<V, P>)
    requires CoreOk(c) && Ready(c, ch)
    ensures IdsOk(CoreAfter(c, ch))
  {
    hide LiveIds;
    if !ch.Delete? {
      FreshId(c, ch);
    }
  }

  lemma LiveIff<V>(c: Core<V>, i: nat)
    ensures i in LiveIds(c) <==> i in c.vectors && i !in c.tombs
  {}

  lemma StoredAfter<V, P>(c: Core<V>, ch: Change<V, P>)
    ensures var after := CoreAfter(c, ch);
            && after.vectors.Keys == (if ch.Delete? then c.vectors.Keys else c.vectors.Keys + {ch.internal})
            && after.tombs == (if ch.Update? then c.tombs + {ch.prior} else if ch.Delete? then c.tombs + {ch.internal}
                               else c.tombs)
  {}

  function LiveNext<V, P>(c: Core<V>, ch: Change<V, P>): set<nat> {
    match ch
    case Insert(_, i, _, _) => LiveIds(c) + {i}
    case Update(_, i, o, _, _) => LiveIds(c) + {i} - {o}
    case Delete(_, i) => LiveIds(c) - {i}
  }

  lemma LiveAfterAt<V, P>(c: Core<V>, ch: Change<V, P>, j: nat)
    requires CoreOk(c) && Ready(c, ch)
    ensures j in LiveIds(CoreAfter(c, ch)) <==> j in LiveNext(c, ch)
  {
    hide MapsOk, IdsOk, LiveIds, CoreAfter;
    StoredAfter(c, ch);
    if !ch.Delete? {
      FreshId(c, ch);
    }
    LiveIff(CoreAfter(c, ch), j);
    LiveIff(c, j);
  }

  /** An operation changes the live versions by at most one arrival and one departure. */
  lemma LiveAfter<V, P>(c: Core<V>, ch: Change<V, P>)
    requires CoreOk(c) && Ready(c, ch)
    ensures LiveIds(CoreAfter(c, ch)) == LiveNext(c, ch)
  {
    hide CoreOk, LiveIds, CoreAfter, LiveNext, Ready;
    forall j: nat
      ensures j in LiveIds(CoreAfter(c, ch)) <==> j in LiveNext(c, ch)
    {
      LiveAfterAt(c, ch, j);
    }
  }

  lemma CountAfter<V, P>(c: Core<V>, ch: Change<V, P>)
    requires CoreOk(c) && Ready(c, ch)
    ensures CoreAfter(c, ch).live == |LiveIds(CoreAfter(c, ch))|
  {
    hide MapsOk, IdsOk, MapTo, Forget, Observe, LiveIds;
    LiveAfter(c, ch);
    LiveIff(c, ch.internal);
    if !ch.Delete? {
      FreshId(c, ch);
    }
    if ch.Update? {
      LiveIff(c, ch.prior);
    }
    if ch.Delete? {
      ResolvedLive(c, ch.realId);
    }
    CountTaken(c, ch);
  }

  lemma ResolvedLive<V>(c: Core<V>, r: nat)
    ensures Alive(c, r) <==> Resolve(c, r) in LiveIds(c)
  {}

  lemma CountTaken<V, P>(c: Core<V>, ch: Change<V, P>)
    ensures CoreAfter(c, ch).live ==
              if ch.Insert? then c.live + 1 else if ch.Delete? && Alive(c, ch.realId) then c.live - 1 else c.live
  {}

  /** Every operation keeps the state well formed. */
  lemma CompleteKeeps<V, P>(d: Db<V, P>, ch: Change<V, P>)
    requires DbOk(d) && Ready(d.core, ch)
    ensures DbOk(Complete(d, ch))
  {
    hide MapsOk, IdsOk, CoreAfter, LiveIds, Ready;
    CompleteIs(d, ch);
    MapsAfter(d.core, ch);
    IdsAfter(d.core, ch);
    CountAfter(d.core, ch);
    LiveAfter(d.core, ch);
    RowsLive(d, ch);
  }

  lemma RowsLive<V, P>(d: Db<V, P>, ch: Change<V, P>)
    requires DbOk(d) && Ready(d.core, ch)
    ensures RowsAfter(d.rows, ch).Keys <= LiveIds(CoreAfter(d.core, ch))
  {
    hide LiveIds, CoreAfter;
    LiveAfter(d.core, ch);
    if !ch.Delete? {
      FreshId(d.core, ch);
    }
    assert ch.Update? ==> ch.prior != ch.internal;
  }

  lemma FailedMaps<V, P>(c: Core<V>, ch: Change<V, P>)
    requires CoreOk(c) && Ready(c, ch)
    ensures MapsOk(Failed(c, ch))
  {
    hide LiveIds, MapsOk, IdsOk, MapTo;
    TakenMaps(c, ch);
    if ch.Insert? && ch.internal >= FIRST_UPDATE_ID {
      FreshId(c, ch);
      forall q | q in c.fwd && q != ch.realId
        ensures c.fwd[q] !in c.tombs
      {
        MapTarget(c, q);
      }
      MapsMapped(Taken(c, ch), ch.realId, ch.internal, c.tombs);
    }
  }

  lemma FailedIds<V, P>(c: Core<V>, ch: Change<V, P>)
    requires CoreOk(c) && Ready(c, ch)
    ensures IdsOk(Failed(c, ch)) && LiveIds(Failed(c, ch)) == LiveIds(c) && Failed(c, ch).live == c.live
  {
    if !ch.Delete? {
      FreshId(c, ch);
    }
  }

  /** So does a failed one. */
  lemma FailedKeeps<V, P>(d: Db<V, P>, ch: Change<V, P>)
    requires DbOk(d) && Ready(d.core, ch)
    ensures DbOk(d.(core := Failed(d.core, ch)))
  {
    hide MapsOk, IdsOk, Failed, LiveIds, Ready;
    FailedMaps(d.core, ch);
    FailedIds(d.core, ch);
  }

  // ----- What well-formed states promise -----

  /** Resolving to the current version and back returns the same real id. */
  lemma ResolveBack<V>(c: Core<V>, r: nat)
    requires CoreOk(c) && r < FIRST_UPDATE_ID
    ensures ResolveReal(c, Resolve(c, r)) == r
  {}

  /** A live real id has exactly one live internal id, the one it resolves to; others have none. */
  lemma OneLiveVersion<V>(c: Core<V>, r: nat, i: nat)
    requires CoreOk(c) && r < FIRST_UPDATE_ID && i in LiveIds(c)
    ensures ResolveReal(c, i) == r <==> Alive(c, r) && i == Resolve(c, r)
  {}

  function RealsOf<V>(c: Core<V>, ids: set<nat>): set<nat> {
    set i | i in ids :: ResolveReal(c, i)
  }

  ghost function AliveReals<V>(c: Core<V>): set<nat> {
    RealsOf(c, LiveIds(c))
  }

  lemma AliveRealsAre<V>(c: Core<V>, r: nat)
    requires CoreOk(c) && r < FIRST_UPDATE_ID
    ensures r in AliveReals(c) <==> Alive(c, r)
  {
    if Alive(c, r) {
      ResolveBack(c, r);
      assert Resolve(c, r) in LiveIds(c);
    }
    if r in AliveReals(c) {
      var i :| i in LiveIds(c) && ResolveReal(c, i) == r;
      OneLiveVersion(c, r, i);
    }
  }

  lemma {:induction false} SameNumber<V>(c: Core<V>, ids: set<nat>)
    requires CoreOk(c) && ids <= LiveIds(c)
    ensures |RealsOf(c, ids)| == |ids|
    decreases |ids|
  {
    if ids != {} {
      var i :| i in ids;
      SameNumber(c, ids - {i});
      assert RealsOf(c, ids) == RealsOf(c, ids - {i}) + {ResolveReal(c, i)};
      if ResolveReal(c, i) in RealsOf(c, ids - {i}) {
        var j :| j in ids - {i} && ResolveReal(c, j) == ResolveReal(c, i);
        LiveRealIds(c, i);
        OneLiveVersion(c, ResolveReal(c, i), i);
        OneLiveVersion(c, ResolveReal(c, i), j);
      }
    } else {
      assert RealsOf(c, {}) == {};
    }
  }

  lemma LiveRealIds<V>(c: Core<V>, i: nat)
    requires CoreOk(c) && i in LiveIds(c)
    ensures ResolveReal(c, i) < FIRST_UPDATE_ID
  {}

  /** The live count is the number of live real ids. */
  lemma LiveCount<V>(c: Core<V>)
    requires CoreOk(c)
    ensures c.live == |AliveReals(c)|
  {
    SameNumber(c, LiveIds(c));
  }
}
