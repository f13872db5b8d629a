/**
 Concurrent writers (src/astervec_db.cc): each holds the lock of its real id from
 the liveness check to its last effect, and the effects and log records of different
 writers interleave freely; an operation that fails appends its abort record any
 number of foreign records after its own. Whenever no writer is between its first
 and last step, which is when a checkpoint can run, the state is that of the logged
 operations applied in lsn order, those that failed as failed ones, and the two
 passes of recovery over the log as it stands make the same of it.
 */
module DbConcurrent {
  import opened Basics
  import opened IdTypes
  import opened DbState
  import opened DbReplay
  import opened DbView
  import opened DbLog

  /** A writer has taken its update id but not logged yet, or has effects and perhaps an abort record left to do. */
  datatype Writer<V, P> =
    | Idle
    | Begun(ch: Change<V, P>)
    | Applying(realId: nat, todo: seq<Effect<V, P>>, abort: Option<nat>)

  /** A logged operation and whether it fails. */
  datatype Op<V, P> = Op(ch: Change<V, P>, fails: bool)

  /**
     The log starts at lsn `base`. For the statement only, `ops` are its operations with
     their outcomes, and `owner` remembers which real id an update id was taken for.
     */
  datatype World<V, P> = World(db: Db<V, P>, base: nat, log: seq<Entry<V, P>>, writers: seq<Writer<V, P>>,
                               ops: seq<Op<V, P>>, owner: map<nat, nat>)

  /** Logging settles, for the statement only, whether the operation is going to fail: nobody looks at it before. */
  datatype Step<V, P> =
    | Begin(w: nat, ch: Change<V, P>)
    | Log(w: nat, fails: bool)
    | Effect(w: nat)
    | Finish(w: nat)

  function Locked<V, P>(x: Writer<V, P>): nat
    requires !x.Idle?
  {
    if x.Begun? then x.ch.realId else x.realId
  }

  predicate Holds<V, P>(x: Writer<V, P>, r: nat) {
    !x.Idle? && Locked(x) == r
  }

  ghost predicate Enabled<V, P>(s: World<V, P>, step: Step<V, P>) {
    && step.w < |s.writers|
    && match step
       case Begin(w, ch) =>
         && s.writers[w].Idle? && Issued(s.db.core, ch)
         && forall k :: 0 <= k < |s.writers| ==> !Holds(s.writers[k], ch.realId)
       case Log(w, fails) => s.writers[w].Begun? && (fails ==> !s.writers[w].ch.Delete?)
       case Effect(w) => s.writers[w].Applying? && s.writers[w].todo != []
       case Finish(w) => s.writers[w].Applying? && s.writers[w].todo == []
  }

  function Owned<V, P>(owner: map<nat, nat>, ch: Change<V, P>): map<nat, nat> {
    if !ch.Delete? && ch.internal >= FIRST_UPDATE_ID then owner[ch.internal := ch.realId] else owner
  }

  /** A failed operation has done nothing but map a reinsert. */
  function Outcome<V, P>(d: Db<V, P>, op: Op<V, P>): seq<Effect<V, P>> {
    if !op.fails then Effects(d, op.ch)
    else if op.ch.Insert? && op.ch.internal >= FIRST_UPDATE_ID then [MapReal(op.ch.realId, op.ch.internal)]
    else []
  }

  function Do<V, P>(s: World<V, P>, step: Step<V, P>): World<V, P>
    requires Enabled(s, step)
  {
    match step
    case Begin(w, ch) =>
      s.(db := s.db.(core := Taken(s.db.core, ch)), writers := s.writers[w := Begun(ch)], owner := Owned(s.owner, ch))
    case Log(w, fails) =>
      var op := Op(s.writers[w].ch, fails);
      var abort := if fails then Some(s.base + |s.log|) else None;
      s.(log := s.log + [Logged(op.ch)], ops := s.ops + [op],
         writers := s.writers[w := Applying(op.ch.realId, Outcome(s.db, op), abort)])
    case Effect(w) =>
      var x := s.writers[w];
      s.(db := Apply(s.db, x.todo[0]), writers := s.writers[w := Applying(x.realId, x.todo[1..], x.abort)])
    case Finish(w) =>
      var abort := s.writers[w].abort;
      s.(log := if abort.Some? then s.log + [Abort(abort.value)] else s.log, writers := s.writers[w := Idle])
  }

  /** An operation done in one piece: its id taken, and its effects or those of its failure applied. */
  function Done<V, P>(d: Db<V, P>, op: Op<V, P>): Db<V, P> {
    ApplyAll(d.(core := Taken(d.core, op.ch)), Outcome(d, op))
  }

  lemma DoneIs<V, P>(d: Db<V, P>, op: Op<V, P>)
    ensures Done(d, op) == if op.fails then d.(core := Failed(d.core, op.ch)) else Complete(d, op.ch)
  {
    hide Effects, Taken;
    if op.fails && op.ch.Insert? && op.ch.internal >= FIRST_UPDATE_ID {
      ApplyOne(d.(core := Taken(d.core, op.ch)), MapReal(op.ch.realId, op.ch.internal));
    }
  }

  lemma ApplyOne<V, P>(d: Db<V, P>, e: Effect<V, P>)
    ensures ApplyAll(d, [e]) == Apply(d, e)
  {
    hide Apply;
    assert [e][1..] == [];
  }

  /** The logged operations done one after the other. */
  function InOrder<V, P>(d: Db<V, P>, ops: seq<Op<V, P>>): Db<V, P> {
    if ops == [] then d else Done(InOrder(d, ops[..|ops| - 1]), ops[|ops| - 1])
  }

  /** And replayed, those that failed as aborted. */
  function Replayed<V, P>(d: Db<V, P>, ops: seq<Op<V, P>>): Db<V, P> {
    if ops == [] then d else Replay(Replayed(d, ops[..|ops| - 1]), ops[|ops| - 1].ch, ops[|ops| - 1].fails)
  }

  ghost predicate NoReinsertFails<V, P>(ops: seq<Op<V, P>>) {
    forall k :: 0 <= k < |ops| && ops[k].fails && ops[k].ch.Insert? ==> ops[k].ch.internal < FIRST_UPDATE_ID
  }

  // ----- Slices -----

  predicate Owns(owner: map<nat, nat>, r: nat, i: nat) {
    if i < FIRST_UPDATE_ID then i == r else i in owner && owner[i] == r
  }

  /** The two states agree about an internal id. */
  ghost predicate SameId<V, P>(a: Db<V, P>, b: Db<V, P>, i: nat) {
    && (i in a.core.vectors <==> i in b.core.vectors)
    && (i in a.core.vectors ==> a.core.vectors[i] == b.core.vectors[i])
    && (i in a.core.tombs <==> i in b.core.tombs)
    && SameAt(a.core.rev, b.core.rev, i) && SameAt(a.rows, b.rows, i)
  }

  /** They agree about a real id and all internal ids taken for it. */
  ghost predicate SameSlice<V, P>(a: Db<V, P>, b: Db<V, P>, r: nat, owner: map<nat, nat>) {
    SameAt(a.core.fwd, b.core.fwd, r) && forall i :: Owns(owner, r, i) ==> SameId(a, b, i)
  }

  /** A real id is mapped to an internal id of its own. */
  ghost predicate AtHome<V>(c: Core<V>, r: nat, owner: map<nat, nat>) {
    r in c.fwd ==> Owns(owner, r, c.fwd[r])
  }

  predicate Belongs<V, P>(e: Effect<V, P>, r: nat, owner: map<nat, nat>) {
    match e
    case StoreVector(i, _) => Owns(owner, r, i)
    case MapReal(q, i) => q == r && Owns(owner, r, i)
    case ForgetReal(q) => q == r
    case Tombstone(i) => Owns(owner, r, i)
    case CountLive(_) => true
    case PutRow(i, _) => Owns(owner, r, i)
    case DropRow(i) => Owns(owner, r, i)
  }

  predicate AllBelong<V, P>(es: seq<Effect<V, P>>, r: nat, owner: map<nat, nat>) {
    forall k :: 0 <= k < |es| ==> Belongs(es[k], r, owner)
  }

  /** An effect touches no internal id of another real id. */
  lemma ForeignId<V, P>(d: Db<V, P>, e: Effect<V, P>, r: nat, owner: map<nat, nat>, i: nat)
    requires Belongs(e, r, owner) && AtHome(d.core, r, owner) && !Owns(owner, r, i)
    ensures SameId(Apply(d, e), d, i)
  {}

  lemma Foreign<V, P>(d: Db<V, P>, e: Effect<V, P>, r: nat, owner: map<nat, nat>, q: nat)
    requires Belongs(e, r, owner) && AtHome(d.core, r, owner) && q != r
    ensures SameSlice(Apply(d, e), d, q, owner)
    ensures AtHome(d.core, q, owner) ==> AtHome(Apply(d, e).core, q, owner)
  {
    hide SameId;
    forall i | Owns(owner, q, i)
      ensures SameId(Apply(d, e), d, i)
    {
      ForeignId(d, e, r, owner, i);
    }
  }

  /** An effect does the same to equal slices. */
  lemma Congruent<V, P>(a: Db<V, P>, b: Db<V, P>, e: Effect<V, P>, r: nat, owner: map<nat, nat>)
    requires Belongs(e, r, owner) && AtHome(a.core, r, owner) && SameSlice(a, b, r, owner)
    ensures SameSlice(Apply(a, e), Apply(b, e), r, owner)
    ensures AtHome(Apply(a, e).core, r, owner) && AtHome(b.core, r, owner)
  {
    forall i | Owns(owner, r, i)
      ensures SameId(Apply(a, e), Apply(b, e), i)
    {
      assert SameId(a, b, i);
      if e.MapReal? {
        CongruentMap(a, b, r, e.id, owner, i);
      }
    }
  }

  lemma CongruentMap<V, P>(a: Db<V, P>, b: Db<V, P>, r: nat, j: nat, owner: map<nat, nat>, i: nat)
    requires SameAt(a.core.fwd, b.core.fwd, r) && SameId(a, b, i)
    ensures SameId(a.(core := MapTo(a.core, r, j)), b.(core := MapTo(b.core, r, j)), i)
  {}

  lemma {:induction false} CongruentAll<V, P>(a: Db<V, P>, b: Db<V, P>, es: seq<Effect<V, P>>, r: nat, owner: map<nat, nat>)
    requires AllBelong(es, r, owner) && AtHome(a.core, r, owner) && SameSlice(a, b, r, owner)
    ensures SameSlice(ApplyAll(a, es), ApplyAll(b, es), r, owner)
    decreases |es|
  {
    hide SameSlice, AtHome, Apply, Belongs;
    if es != [] {
      Congruent(a, b, es[0], r, owner);
      CongruentAll(Apply(a, es[0]), Apply(b, es[0]), es[1..], r, owner);
    }
  }

  lemma {:induction false} ForeignAll<V, P>(d: Db<V, P>, es: seq<Effect<V, P>>, r: nat, owner: map<nat, nat>, q: nat)
    requires AllBelong(es, r, owner) && AtHome(d.core, r, owner) && q != r
    ensures SameSlice(ApplyAll(d, es), d, q, owner)
    ensures AtHome(d.core, q, owner) ==> AtHome(ApplyAll(d, es).core, q, owner)
    ensures AtHome(ApplyAll(d, es).core, r, owner)
    decreases |es|
  {
    hide SameSlice, AtHome, Apply, Belongs;
    SliceSelf(d, q, owner);
    if es != [] {
      Foreign(d, es[0], r, owner, q);
      SliceSelf(d, r, owner);
      Congruent(d, d, es[0], r, owner);
      ForeignAll(Apply(d, es[0]), es[1..], r, owner, q);
      SliceThrough(ApplyAll(d, es), Apply(d, es[0]), d, q, owner);
    }
  }

  /** Ids nobody took stay as they are. */
  lemma {:induction false} UnownedAll<V, P>(d: Db<V, P>, es: seq<Effect<V, P>>, r: nat, owner: map<nat, nat>, i: nat)
    requires AllBelong(es, r, owner) && AtHome(d.core, r, owner) && !Owns(owner, r, i)
    ensures SameId(ApplyAll(d, es), d, i)
    decreases |es|
  {
    hide AtHome, Apply, Belongs, SameSlice, Owns;
    if es != [] {
      ForeignId(d, es[0], r, owner, i);
      SliceSelf(d, r, owner);
      Congruent(d, d, es[0], r, owner);
      UnownedAll(Apply(d, es[0]), es[1..], r, owner, i);
    }
  }

  lemma SliceSelf<V, P>(a: Db<V, P>, r: nat, owner: map<nat, nat>)
    ensures SameSlice(a, a, r, owner)
  {}

  lemma SliceThrough<V, P>(a: Db<V, P>, b: Db<V, P>, c: Db<V, P>, r: nat, owner: map<nat, nat>)
    requires SameSlice(a, b, r, owner) && SameSlice(b, c, r, owner)
    ensures SameSlice(a, c, r, owner)
  {
    forall i | Owns(owner, r, i)
      ensures SameId(a, c, i)
    {
      assert SameId(a, b, i) && SameId(b, c, i);
    }
  }

  lemma SliceBack<V, P>(a: Db<V, P>, b: Db<V, P>, r: nat, owner: map<nat, nat>)
    requires SameSlice(a, b, r, owner)
    ensures SameSlice(b, a, r, owner)
  {
    forall i | Owns(owner, r, i)
      ensures SameId(b, a, i)
    {
      assert SameId(a, b, i);
    }
  }

  /** An operation's effects are on its own slice, and depend on nothing else. */
  lemma EffectsBelong<V, P>(d: Db<V, P>, ch: Change<V, P>, owner: map<nat, nat>)
    requires Ready(d.core, ch) && AtHome(d.core, ch.realId, owner)
    requires !ch.Delete? ==> Owns(owner, ch.realId, ch.internal)
    ensures AllBelong(Effects(d, ch), ch.realId, owner)
    ensures ch.Update? ==> Owns(owner, ch.realId, ch.prior)
    ensures ch.Delete? ==> Owns(owner, ch.realId, ch.internal)
  {}

  lemma SliceAlive<V, P>(a: Db<V, P>, b: Db<V, P>, r: nat, owner: map<nat, nat>)
    requires SameSlice(a, b, r, owner) && AtHome(a.core, r, owner) && r < FIRST_UPDATE_ID
    ensures Resolve(a.core, r) == Resolve(b.core, r) && Owns(owner, r, Resolve(a.core, r))
    ensures Alive(a.core, r) == Alive(b.core, r) && (r in a.core.tombs <==> r in b.core.tombs)
    ensures SameId(a, b, Resolve(a.core, r))
  {
    assert Owns(owner, r, r);
  }

  lemma EffectsSame<V, P>(a: Db<V, P>, b: Db<V, P>, ch: Change<V, P>, owner: map<nat, nat>)
    requires SameSlice(a, b, ch.realId, owner) && AtHome(a.core, ch.realId, owner) && Ready(a.core, ch)
    ensures Effects(a, ch) == Effects(b, ch)
  {
    SliceAlive(a, b, ch.realId, owner);
  }

  lemma OutcomeBelongs<V, P>(d: Db<V, P>, op: Op<V, P>, owner: map<nat, nat>)
    requires Ready(d.core, op.ch) && AtHome(d.core, op.ch.realId, owner)
    requires !op.ch.Delete? ==> Owns(owner, op.ch.realId, op.ch.internal)
    ensures AllBelong(Outcome(d, op), op.ch.realId, owner)
  {
    hide AtHome, Ready, Effects, Owns;
    if !op.fails {
      EffectsBelong(d, op.ch, owner);
    }
  }

  lemma OutcomeSame<V, P>(a: Db<V, P>, b: Db<V, P>, op: Op<V, P>, owner: map<nat, nat>)
    requires SameSlice(a, b, op.ch.realId, owner) && AtHome(a.core, op.ch.realId, owner) && Ready(a.core, op.ch)
    ensures Outcome(a, op) == Outcome(b, op)
  {
    hide SameSlice, AtHome, Ready, Effects;
    EffectsSame(a, b, op.ch, owner);
  }

  // ----- What every step keeps -----

  function Todo<V, P>(x: Writer<V, P>): seq<Effect<V, P>> {
    if x.Applying? then x.todo else []
  }

  function CountOf<V, P>(es: seq<Effect<V, P>>): int {
    if es == [] then 0 else (if es[0].CountLive? then es[0].n else 0) + CountOf(es[1..])
  }

  function Owed<V, P>(writers: seq<Writer<V, P>>): int {
    if writers == [] then 0 else Owed(writers[..|writers| - 1]) + CountOf(Todo(writers[|writers| - 1]))
  }

  ghost predicate WriterOk<V, P>(x: Writer<V, P>, next: nat, owner: map<nat, nat>, f: Db<V, P>) {
    match x
    case Idle => true
    case Begun(ch) =>
      && Ready(f.core, ch) && (!ch.Delete? ==> Owns(owner, ch.realId, ch.internal))
      && (!ch.Delete? && ch.internal >= FIRST_UPDATE_ID ==> ch.internal < next)
    case Applying(r, todo, _) => AllBelong(todo, r, owner)
  }

  ghost predicate WritersOk<V, P>(s: World<V, P>, f: Db<V, P>) {
    && (forall k :: 0 <= k < |s.writers| ==> WriterOk(s.writers[k], s.db.core.next, s.owner, f))
    && (forall j, k :: 0 <= j < k < |s.writers| && !s.writers[j].Idle? && !s.writers[k].Idle? ==>
          Locked(s.writers[j]) != Locked(s.writers[k]))
  }

  ghost predicate OwnersOk<V, P>(s: World<V, P>) {
    && (forall i :: i in s.owner ==> FIRST_UPDATE_ID <= i < s.db.core.next)
    && (forall r :: AtHome(s.db.core, r, s.owner))
  }

  predicate Unlocked<V, P>(writers: seq<Writer<V, P>>, r: nat) {
    forall k :: 0 <= k < |writers| ==> !Holds(writers[k], r)
  }

  predicate Unowned(owner: map<nat, nat>, i: nat) {
    i >= FIRST_UPDATE_ID && i !in owner
  }

  /** Once the writers' remaining effects are done, every slice is that of the logged operations. */
  ghost predicate SlicesOk<V, P>(s: World<V, P>, f: Db<V, P>) {
    && (forall k :: 0 <= k < |s.writers| && !s.writers[k].Idle? ==>
          SameSlice(ApplyAll(s.db, Todo(s.writers[k])), f, Locked(s.writers[k]), s.owner))
    && (forall r :: Unlocked(s.writers, r) ==> SameSlice(s.db, f, r, s.owner))
    && (forall i :: Unowned(s.owner, i) ==> SameId(s.db, f, i))
  }

  predicate TookLast<V, P>(x: Writer<V, P>, next: nat) {
    x.Begun? && !x.ch.Delete? && x.ch.internal + 1 == next
  }

  ghost predicate CountsOk<V, P>(s: World<V, P>, f: Db<V, P>) {
    && s.db.core.live + Owed(s.writers) == f.core.live
    && FIRST_UPDATE_ID <= f.core.next <= s.db.core.next
    && (f.core.next == s.db.core.next || exists k :: 0 <= k < |s.writers| && TookLast(s.writers[k], s.db.core.next))
  }

  /** The replayed state `t` is the one in memory but for reinserts that failed, which it never mapped. */
  ghost predicate Mirrors<V, P>(t: Db<V, P>, f: Db<V, P>, s: World<V, P>) {
    && CoreOk(t.core) && Tracks(t.core, f.core) && t.rows == f.rows
    && (NoReinsertFails(s.ops) ==> t == f)
    && forall i :: i in t.core.rev ==> i in s.owner
  }

  /** An update id taken and not logged yet is not mapped by the replayed state. */
  ghost predicate Unlogged<V, P>(t: Core<V>, writers: seq<Writer<V, P>>) {
    forall k :: 0 <= k < |writers| && writers[k].Begun? && !writers[k].ch.Delete? ==> writers[k].ch.internal !in t.rev
  }

  /** The abort records still to be written. */
  function Pending<V, P>(writers: seq<Writer<V, P>>): set<nat> {
    if writers == [] then {}
    else
      var x := writers[|writers| - 1];
      Pending(writers[..|writers| - 1]) + if x.Applying? && x.abort.Some? then {x.abort.value} else {}
  }

  /** With the abort records written and to be written, replaying the log is replaying the operations with their outcomes. */
  ghost predicate LogOk<V, P>(start: Db<V, P>, s: World<V, P>) {
    var aborted := AbortedLsns(s.log) + Pending(s.writers);
    && (forall l :: l in aborted ==> s.base <= l < s.base + |s.log|)
    && ReplayAll(start, s.log, s.base, aborted) == Replayed(start, s.ops)
  }

  ghost predicate StateOk<V, P>(start: Db<V, P>, s: World<V, P>) {
    var f := InOrder(start, s.ops);
    DbOk(f) && WritersOk(s, f) && OwnersOk(s) && SlicesOk(s, f) && CountsOk(s, f)
  }

  ghost predicate Inv<V, P>(start: Db<V, P>, s: World<V, P>) {
    var t := Replayed(start, s.ops);
    && StateOk(start, s) && LogOk(start, s)
    && Mirrors(t, InOrder(start, s.ops), s) && Unlogged(t.core, s.writers)
  }

  // ----- Sums -----

  lemma {:induction false} OwedUpdate<V, P>(writers: seq<Writer<V, P>>, k: nat, x: Writer<V, P>)
    requires k < |writers|
    ensures Owed(writers[k := x]) == Owed(writers) - CountOf(Todo(writers[k])) + CountOf(Todo(x))
  {
    var n := |writers| - 1;
    if k < n {
      assert writers[k := x][..n] == writers[..n][k := x];
      OwedUpdate(writers[..n], k, x);
    } else {
      assert writers[k := x][..n] == writers[..n];
    }
  }

  lemma {:induction false} NothingOwed<V, P>(writers: seq<Writer<V, P>>)
    requires forall k :: 0 <= k < |writers| ==> writers[k].Idle?
    ensures Owed(writers) == 0
  {
    if writers != [] {
      NothingOwed(writers[..|writers| - 1]);
    }
  }

  lemma {:induction false} LiveOfAll<V, P>(d: Db<V, P>, es: seq<Effect<V, P>>)
    ensures ApplyAll(d, es).core.live == d.core.live + CountOf(es) && ApplyAll(d, es).core.next == d.core.next
    decreases |es|
  {
    if es != [] {
      LiveOfAll(Apply(d, es[0]), es[1..]);
    }
  }

  /** The counter plays no part in the effects. */
  lemma {:induction false} NextApart<V, P>(d: Db<V, P>, es: seq<Effect<V, P>>, n: nat)
    ensures ApplyAll(d.(core := d.core.(next := n)), es) == ApplyAll(d, es).(core := ApplyAll(d, es).core.(next := n))
    decreases |es|
  {
    if es != [] {
      NextApartOne(d, es[0], n);
      NextApart(Apply(d, es[0]), es[1..], n);
    }
  }

  lemma NextApartOne<V, P>(d: Db<V, P>, e: Effect<V, P>, n: nat)
    ensures Apply(d.(core := d.core.(next := n)), e) == Apply(d, e).(core := Apply(d, e).core.(next := n))
  {}

  lemma SliceNext<V, P>(a: Db<V, P>, b: Db<V, P>, r: nat, owner: map<nat, nat>, n: nat)
    requires SameSlice(a, b, r, owner)
    ensures SameSlice(a.(core := a.core.(next := n)), b, r, owner) && SameSlice(a, b.(core := b.core.(next := n)), r, owner)
  {
    forall i | Owns(owner, r, i)
      ensures SameId(a.(core := a.core.(next := n)), b, i) && SameId(a, b.(core := b.core.(next := n)), i)
    {
      assert SameId(a, b, i);
    }
  }

  // ----- An effect -----

  lemma EffectSlices<V, P>(s: World<V, P>, f: Db<V, P>, w: nat)
    requires WritersOk(s, f) && OwnersOk(s) && SlicesOk(s, f) && Enabled(s, Effect(w))
    ensures SlicesOk(Do(s, Effect(w)), f)
  {
    hide Apply, SameSlice, AtHome, Belongs, SameId;
    var x, after := s.writers[w], Do(s, Effect(w));
    var r, e := x.realId, x.todo[0];
    assert WriterOk(x, s.db.core.next, s.owner, f) && AtHome(s.db.core, r, s.owner);
    forall k | 0 <= k < |s.writers| && !after.writers[k].Idle?
      ensures SameSlice(ApplyAll(after.db, Todo(after.writers[k])), f, Locked(after.writers[k]), s.owner)
    {
      if k != w {
        var q, todo := Locked(s.writers[k]), Todo(s.writers[k]);
        assert q != r && WriterOk(s.writers[k], s.db.core.next, s.owner, f) && AtHome(s.db.core, q, s.owner);
        Foreign(s.db, e, r, s.owner, q);
        CongruentAll(after.db, s.db, todo, q, s.owner);
        SliceThrough(ApplyAll(after.db, todo), ApplyAll(s.db, todo), f, q, s.owner);
      }
    }
    forall q | Unlocked(after.writers, q)
      ensures SameSlice(after.db, f, q, s.owner)
    {
      StillUnlocked(s.writers, w, after.writers[w], q);
      assert Holds(x, r);
      Foreign(s.db, e, r, s.owner, q);
      SliceThrough(after.db, s.db, f, q, s.owner);
    }
    forall i | Unowned(s.owner, i)
      ensures SameId(after.db, f, i)
    {
      ForeignId(s.db, e, r, s.owner, i);
      IdThrough(after.db, s.db, f, i);
    }
  }

  lemma IdThrough<V, P>(a: Db<V, P>, b: Db<V, P>, c: Db<V, P>, i: nat)
    requires SameId(a, b, i) && SameId(b, c, i)
    ensures SameId(a, c, i)
  {}

  /** A writer that keeps its lock keeps everyone else out. */
  lemma StillUnlocked<V, P>(writers: seq<Writer<V, P>>, w: nat, x: Writer<V, P>, q: nat)
    requires w < |writers| && Unlocked(writers[w := x], q)
    requires !writers[w].Idle? ==> !x.Idle? && Locked(x) == Locked(writers[w])
    ensures Unlocked(writers, q)
  {
    forall k | 0 <= k < |writers|
      ensures !Holds(writers[k], q)
    {
      assert !Holds(writers[w := x][k], q);
    }
  }

  lemma EffectOwners<V, P>(s: World<V, P>, f: Db<V, P>, w: nat)
    requires WritersOk(s, f) && OwnersOk(s) && Enabled(s, Effect(w))
    ensures OwnersOk(Do(s, Effect(w)))
  {
    hide SameSlice, Belongs, AtHome, Apply;
    var x, after := s.writers[w], Do(s, Effect(w));
    var r, e := x.realId, x.todo[0];
    assert WriterOk(x, s.db.core.next, s.owner, f) && AtHome(s.db.core, r, s.owner);
    NextStays(s.db, e);
    SliceSelf(s.db, r, s.owner);
    Congruent(s.db, s.db, e, r, s.owner);
    forall q
      ensures AtHome(after.db.core, q, s.owner)
    {
      assert AtHome(s.db.core, q, s.owner);
      if q != r {
        Foreign(s.db, e, r, s.owner, q);
      }
    }
  }

  lemma NextStays<V, P>(d: Db<V, P>, e: Effect<V, P>)
    ensures Apply(d, e).core.next == d.core.next
  {}

  lemma EffectCounts<V, P>(s: World<V, P>, f: Db<V, P>, w: nat)
    requires WritersOk(s, f) && CountsOk(s, f) && Enabled(s, Effect(w))
    ensures WritersOk(Do(s, Effect(w)), f) && CountsOk(Do(s, Effect(w)), f)
  {
    hide Apply, Belongs, Ready, Owns;
    var x, after := s.writers[w], Do(s, Effect(w));
    LiveOfAll(s.db, [x.todo[0]]);
    ApplyOne(s.db, x.todo[0]);
    OwedUpdate(s.writers, w, after.writers[w]);
    forall k | 0 <= k < |s.writers|
      ensures WriterOk(after.writers[k], after.db.core.next, s.owner, f)
      ensures TookLast(s.writers[k], s.db.core.next) ==> TookLast(after.writers[k], after.db.core.next)
    {
      assert WriterOk(s.writers[k], s.db.core.next, s.owner, f);
    }
  }

  lemma EffectState<V, P>(start: Db<V, P>, s: World<V, P>, w: nat)
    requires StateOk(start, s) && Enabled(s, Effect(w))
    ensures StateOk(start, Do(s, Effect(w)))
  {
    hide DbOk, SlicesOk, InOrder, WritersOk, OwnersOk, CountsOk, Apply;
    var f := InOrder(start, s.ops);
    EffectSlices(s, f, w);
    EffectOwners(s, f, w);
    EffectCounts(s, f, w);
  }

  // ----- Finishing -----

  lemma FinishState<V, P>(start: Db<V, P>, s: World<V, P>, w: nat)
    requires StateOk(start, s) && Enabled(s, Finish(w))
    ensures StateOk(start, Do(s, Finish(w)))
  {
    hide DbOk, SameSlice, SameId, AtHome, InOrder;
    var f := InOrder(start, s.ops);
    var x, after := s.writers[w], Do(s, Finish(w));
    OwedUpdate(s.writers, w, Idle);
    forall q | Unlocked(after.writers, q)
      ensures SameSlice(s.db, f, q, s.owner)
    {
      if !Holds(x, q) {
        forall k | 0 <= k < |s.writers|
          ensures !Holds(s.writers[k], q)
        {
          assert !Holds(after.writers[k], q);
        }
        assert Unlocked(s.writers, q);
      }
    }
    forall k | 0 <= k < |s.writers|
      ensures WriterOk(after.writers[k], after.db.core.next, s.owner, f)
      ensures TookLast(s.writers[k], s.db.core.next) ==> TookLast(after.writers[k], after.db.core.next)
    {
      assert WriterOk(s.writers[k], s.db.core.next, s.owner, f);
    }
  }

  // ----- Logging -----

  /** Logged next, the operation is replayed as it was done. */
  lemma LoggedReplays<V, P>(f: Db<V, P>, ch: Change<V, P>)
    requires DbOk(f) && Ready(f.core, ch)
    ensures Replay(f, ch, false) == Complete(f, ch) && DbOk(Complete(f, ch))
  {
    hide MapsOk, IdsOk, LiveIds, Ready, ReplayCore, CoreAfter, Complete;
    ReplayIsComplete(f.core, ch);
    CompleteIs(f, ch);
    CompleteKeeps(f, ch);
    if !ch.Delete? {
      FreshId(f.core, ch);
      LiveIff(f.core, ch.internal);
    }
  }

  lemma DoneKeeps<V, P>(f: Db<V, P>, op: Op<V, P>)
    requires DbOk(f) && Ready(f.core, op.ch)
    ensures DbOk(Done(f, op))
  {
    hide CoreOk, Ready, Done, Complete, Failed;
    DoneIs(f, op);
    if op.fails {
      FailedKeeps(f, op.ch);
    } else {
      CompleteKeeps(f, op.ch);
    }
  }

  /** What is ready in memory is ready in the replayed state, its update id not having been replayed. */
  lemma TracksReady<V, P>(t: Core<V>, c: Core<V>, ch: Change<V, P>)
    requires CoreOk(t) && CoreOk(c) && Tracks(t, c) && Ready(c, ch) && (!ch.Delete? ==> ch.internal !in t.rev)
    ensures Ready(t, ch)
  {
    hide LiveIds;
  }

  lemma MirrorsCompleted<V, P>(t: Db<V, P>, f: Db<V, P>, ch: Change<V, P>)
    requires DbOk(f) && CoreOk(t.core) && Tracks(t.core, f.core) && t.rows == f.rows && Ready(f.core, ch)
    requires !ch.Delete? ==> ch.internal !in t.core.rev
    ensures var u, g := Replay(t, ch, false), Complete(f, ch);
            CoreOk(u.core) && Tracks(u.core, g.core) && u.rows == g.rows
  {
    hide MapsOk, IdsOk, LiveIds, Ready, ReplayCore, CoreAfter, Complete, Tracks, ReplayRows;
    TracksReady(t.core, f.core, ch);
    LoggedReplays(f, ch);
    ReplayIsComplete(t.core, ch);
    ReplayIsComplete(f.core, ch);
    TracksCompleted(t.core, f.core, ch);
    MapsAfter(t.core, ch);
    IdsAfter(t.core, ch);
    CountAfter(t.core, ch);
  }

  lemma MirrorsFailed<V, P>(t: Db<V, P>, f: Db<V, P>, ch: Change<V, P>)
    requires DbOk(f) && CoreOk(t.core) && Tracks(t.core, f.core) && t.rows == f.rows && Ready(f.core, ch) && !ch.Delete?
    ensures var u, g := Replay(t, ch, true), f.(core := Failed(f.core, ch));
            CoreOk(u.core) && Tracks(u.core, g.core) && u.rows == g.rows
  {
    hide CoreOk, Ready, Tracks, Failed, Taken, ReplayCore;
    TracksAborted(t.core, f.core, ch);
    AbortedCore(t.core, ch);
  }

  /** Replaying a record maps its own update id at most. */
  lemma RevAfter<V, P>(c: Core<V>, ch: Change<V, P>, aborted: bool, i: nat)
    requires i in ReplayCore(c, ch, aborted).rev
    ensures i in c.rev || (!ch.Delete? && i == ch.internal && (ch.Update? || ch.internal >= FIRST_UPDATE_ID))
  {}

  lemma ExactAfter<V, P>(f: Db<V, P>, op: Op<V, P>)
    requires DbOk(f) && Ready(f.core, op.ch) && (op.fails && op.ch.Insert? ==> op.ch.internal < FIRST_UPDATE_ID)
    ensures Replay(f, op.ch, op.fails) == Done(f, op)
  {
    hide CoreOk, Ready, Done, Complete, ReplayRows;
    DoneIs(f, op);
    if !op.fails {
      LoggedReplays(f, op.ch);
    }
  }

  lemma ReadyUpdates<V, P>(c: Core<V>, ch: Change<V, P>)
    requires Ready(c, ch) && ch.Update?
    ensures ch.internal >= FIRST_UPDATE_ID
  {}

  lemma LogMirrors<V, P>(start: Db<V, P>, s: World<V, P>, w: nat, fails: bool)
    requires StateOk(start, s) && Enabled(s, Log(w, fails))
    requires var t := Replayed(start, s.ops); Mirrors(t, InOrder(start, s.ops), s) && Unlogged(t.core, s.writers)
    ensures var after := Do(s, Log(w, fails)); var t := Replayed(start, after.ops);
            Mirrors(t, InOrder(start, after.ops), after) && Unlogged(t.core, after.writers)
  {
    hide DbOk, CoreOk, SlicesOk, CountsOk, Replay, ReplayCore, Done, Outcome, Complete, Failed, Tracks, AtHome, Ready;
    var after := Do(s, Log(w, fails));
    var f, t, ch := InOrder(start, s.ops), Replayed(start, s.ops), s.writers[w].ch;
    var op := Op(ch, fails);
    assert WriterOk(s.writers[w], s.db.core.next, s.owner, f);
    assert after.ops[..|s.ops|] == s.ops;
    DoneIs(f, op);
    if fails {
      MirrorsFailed(t, f, ch);
    } else {
      MirrorsCompleted(t, f, ch);
    }
    if NoReinsertFails(after.ops) {
      FewerFail(s.ops, op);
      ExactAfter(f, op);
    }
    var u := Replay(t, ch, fails);
    forall i | i in u.core.rev
      ensures i in t.core.rev || (!ch.Delete? && i == ch.internal && i in s.owner)
    {
      ReplayCoreOf(t, ch, fails);
      RevAfter(t.core, ch, fails, i);
      if ch.Update? {
        ReadyUpdates(f.core, ch);
      }
    }
    forall k | 0 <= k < |after.writers| && after.writers[k].Begun? && !after.writers[k].ch.Delete?
      ensures after.writers[k].ch.internal !in u.core.rev
    {
      assert k != w && Locked(s.writers[k]) != Locked(s.writers[w]);
      assert WriterOk(s.writers[k], s.db.core.next, s.owner, f);
    }
  }

  lemma ReplayCoreOf<V, P>(d: Db<V, P>, ch: Change<V, P>, aborted: bool)
    ensures Replay(d, ch, aborted).core == ReplayCore(d.core, ch, aborted)
  {}

  lemma FewerFail<V, P>(ops: seq<Op<V, P>>, op: Op<V, P>)
    requires NoReinsertFails(ops + [op])
    ensures NoReinsertFails(ops) && (op.fails && op.ch.Insert? ==> op.ch.internal < FIRST_UPDATE_ID)
  {
    var more := ops + [op];
    assert more[|ops|] == op;
    forall k | 0 <= k < |ops| && ops[k].fails && ops[k].ch.Insert?
      ensures ops[k].ch.internal < FIRST_UPDATE_ID
    {
      assert more[k] == ops[k];
    }
  }

  // ----- The log -----

  /** Whether lsns past the log are aborted does not matter. */
  lemma {:induction false} ReplayAgrees<V, P>(d: Db<V, P>, log: seq<Entry<V, P>>, base: nat, a: set<nat>, b: set<nat>)
    requires SameBelow(a, b, base, base + |log|)
    ensures ReplayAll(d, log, base, a) == ReplayAll(d, log, base, b)
  {
    hide Replay;
    if log != [] {
      ReplayAgrees(d, log[..|log| - 1], base, a, b);
    }
  }

  lemma {:induction false} PendingUpdate<V, P>(writers: seq<Writer<V, P>>, w: nat, x: Writer<V, P>, extra: set<nat>)
    requires w < |writers|
    requires Pending([writers[w]]) <= Pending([x]) + extra
    ensures Pending(writers) <= Pending(writers[w := x]) + extra
    ensures Pending(writers[w := x]) <= Pending(writers) + Pending([x])
  {
    var n := |writers| - 1;
    PendingOne(writers[n]);
    PendingOne(x);
    if w < n {
      assert writers[w := x][..n] == writers[..n][w := x];
      PendingUpdate(writers[..n], w, x, extra);
    } else {
      assert writers[w := x][..n] == writers[..n];
    }
  }

  lemma PendingOne<V, P>(x: Writer<V, P>)
    ensures Pending([x]) == if x.Applying? && x.abort.Some? then {x.abort.value} else {}
  {
    assert [x][..0] == [];
  }

  /** A step that neither logs nor owes another abort record. */
  lemma SamePending<V, P>(writers: seq<Writer<V, P>>, w: nat, x: Writer<V, P>)
    requires w < |writers| && Pending([writers[w]]) == Pending([x])
    ensures Pending(writers[w := x]) == Pending(writers)
  {
    PendingUpdate(writers, w, x, {});
    assert writers[w := x][w := writers[w]] == writers;
    PendingUpdate(writers[w := x], w, writers[w], {});
  }

  lemma LogLog<V, P>(start: Db<V, P>, s: World<V, P>, w: nat, fails: bool)
    requires LogOk(start, s) && Enabled(s, Log(w, fails))
    ensures LogOk(start, Do(s, Log(w, fails)))
  {
    hide AbortedLsns, ReplayAll, Replay, Pending, Outcome;
    var after := Do(s, Log(w, fails));
    var ch, lsn := s.writers[w].ch, s.base + |s.log|;
    var was, now := AbortedLsns(s.log) + Pending(s.writers), AbortedLsns(after.log) + Pending(after.writers);
    PendingOne(s.writers[w]);
    PendingOne(after.writers[w]);
    PendingUpdate(s.writers, w, after.writers[w], {});
    AbortedSnoc(s.log, Logged(ch));
    PendingAt(after.writers, w);
    ReplayAgrees(start, s.log, s.base, was, now);
    ReplaySnoc(start, s.log, Logged(ch), s.base, now);
    assert after.ops[..|s.ops|] == s.ops;
  }

  lemma {:induction false} PendingAt<V, P>(writers: seq<Writer<V, P>>, w: nat)
    requires w < |writers|
    ensures Pending([writers[w]]) <= Pending(writers)
  {
    PendingOne(writers[w]);
    if w < |writers| - 1 {
      PendingAt(writers[..|writers| - 1], w);
    }
  }

  lemma FinishLog<V, P>(start: Db<V, P>, s: World<V, P>, w: nat)
    requires LogOk(start, s) && Enabled(s, Finish(w))
    ensures LogOk(start, Do(s, Finish(w)))
  {
    hide AbortedLsns, ReplayAll, Replay, Pending;
    var after, abort := Do(s, Finish(w)), s.writers[w].abort;
    var was, now := AbortedLsns(s.log) + Pending(s.writers), AbortedLsns(after.log) + Pending(after.writers);
    PendingOne(s.writers[w]);
    PendingOne<V, P>(Idle);
    PendingAt(s.writers, w);
    PendingUpdate(s.writers, w, Idle, Pending([s.writers[w]]));
    if abort.Some? {
      AbortedSnoc(s.log, Abort(abort.value));
      assert now == was;
      ReplaySnoc(start, s.log, Abort(abort.value), s.base, now);
    } else {
      assert now == was;
    }
  }

  // ----- Slices while logging -----

  /** Its own slice becomes what its effects will make of it. */
  lemma LogOwnSlice<V, P>(db: Db<V, P>, f: Db<V, P>, op: Op<V, P>, owner: map<nat, nat>)
    requires SameSlice(db, f, op.ch.realId, owner) && AtHome(db.core, op.ch.realId, owner) && Ready(f.core, op.ch)
    requires !op.ch.Delete? ==> Owns(owner, op.ch.realId, op.ch.internal)
    ensures AllBelong(Outcome(db, op), op.ch.realId, owner)
    ensures SameSlice(ApplyAll(db, Outcome(db, op)), Done(f, op), op.ch.realId, owner)
  {
    hide SameSlice, AtHome, Ready, Outcome, ApplyAll;
    var ch := op.ch;
    SliceBack(db, f, ch.realId, owner);
    HomeOfSlice(db, f, ch.realId, owner);
    OutcomeSame(f, db, op, owner);
    OutcomeBelongs(f, op, owner);
    var t := f.(core := Taken(f.core, ch));
    SliceNext(db, f, ch.realId, owner, t.core.next);
    TakenNext(f.core, ch);
    CongruentAll(db, t, Outcome(db, op), ch.realId, owner);
  }

  lemma TakenNext<V, P>(c: Core<V>, ch: Change<V, P>)
    ensures Taken(c, ch) == c.(next := Taken(c, ch).next)
    ensures Taken(c, ch).next == if !ch.Delete? && ch.internal >= FIRST_UPDATE_ID && c.next <= ch.internal then ch.internal + 1 else c.next
  {}

  lemma HomeOfSlice<V, P>(a: Db<V, P>, b: Db<V, P>, r: nat, owner: map<nat, nat>)
    requires SameSlice(a, b, r, owner) && AtHome(a.core, r, owner)
    ensures AtHome(b.core, r, owner)
  {}

  /** Every other slice, and every id nobody took, is as before. */
  lemma LogOtherSlice<V, P>(f: Db<V, P>, op: Op<V, P>, owner: map<nat, nat>, q: nat)
    requires Ready(f.core, op.ch) && AtHome(f.core, op.ch.realId, owner) && q != op.ch.realId
    requires !op.ch.Delete? ==> Owns(owner, op.ch.realId, op.ch.internal)
    ensures SameSlice(Done(f, op), f, q, owner) && SameSlice(f, Done(f, op), q, owner)
  {
    hide SameSlice, AtHome, Ready, Outcome, ApplyAll;
    OutcomeBelongs(f, op, owner);
    var t := f.(core := Taken(f.core, op.ch));
    TakenNext(f.core, op.ch);
    SliceSelf(f, q, owner);
    SliceNext(f, f, q, owner, t.core.next);
    HomeNext(f.core, op.ch.realId, owner, t.core.next);
    ForeignAll(t, Outcome(f, op), op.ch.realId, owner, q);
    SliceThrough(Done(f, op), t, f, q, owner);
    SliceBack(Done(f, op), f, q, owner);
  }

  lemma HomeNext<V>(c: Core<V>, r: nat, owner: map<nat, nat>, n: nat)
    requires AtHome(c, r, owner)
    ensures AtHome(c.(next := n), r, owner)
  {}

  lemma LogUnowned<V, P>(f: Db<V, P>, op: Op<V, P>, owner: map<nat, nat>, i: nat)
    requires Ready(f.core, op.ch) && AtHome(f.core, op.ch.realId, owner) && !Owns(owner, op.ch.realId, i)
    requires !op.ch.Delete? ==> Owns(owner, op.ch.realId, op.ch.internal)
    ensures SameId(f, Done(f, op), i)
  {
    hide AtHome, Ready, Outcome, ApplyAll, Owns;
    OutcomeBelongs(f, op, owner);
    var t := f.(core := Taken(f.core, op.ch));
    TakenNext(f.core, op.ch);
    HomeNext(f.core, op.ch.realId, owner, t.core.next);
    UnownedAll(t, Outcome(f, op), op.ch.realId, owner, i);
  }

  /** A writer that has begun stays ready while others log. */
  lemma ReadyStays<V, P>(f: Db<V, P>, after: Db<V, P>, ch: Change<V, P>, owner: map<nat, nat>)
    requires Ready(f.core, ch) && SameSlice(f, after, ch.realId, owner) && AtHome(f.core, ch.realId, owner)
    requires !ch.Delete? ==> Owns(owner, ch.realId, ch.internal)
    ensures Ready(after.core, ch)
  {
    SliceAlive(f, after, ch.realId, owner);
    if !ch.Delete? {
      assert SameId(f, after, ch.internal);
    }
  }

  lemma LogSlices<V, P>(s: World<V, P>, f: Db<V, P>, w: nat, fails: bool)
    requires WritersOk(s, f) && OwnersOk(s) && SlicesOk(s, f) && Enabled(s, Log(w, fails))
    ensures SlicesOk(Do(s, Log(w, fails)), Done(f, Op(s.writers[w].ch, fails)))
    ensures AllBelong(Outcome(s.db, Op(s.writers[w].ch, fails)), s.writers[w].ch.realId, s.owner)
  {
    hide SameSlice, AtHome, SameId, Done, Outcome, AllBelong, Ready;
    var ch, after := s.writers[w].ch, Do(s, Log(w, fails));
    var op := Op(ch, fails);
    var r, g := ch.realId, Done(f, op);
    assert WriterOk(s.writers[w], s.db.core.next, s.owner, f) && AtHome(s.db.core, r, s.owner);
    assert Todo(s.writers[w]) == [];
    LogOwnSlice(s.db, f, op, s.owner);
    HomeOfSlice(s.db, f, r, s.owner);
    forall k | 0 <= k < |s.writers| && !after.writers[k].Idle?
      ensures SameSlice(ApplyAll(after.db, Todo(after.writers[k])), g, Locked(after.writers[k]), s.owner)
    {
      if k != w {
        var q, todo := Locked(s.writers[k]), Todo(s.writers[k]);
        assert q != r;
        LogOtherSlice(f, op, s.owner, q);
        SliceThrough(ApplyAll(s.db, todo), f, g, q, s.owner);
      }
    }
    forall q | Unlocked(after.writers, q)
      ensures SameSlice(after.db, g, q, s.owner)
    {
      StillUnlocked(s.writers, w, after.writers[w], q);
      assert Holds(s.writers[w], r);
      LogOtherSlice(f, op, s.owner, q);
      SliceThrough(s.db, f, g, q, s.owner);
    }
    forall i | Unowned(s.owner, i)
      ensures SameId(after.db, g, i)
    {
      LogUnowned(f, op, s.owner, i);
      IdThrough(s.db, f, g, i);
    }
  }

  lemma LogWriters<V, P>(s: World<V, P>, f: Db<V, P>, w: nat, fails: bool)
    requires WritersOk(s, f) && OwnersOk(s) && SlicesOk(s, f) && Enabled(s, Log(w, fails))
    ensures WritersOk(Do(s, Log(w, fails)), Done(f, Op(s.writers[w].ch, fails)))
  {
    hide SameSlice, AtHome, SameId, Done, Outcome, AllBelong, Ready;
    var ch, after := s.writers[w].ch, Do(s, Log(w, fails));
    var op := Op(ch, fails);
    var r, g := ch.realId, Done(f, op);
    LogSlices(s, f, w, fails);
    assert WriterOk(s.writers[w], s.db.core.next, s.owner, f) && AtHome(s.db.core, r, s.owner);
    assert Todo(s.writers[w]) == [];
    HomeOfSlice(s.db, f, r, s.owner);
    forall k | 0 <= k < |s.writers|
      ensures WriterOk(after.writers[k], after.db.core.next, s.owner, g)
    {
      assert WriterOk(s.writers[k], s.db.core.next, s.owner, f);
      if k != w && s.writers[k].Begun? {
        var other := s.writers[k].ch;
        assert Todo(s.writers[k]) == [] && other.realId != r && AtHome(s.db.core, other.realId, s.owner);
        HomeOfSlice(s.db, f, other.realId, s.owner);
        LogOtherSlice(f, op, s.owner, other.realId);
        ReadyStays(f, g, other, s.owner);
      }
    }
  }

  lemma LogCounts<V, P>(s: World<V, P>, f: Db<V, P>, w: nat, fails: bool)
    requires WritersOk(s, f) && OwnersOk(s) && SlicesOk(s, f) && CountsOk(s, f) && Enabled(s, Log(w, fails))
    ensures CountsOk(Do(s, Log(w, fails)), Done(f, Op(s.writers[w].ch, fails)))
  {
    hide SameSlice, AtHome, SameId, Outcome, ApplyAll, Ready;
    var ch, after := s.writers[w].ch, Do(s, Log(w, fails));
    var x := s.writers[w];
    assert WriterOk(x, s.db.core.next, s.owner, f) && AtHome(s.db.core, ch.realId, s.owner);
    assert Todo(x) == [];
    ApplyNone(s.db);
    SliceBack(s.db, f, ch.realId, s.owner);
    HomeOfSlice(s.db, f, ch.realId, s.owner);
    OutcomeSame(f, s.db, Op(ch, fails), s.owner);
    TakenNext(f.core, ch);
    LiveOfAll(f.(core := Taken(f.core, ch)), Outcome(f, Op(ch, fails)));
    OwedUpdate(s.writers, w, after.writers[w]);
    forall k | 0 <= k < |s.writers| && k != w && TookLast(s.writers[k], s.db.core.next)
      ensures TookLast(after.writers[k], after.db.core.next)
    {}
  }

  lemma LogState<V, P>(start: Db<V, P>, s: World<V, P>, w: nat, fails: bool)
    requires StateOk(start, s) && Enabled(s, Log(w, fails))
    ensures StateOk(start, Do(s, Log(w, fails)))
  {
    hide DbOk, SlicesOk, CountsOk, Done, Outcome, AtHome;
    var f, op := InOrder(start, s.ops), Op(s.writers[w].ch, fails);
    assert WriterOk(s.writers[w], s.db.core.next, s.owner, f);
    DoneKeeps(f, op);
    LogSlices(s, f, w, fails);
    LogWriters(s, f, w, fails);
    LogCounts(s, f, w, fails);
    assert (s.ops + [op])[..|s.ops|] == s.ops;
  }

  // ----- Beginning -----

  lemma OwnsMore(owner: map<nat, nat>, i: nat, r: nat, q: nat, j: nat)
    requires i !in owner && i >= FIRST_UPDATE_ID
    ensures Owns(owner, q, j) ==> Owns(owner[i := r], q, j)
    ensures Owns(owner[i := r], q, j) && (q != r || j != i) ==> Owns(owner, q, j)
  {}

  lemma OwnedNew<V, P>(s: World<V, P>, ch: Change<V, P>)
    requires OwnersOk(s) && Issued(s.db.core, ch) && FIRST_UPDATE_ID <= s.db.core.next
    ensures !ch.Delete? && ch.internal >= FIRST_UPDATE_ID ==> ch.internal == s.db.core.next && Unowned(s.owner, ch.internal)
    ensures !ch.Delete? ==> Owns(Owned(s.owner, ch), ch.realId, ch.internal)
  {}

  /** What an operation was issued in, the logged operations give too. */
  lemma IssuedReady<V, P>(s: World<V, P>, f: Db<V, P>, ch: Change<V, P>)
    requires Issued(s.db.core, ch) && SameSlice(s.db, f, ch.realId, s.owner) && AtHome(s.db.core, ch.realId, s.owner)
    requires CoreOk(f.core) && f.core.next <= s.db.core.next && FIRST_UPDATE_ID <= s.db.core.next
    ensures Ready(f.core, ch)
  {
    hide LiveIds, SameSlice, AtHome;
    IssuedBelow(s.db.core, ch);
    SliceAlive(s.db, f, ch.realId, s.owner);
    FreshBeyond(f.core, s.db.core.next);
  }

  lemma IssuedBelow<V, P>(c: Core<V>, ch: Change<V, P>)
    requires Issued(c, ch)
    ensures ch.realId < FIRST_UPDATE_ID
  {}

  lemma FreshBeyond<V>(c: Core<V>, i: nat)
    requires CoreOk(c) && c.next <= i
    ensures FreshUpdateId(c, i)
  {}

  lemma SliceOwned<V, P>(a: Db<V, P>, b: Db<V, P>, q: nat, owner: map<nat, nat>, i: nat, r: nat)
    requires SameSlice(a, b, q, owner) && Unowned(owner, i) && (q == r ==> SameId(a, b, i))
    ensures SameSlice(a, b, q, owner[i := r])
  {
    forall j | Owns(owner[i := r], q, j)
      ensures SameId(a, b, j)
    {
      OwnsMore(owner, i, r, q, j);
    }
  }

  lemma BelongMore<V, P>(es: seq<Effect<V, P>>, q: nat, owner: map<nat, nat>, i: nat, r: nat)
    requires AllBelong(es, q, owner) && Unowned(owner, i)
    ensures AllBelong(es, q, owner[i := r])
  {
    forall k | 0 <= k < |es|
      ensures Belongs(es[k], q, owner[i := r])
    {
      assert Belongs(es[k], q, owner);
    }
  }

  /** Taking an update id changes no slice. */
  lemma BeginSlices<V, P>(s: World<V, P>, f: Db<V, P>, w: nat, ch: Change<V, P>)
    requires WritersOk(s, f) && OwnersOk(s) && SlicesOk(s, f) && Enabled(s, Begin(w, ch))
    requires FIRST_UPDATE_ID <= s.db.core.next
    ensures SlicesOk(Do(s, Begin(w, ch)), f)
  {
    hide SameSlice, AtHome, SameId, ApplyAll, Issued, Owns;
    var after := Do(s, Begin(w, ch));
    var n, i, r := after.db.core.next, ch.internal, ch.realId;
    TakenNext(s.db.core, ch);
    OwnedNew(s, ch);
    assert Unlocked(s.writers, r);
    forall k | 0 <= k < |s.writers| && !after.writers[k].Idle?
      ensures SameSlice(ApplyAll(after.db, Todo(after.writers[k])), f, Locked(after.writers[k]), after.owner)
    {
      if k != w {
        var q, todo := Locked(s.writers[k]), Todo(s.writers[k]);
        assert !Holds(s.writers[k], r);
        NextApart(s.db, todo, n);
        SliceNext(ApplyAll(s.db, todo), f, q, s.owner, n);
        if after.owner != s.owner {
          SliceOwned(ApplyAll(after.db, todo), f, q, s.owner, i, r);
        }
      } else {
        ApplyNone(after.db);
        BeginUnlocked(s, f, ch, r);
      }
    }
    forall q | Unlocked(after.writers, q)
      ensures SameSlice(after.db, f, q, after.owner)
    {
      StillUnlocked(s.writers, w, after.writers[w], q);
      BeginUnlocked(s, f, ch, q);
    }
    forall j | Unowned(after.owner, j)
      ensures SameId(after.db, f, j)
    {
      IdNext(s.db, f, j, n);
    }
  }

  lemma IdNext<V, P>(a: Db<V, P>, b: Db<V, P>, i: nat, n: nat)
    requires Unowned(map[], i) ==> SameId(a, b, i)
    ensures i >= FIRST_UPDATE_ID ==> SameId(a.(core := a.core.(next := n)), b, i)
  {}

  lemma BeginUnlocked<V, P>(s: World<V, P>, f: Db<V, P>, ch: Change<V, P>, q: nat)
    requires OwnersOk(s) && SlicesOk(s, f) && Issued(s.db.core, ch) && FIRST_UPDATE_ID <= s.db.core.next
    requires Unlocked(s.writers, q)
    ensures SameSlice(s.db.(core := Taken(s.db.core, ch)), f, q, Owned(s.owner, ch))
  {
    hide SameSlice, AtHome, SameId, ApplyAll, Issued, Owns;
    TakenNext(s.db.core, ch);
    OwnedNew(s, ch);
    var n := Taken(s.db.core, ch).next;
    var db := s.db.(core := s.db.core.(next := n));
    SliceNext(s.db, f, q, s.owner, n);
    if Owned(s.owner, ch) != s.owner {
      IdNext(s.db, f, ch.internal, n);
      SliceOwned(db, f, q, s.owner, ch.internal, ch.realId);
    }
  }

  lemma BeginWriters<V, P>(s: World<V, P>, f: Db<V, P>, w: nat, ch: Change<V, P>)
    requires WritersOk(s, f) && OwnersOk(s) && SlicesOk(s, f) && CountsOk(s, f) && Enabled(s, Begin(w, ch)) && DbOk(f)
    ensures WritersOk(Do(s, Begin(w, ch)), f)
  {
    hide SameSlice, AtHome, SameId, ApplyAll, Issued, Owns, CoreOk, Ready, AllBelong;
    var after := Do(s, Begin(w, ch));
    TakenNext(s.db.core, ch);
    OwnedNew(s, ch);
    assert Unlocked(s.writers, ch.realId);
    assert AtHome(s.db.core, ch.realId, s.owner);
    IssuedReady(s, f, ch);
    forall k | 0 <= k < |s.writers|
      ensures WriterOk(after.writers[k], after.db.core.next, after.owner, f)
    {
      assert WriterOk(s.writers[k], s.db.core.next, s.owner, f);
      if k != w && after.owner != s.owner {
        if s.writers[k].Begun? {
          OwnsMore(s.owner, ch.internal, ch.realId, s.writers[k].ch.realId, s.writers[k].ch.internal);
        } else if s.writers[k].Applying? {
          BelongMore(s.writers[k].todo, s.writers[k].realId, s.owner, ch.internal, ch.realId);
        }
      }
    }
    forall k | 0 <= k < |s.writers|
      ensures !Holds(s.writers[k], ch.realId)
    {}
  }

  lemma BeginCounts<V, P>(s: World<V, P>, f: Db<V, P>, w: nat, ch: Change<V, P>)
    requires OwnersOk(s) && CountsOk(s, f) && Enabled(s, Begin(w, ch))
    ensures CountsOk(Do(s, Begin(w, ch)), f) && OwnersOk(Do(s, Begin(w, ch)))
  {
    hide Issued;
    var after := Do(s, Begin(w, ch));
    TakenNext(s.db.core, ch);
    OwnedNew(s, ch);
    OwedUpdate(s.writers, w, after.writers[w]);
    forall r
      ensures AtHome(after.db.core, r, after.owner)
    {
      assert AtHome(s.db.core, r, s.owner);
    }
    if after.db.core.next != s.db.core.next {
      assert TookLast(after.writers[w], after.db.core.next);
    } else {
      forall k | 0 <= k < |s.writers| && TookLast(s.writers[k], s.db.core.next)
        ensures TookLast(after.writers[k], after.db.core.next)
      {}
    }
  }

  lemma BeginState<V, P>(start: Db<V, P>, s: World<V, P>, w: nat, ch: Change<V, P>)
    requires StateOk(start, s) && Enabled(s, Begin(w, ch))
    ensures StateOk(start, Do(s, Begin(w, ch)))
  {
    hide DbOk, SlicesOk, WritersOk, OwnersOk, InOrder, Issued;
    var f := InOrder(start, s.ops);
    BeginSlices(s, f, w, ch);
    BeginWriters(s, f, w, ch);
    BeginCounts(s, f, w, ch);
  }

  /** The update id just taken is new to the replayed state too. */
  lemma BeginMirrors<V, P>(t: Db<V, P>, f: Db<V, P>, s: World<V, P>, w: nat, ch: Change<V, P>)
    requires Mirrors(t, f, s) && Unlogged(t.core, s.writers) && OwnersOk(s) && Enabled(s, Begin(w, ch))
    ensures var after := Do(s, Begin(w, ch)); Mirrors(t, f, after) && Unlogged(t.core, after.writers)
  {
    hide CoreOk, Tracks, NoReinsertFails;
    DirectUnmapped(t.core);
  }

  /** Only update ids are mapped back. */
  lemma DirectUnmapped<V>(c: Core<V>)
    requires CoreOk(c)
    ensures forall i :: i in c.rev ==> i >= FIRST_UPDATE_ID
  {
    hide LiveIds, IdsOk;
  }

  // ----- All steps -----

  lemma BeginKeeps<V, P>(start: Db<V, P>, s: World<V, P>, w: nat, ch: Change<V, P>)
    requires Inv(start, s) && Enabled(s, Begin(w, ch))
    ensures Inv(start, Do(s, Begin(w, ch)))
  {
    hide StateOk, Mirrors, Unlogged, InOrder, Replayed, ReplayAll, AbortedLsns, Pending, Issued;
    BeginState(start, s, w, ch);
    StateOwners(start, s);
    BeginMirrors(Replayed(start, s.ops), InOrder(start, s.ops), s, w, ch);
    PendingOne(s.writers[w]);
    PendingOne(Begun(ch));
    SamePending(s.writers, w, Begun(ch));
  }

  lemma StateOwners<V, P>(start: Db<V, P>, s: World<V, P>)
    requires StateOk(start, s)
    ensures OwnersOk(s)
  {}

  lemma LogKeeps<V, P>(start: Db<V, P>, s: World<V, P>, w: nat, fails: bool)
    requires Inv(start, s) && Enabled(s, Log(w, fails))
    ensures Inv(start, Do(s, Log(w, fails)))
  {
    hide StateOk, Mirrors, Unlogged, InOrder, Replayed, LogOk, Do;
    LogState(start, s, w, fails);
    LogMirrors(start, s, w, fails);
    LogLog(start, s, w, fails);
  }

  lemma EffectKeeps<V, P>(start: Db<V, P>, s: World<V, P>, w: nat)
    requires Inv(start, s) && Enabled(s, Effect(w))
    ensures Inv(start, Do(s, Effect(w)))
  {
    hide StateOk, InOrder, Replayed, ReplayAll, AbortedLsns, Pending, Apply, CoreOk, Tracks, NoReinsertFails;
    EffectState(start, s, w);
    var x := Do(s, Effect(w)).writers[w];
    PendingOne(s.writers[w]);
    PendingOne(x);
    SamePending(s.writers, w, x);
  }

  lemma FinishKeeps<V, P>(start: Db<V, P>, s: World<V, P>, w: nat)
    requires Inv(start, s) && Enabled(s, Finish(w))
    ensures Inv(start, Do(s, Finish(w)))
  {
    hide StateOk, InOrder, Replayed, LogOk, CoreOk, Tracks, NoReinsertFails;
    FinishState(start, s, w);
    FinishLog(start, s, w);
  }

  // ----- Schedules -----

  function Initial<V, P>(start: Db<V, P>, base: nat, n: nat): World<V, P> {
    World(start, base, [], seq(n, _ => Idle), [], start.core.rev)
  }

  ghost predicate Schedule<V, P>(s: World<V, P>, steps: seq<Step<V, P>>)
    decreases |steps|
  {
    steps != [] ==> Enabled(s, steps[0]) && Schedule(Do(s, steps[0]), steps[1..])
  }

  function DoAll<V, P>(s: World<V, P>, steps: seq<Step<V, P>>): World<V, P>
    requires Schedule(s, steps)
    decreases |steps|
  {
    if steps == [] then s else DoAll(Do(s, steps[0]), steps[1..])
  }

  lemma InitialOk<V, P>(start: Db<V, P>, base: nat, n: nat)
    requires DbOk(start)
    ensures Inv(start, Initial(start, base, n))
  {
    hide LiveIds;
    var s := Initial<V, P>(start, base, n);
    NothingOwed(s.writers);
    NothingPending(s.writers);
    forall r
      ensures SameSlice(start, start, r, s.owner) && AtHome(start.core, r, s.owner)
    {}
  }

  lemma {:induction false} NothingPending<V, P>(writers: seq<Writer<V, P>>)
    requires forall k :: 0 <= k < |writers| ==> writers[k].Idle?
    ensures Pending(writers) == {}
  {
    if writers != [] {
      NothingPending(writers[..|writers| - 1]);
    }
  }

  lemma {:induction false} ScheduleKeeps<V, P>(start: Db<V, P>, s: World<V, P>, steps: seq<Step<V, P>>)
    requires Inv(start, s) && Schedule(s, steps)
    ensures Inv(start, DoAll(s, steps))
    decreases |steps|
  {
    hide Inv, Enabled, Do;
    if steps != [] {
      match steps[0] {
        case Begin(w, ch) => BeginKeeps(start, s, w, ch);
        case Log(w, fails) => LogKeeps(start, s, w, fails);
        case Effect(w) => EffectKeeps(start, s, w);
        case Finish(w) => FinishKeeps(start, s, w);
      }
      ScheduleKeeps(start, Do(s, steps[0]), steps[1..]);
    }
  }

  /** All writers are between operations: the exclusive gate is free to take. */
  predicate AllIdle<V, P>(s: World<V, P>) {
    forall k :: 0 <= k < |s.writers| ==> s.writers[k].Idle?
  }

  lemma EverySlice<V, P>(a: Db<V, P>, b: Db<V, P>, owner: map<nat, nat>)
    requires forall r :: SameSlice(a, b, r, owner)
    requires forall i :: Unowned(owner, i) ==> SameId(a, b, i)
    requires a.core.live == b.core.live && a.core.next == b.core.next
    ensures a == b
  {
    hide SameSlice, SameId;
    forall i: nat
      ensures SameId(a, b, i)
    {
      var r := if i < FIRST_UPDATE_ID then i else if i in owner then owner[i] else 0;
      SliceAt(a, b, r, owner, i);
    }
    forall r: nat
      ensures SameAt(a.core.fwd, b.core.fwd, r)
    {
      SliceAt(a, b, r, owner, r);
    }
    SameRows(a.core.fwd, b.core.fwd);
    EveryId(a, b);
  }

  lemma SliceAt<V, P>(a: Db<V, P>, b: Db<V, P>, r: nat, owner: map<nat, nat>, i: nat)
    requires SameSlice(a, b, r, owner)
    ensures SameAt(a.core.fwd, b.core.fwd, r) && (Owns(owner, r, i) ==> SameId(a, b, i))
  {}

  lemma EveryId<V, P>(a: Db<V, P>, b: Db<V, P>)
    requires forall i: nat :: SameId(a, b, i)
    ensures a.core.vectors == b.core.vectors && a.core.tombs == b.core.tombs
    ensures a.core.rev == b.core.rev && a.rows == b.rows
  {
    forall i: nat
      ensures SameAt(a.core.rev, b.core.rev, i) && SameAt(a.rows, b.rows, i)
      ensures SameAt(a.core.vectors, b.core.vectors, i) && (i in a.core.tombs <==> i in b.core.tombs)
    {
      assert SameId(a, b, i);
    }
    SameRows(a.core.rev, b.core.rev);
    SameRows(a.rows, b.rows);
    SameRows(a.core.vectors, b.core.vectors);
  }

  /**
     However the writers interleave and whichever of them fail, once they are done the
     database is what the logged operations make of it, done one after the other in lsn
     order; and the two passes of recovery over the log, with its abort records where they
     happen to stand, make the same of it up to mappings nothing resolves to, and to the
     letter unless a reinsert failed. A checkpoint taken then covers exactly the records
     logged so far.
   */
  lemma WritersAgreeWithLog<V, P>(start: Db<V, P>, base: nat, n: nat, steps: seq<Step<V, P>>)
    requires DbOk(start) && Schedule(Initial(start, base, n), steps)
    ensures var s := DoAll(Initial(start, base, n), steps);
            AllIdle(s) ==>
              && s.db == InOrder(start, s.ops) && DbOk(s.db)
              && var back := Recovered(start, s.log, base);
                 && back.rows == s.db.rows && Settled(back.core) == Settled(s.db.core) && View(back) == View(s.db)
                 && (NoReinsertFails(s.ops) ==> back == s.db)
  {
    hide CoreOk, InOrder, Replayed, SameSlice, SameId, ReplayAll, AbortedLsns, Tracks, Settled, View, LiveIds;
    InitialOk(start, base, n);
    ScheduleKeeps(start, Initial(start, base, n), steps);
    var s := DoAll(Initial(start, base, n), steps);
    SameBase(Initial(start, base, n), steps);
    if AllIdle(s) {
      NothingOwed(s.writers);
      NothingPending(s.writers);
      EverySlice(s.db, InOrder(start, s.ops), s.owner);
      assert AbortedLsns(s.log) + Pending(s.writers) == AbortedLsns(s.log);
      var back := Recovered(start, s.log, base);
      TracksSettled(back.core, s.db.core);
      LiveOfSettled(back.core, s.db.core);
      SettledView(back, s.db);
    }
  }

  lemma {:induction false} SameBase<V, P>(s: World<V, P>, steps: seq<Step<V, P>>)
    requires Schedule(s, steps)
    ensures DoAll(s, steps).base == s.base
    decreases |steps|
  {
    hide Enabled, Outcome, Apply;
    if steps != [] {
      SameBase(Do(s, steps[0]), steps[1..]);
    }
  }

  // ----- One writer on its own -----

  /** The rest of an operation with `k` effects left. */
  function Rest<V, P>(w: nat, k: nat): seq<Step<V, P>> {
    if k == 0 then [Finish(w)] else [Effect(w)] + Rest(w, k - 1)
  }

  lemma {:induction false} RunsOut<V, P>(s: World<V, P>, w: nat)
    requires w < |s.writers| && s.writers[w].Applying?
    ensures var x := s.writers[w]; var steps := Rest(w, |x.todo|);
            && Schedule(s, steps)
            && DoAll(s, steps) == s.(db := ApplyAll(s.db, x.todo), writers := s.writers[w := Idle],
                                     log := s.log + if x.abort.Some? then [Abort(x.abort.value)] else [])
    decreases |s.writers[w].todo|
  {
    hide Apply;
    var x := s.writers[w];
    if x.todo == [] {
      var steps := Rest<V, P>(w, 0);
      assert steps[1..] == [];
      assert Schedule(Do(s, steps[0]), steps[1..]);
    } else {
      var steps := Rest<V, P>(w, |x.todo|);
      var next := Do(s, steps[0]);
      assert steps[1..] == Rest(w, |x.todo| - 1);
      RunsOut(next, w);
      assert next.writers[w := Idle] == s.writers[w := Idle];
    }
  }

  /**
     Wherever the others stand, an operation on a real id nobody has locked can be begun and
     run to its end, and then it is done, its record and perhaps its abort record are the
     last of the log, and the writer is free again.
   */
  lemma AloneIsDone<V, P>(s: World<V, P>, w: nat, ch: Change<V, P>, fails: bool)
    requires w < |s.writers| && s.writers[w].Idle? && Issued(s.db.core, ch) && (fails ==> !ch.Delete?)
    requires forall k :: 0 <= k < |s.writers| ==> !Holds(s.writers[k], ch.realId)
    ensures var op := Op(ch, fails); var steps := [Begin(w, ch), Log(w, fails)] + Rest(w, |Outcome(s.db, op)|);
            && Schedule(s, steps)
            && DoAll(s, steps) == s.(db := Done(s.db, op), ops := s.ops + [op], owner := Owned(s.owner, ch),
                                     log := s.log + [Logged(ch)] + if fails then [Abort(s.base + |s.log|)] else [])
  {
    hide ApplyAll, Issued, Owned, Effects, Taken;
    var op := Op(ch, fails);
    var rest := Rest<V, P>(w, |Outcome(s.db, op)|);
    var steps := [Begin(w, ch), Log(w, fails)] + rest;
    var begun := Do(s, steps[0]);
    TakenEffects(s.db, ch);
    assert steps[1..] == [Log(w, fails)] + rest;
    var logged := Do(begun, steps[1..][0]);
    assert steps[1..][1..] == rest;
    RunsOut(logged, w);
    assert logged.writers[w := Idle] == s.writers;
  }

  lemma TakenEffects<V, P>(d: Db<V, P>, ch: Change<V, P>)
    ensures Effects(d.(core := Taken(d.core, ch)), ch) == Effects(d, ch)
  {}
}
