/**
 A crash among concurrent writers (src/astervec_db.cc): any number of operations may be
 in flight, each with some of its effects done. Payload rows are written past the
 checkpoint, so the log is replayed over rows that have all that the writers wrote; what
 comes out is as if every logged operation had been done.
 */
module DbCrash {
  import opened IdTypes
  import opened DbState
  import opened DbReplay
  import opened DbView
  import opened DbLog
  import opened DbConcurrent

  /** What replaying the operations makes of rows that are there already. */
  function RowsOver<V, P>(rows: map<nat, P>, ops: seq<Op<V, P>>): map<nat, P> {
    if ops == [] then rows
    else
      var front, last := RowsOver(rows, ops[..|ops| - 1]), ops[|ops| - 1];
      if last.fails then front else ReplayRows(front, last.ch)
  }

  lemma {:induction false} ReplayedOver<V, P>(d: Db<V, P>, rows: map<nat, P>, ops: seq<Op<V, P>>)
    ensures Replayed(Db(d.core, rows), ops) == Db(Replayed(d, ops).core, RowsOver(rows, ops))
  {
    hide ReplayCore, ReplayRows;
    if ops != [] {
      ReplayedOver(d, rows, ops[..|ops| - 1]);
    }
  }

  /** The operation moves the row of this id, or drops it. */
  predicate Removes<V, P>(op: Op<V, P>, o: nat) {
    !op.fails && ((op.ch.Update? && op.ch.prior == o) || (op.ch.Delete? && op.ch.internal == o))
  }

  predicate Moves<V, P>(op: Op<V, P>, o: nat) {
    !op.fails && op.ch.Update? && op.ch.prior == o
  }

  ghost predicate Gone<V, P>(ops: seq<Op<V, P>>, o: nat) {
    exists k :: 0 <= k < |ops| && Removes(ops[k], o)
  }

  lemma GoneSplit<V, P>(ops: seq<Op<V, P>>, o: nat)
    requires ops != []
    ensures Gone(ops, o) <==> Gone(ops[..|ops| - 1], o) || Removes(ops[|ops| - 1], o)
  {
    var front := ops[..|ops| - 1];
    if Gone(front, o) {
      var k :| 0 <= k < |front| && Removes(front[k], o);
      assert Removes(ops[k], o);
    }
    if Gone(ops, o) {
      var k :| 0 <= k < |ops| && Removes(ops[k], o);
      assert k < |front| ==> Removes(front[k], o);
    }
  }

  // ----- Rows written before their operation is replayed -----

  lemma PutStep<V, P>(rows: map<nat, P>, op: Op<V, P>, i: nat, doc: P)
    requires !op.fails && !Removes(op, i)
    ensures ReplayRows(rows[i := doc], op.ch) == ReplayRows(rows, op.ch)[i := doc]
  {
    var a, b := ReplayRows(rows[i := doc], op.ch), ReplayRows(rows, op.ch)[i := doc];
    forall j: nat
      ensures SameAt(a, b, j)
    {}
    SameRows(a, b);
  }

  /** A row of an id that nothing removes: early or not, it is there in the end, and nothing else is different. */
  lemma {:induction false} PutEarly<V, P>(rows: map<nat, P>, ops: seq<Op<V, P>>, i: nat, doc: P)
    requires !Gone(ops, i)
    ensures RowsOver(rows[i := doc], ops) == RowsOver(rows, ops)[i := doc]
  {
    if ops != [] {
      hide ReplayRows, Removes;
      GoneSplit(ops, i);
      PutEarly(rows, ops[..|ops| - 1], i, doc);
      if !ops[|ops| - 1].fails {
        PutStep(RowsOver(rows, ops[..|ops| - 1]), ops[|ops| - 1], i, doc);
      }
    }
  }

  lemma {:induction false} Stays<V, P>(rows: map<nat, P>, ops: seq<Op<V, P>>, i: nat)
    requires i in rows && !Gone(ops, i)
    ensures i in RowsOver(rows, ops)
  {
    if ops != [] {
      GoneSplit(ops, i);
      Stays(rows, ops[..|ops| - 1], i);
    }
  }

  /** As the other, except that one row may be missing. */
  ghost predicate Lacks<P>(a: map<nat, P>, b: map<nat, P>, o: nat) {
    (o in a ==> o in b) && forall i: nat :: i != o ==> SameAt(a, b, i)
  }

  /** Whoever would move the row has its new row already. */
  ghost predicate MovedAlready<V, P>(rows: map<nat, P>, ops: seq<Op<V, P>>, o: nat) {
    forall k :: 0 <= k < |ops| && Moves(ops[k], o) ==> ops[k].ch.internal != o && ops[k].ch.internal in rows
  }

  lemma ReplayLacks<V, P>(a: map<nat, P>, b: map<nat, P>, ch: Change<V, P>, o: nat)
    requires Lacks(a, b, o)
    requires ch.Update? && ch.prior == o ==> ch.internal != o && ch.internal in a
    ensures Lacks(ReplayRows(a, ch), ReplayRows(b, ch), o)
  {
    hide Lacks;
    LacksAt(a, b, o, ch.internal);
    if ch.Update? {
      LacksAt(a, b, o, ch.prior);
    }
    LacksAt(a, b, o, o);
    var u, v := ReplayRows(a, ch), ReplayRows(b, ch);
    forall i: nat | i != o
      ensures SameAt(u, v, i)
    {
      LacksAt(a, b, o, i);
    }
    LacksIs(u, v, o);
  }

  lemma LacksAt<P>(a: map<nat, P>, b: map<nat, P>, o: nat, i: nat)
    requires Lacks(a, b, o)
    ensures (i != o ==> SameAt(a, b, i)) && (i in a ==> i in b)
  {
    assert i != o ==> SameAt(a, b, i);
  }

  lemma LacksIs<P>(a: map<nat, P>, b: map<nat, P>, o: nat)
    requires (o in a ==> o in b) && forall i: nat :: i != o ==> SameAt(a, b, i)
    ensures Lacks(a, b, o)
  {}

  lemma {:induction false} DropEarly<V, P>(rows: map<nat, P>, ops: seq<Op<V, P>>, all: seq<Op<V, P>>, o: nat)
    requires ops <= all && MovedAlready(rows, all, o)
    requires forall k :: 0 <= k < |all| && Moves(all[k], o) ==> !Gone(all, all[k].ch.internal)
    ensures Lacks(RowsOver(rows - {o}, ops), RowsOver(rows, ops), o)
  {
    hide ReplayRows, Moves, Removes;
    if ops != [] {
      var front, last := ops[..|ops| - 1], ops[|ops| - 1];
      DropEarly(rows, front, all, o);
      if !last.fails {
        assert all[|ops| - 1] == last;
        if Moves(last, o) {
          GoneLater(front, all, last.ch.internal);
          Stays(rows - {o}, front, last.ch.internal);
        }
        MovesIs(last, o);
        ReplayLacks(RowsOver(rows - {o}, front), RowsOver(rows, front), last.ch, o);
      }
    }
  }

  lemma MovesIs<V, P>(op: Op<V, P>, o: nat)
    ensures !op.fails ==> (Moves(op, o) <==> op.ch.Update? && op.ch.prior == o)
  {}

  lemma GoneLater<V, P>(ops: seq<Op<V, P>>, all: seq<Op<V, P>>, i: nat)
    requires ops <= all
    ensures Gone(ops, i) ==> Gone(all, i)
  {
    if Gone(ops, i) {
      var k :| 0 <= k < |ops| && Removes(ops[k], i);
      assert Removes(all[k], i);
    }
  }

  lemma LacksNothing<P>(a: map<nat, P>, b: map<nat, P>, o: nat)
    requires Lacks(a, b, o) && o !in b
    ensures a == b
  {
    forall i: nat
      ensures SameAt(a, b, i)
    {}
    SameRows(a, b);
  }

  // ----- What has been removed is dead -----

  lemma DoneTombs<V, P>(f: Db<V, P>, op: Op<V, P>)
    ensures f.core.tombs <= Done(f, op).core.tombs
    ensures forall o :: Removes(op, o) ==> o in Done(f, op).core.tombs
  {
    hide Done, Complete, Failed;
    DoneIs(f, op);
    if op.fails {
      FailedStored(f.core, op.ch);
    } else {
      CompleteTombs(f, op.ch);
    }
  }

  lemma CompleteTombs<V, P>(f: Db<V, P>, ch: Change<V, P>)
    ensures f.core.tombs <= Complete(f, ch).core.tombs
    ensures ch.Update? ==> ch.prior in Complete(f, ch).core.tombs
    ensures ch.Delete? ==> ch.internal in Complete(f, ch).core.tombs
  {
    hide Complete;
    CompleteIs(f, ch);
  }

  lemma {:induction false} GoneIsDead<V, P>(start: Db<V, P>, ops: seq<Op<V, P>>, o: nat)
    requires Gone(ops, o)
    ensures o in InOrder(start, ops).core.tombs
  {
    hide Done, Removes;
    var front, last := ops[..|ops| - 1], ops[|ops| - 1];
    GoneSplit(ops, o);
    DoneTombs(InOrder(start, front), last);
    if Gone(front, o) {
      GoneIsDead(start, front, o);
    }
  }

  lemma RowIsAlive<V, P>(f: Db<V, P>, i: nat)
    requires DbOk(f) && i in f.rows
    ensures i !in f.core.tombs
  {
    hide CoreOk;
  }

  lemma RowStays<V, P>(start: Db<V, P>, ops: seq<Op<V, P>>, i: nat)
    requires DbOk(InOrder(start, ops)) && i in InOrder(start, ops).rows
    ensures !Gone(ops, i)
  {
    hide DbOk, InOrder;
    RowIsAlive(InOrder(start, ops), i);
    if Gone(ops, i) {
      GoneIsDead(start, ops, i);
    }
  }

  // ----- What the writers still have to do to the rows -----

  /** A row still to be put is the one its id will have. */
  ghost predicate PutOk<V, P>(e: Effect<V, P>, r: nat, owner: map<nat, nat>, f: Db<V, P>) {
    e.PutRow? ==> Owns(owner, r, e.id) && e.id in f.rows && f.rows[e.id] == e.doc
  }

  /** The row of the new version is there or is put before step `m`. */
  ghost predicate PutBefore<V, P>(todo: seq<Effect<V, P>>, m: nat, i: nat)
    requires m <= |todo|
  {
    exists j :: 0 <= j < m && todo[j].PutRow? && todo[j].id == i
  }

  ghost predicate NewRowFirst<V, P>(todo: seq<Effect<V, P>>, m: nat, r: nat, owner: map<nat, nat>, rows: map<nat, P>, f: Db<V, P>, i: nat)
    requires m <= |todo|
  {
    Owns(owner, r, i) && i in f.rows && (i in rows || PutBefore(todo, m, i))
  }

  /** A row is dropped of a dead version only, and only once whoever replaced it has put the new one. */
  ghost predicate DropOk<V, P>(todo: seq<Effect<V, P>>, m: nat, r: nat, owner: map<nat, nat>, rows: map<nat, P>,
                               ops: seq<Op<V, P>>, f: Db<V, P>)
    requires m < |todo|
  {
    todo[m].DropRow? ==>
      && Owns(owner, r, todo[m].id) && todo[m].id in f.core.tombs
      && (todo[m].id in rows ==>
            forall k :: 0 <= k < |ops| && Moves(ops[k], todo[m].id) ==> NewRowFirst(todo, m, r, owner, rows, f, ops[k].ch.internal))
  }

  ghost predicate TodoOk<V, P>(todo: seq<Effect<V, P>>, r: nat, owner: map<nat, nat>, rows: map<nat, P>,
                               ops: seq<Op<V, P>>, f: Db<V, P>)
  {
    forall m :: 0 <= m < |todo| ==> PutOk(todo[m], r, owner, f) && DropOk(todo, m, r, owner, rows, ops, f)
  }

  ghost predicate WriterRows<V, P>(x: Writer<V, P>, owner: map<nat, nat>, rows: map<nat, P>, ops: seq<Op<V, P>>, f: Db<V, P>) {
    x.Applying? ==> TodoOk(x.todo, x.realId, owner, rows, ops, f)
  }

  /** Replayed over the rows as they are, the log gives the rows of all logged operations done. */
  ghost predicate RowsOk<V, P>(start: Db<V, P>, s: World<V, P>) {
    var f := InOrder(start, s.ops);
    && RowsOver(s.db.rows, s.ops) == f.rows
    && forall k :: 0 <= k < |s.writers| ==> WriterRows(s.writers[k], s.owner, s.db.rows, s.ops, f)
  }

  // ----- Effects -----

  lemma OwnersDiffer(owner: map<nat, nat>, r: nat, q: nat, i: nat, j: nat)
    requires Owns(owner, r, i) && Owns(owner, q, j) && r != q
    ensures i != j
  {}

  /** A step on rows that leaves a writer's ids alone, or adds to them, leaves its remaining steps right. */
  lemma TodoStays<V, P>(todo: seq<Effect<V, P>>, r: nat, owner: map<nat, nat>, rows: map<nat, P>, rows': map<nat, P>,
                        ops: seq<Op<V, P>>, f: Db<V, P>)
    requires TodoOk(todo, r, owner, rows, ops, f)
    requires forall i :: Owns(owner, r, i) ==> SameAt(rows', rows, i)
    ensures TodoOk(todo, r, owner, rows', ops, f)
  {
    hide Owns, Moves;
    forall m | 0 <= m < |todo|
      ensures PutOk(todo[m], r, owner, f) && DropOk(todo, m, r, owner, rows', ops, f)
    {
      assert PutOk(todo[m], r, owner, f) && DropOk(todo, m, r, owner, rows, ops, f);
      if todo[m].DropRow? && todo[m].id in rows' {
        assert SameAt(rows', rows, todo[m].id);
        forall k | 0 <= k < |ops| && Moves(ops[k], todo[m].id)
          ensures NewRowFirst(todo, m, r, owner, rows', f, ops[k].ch.internal)
        {
          assert NewRowFirst(todo, m, r, owner, rows, f, ops[k].ch.internal);
          assert SameAt(rows', rows, ops[k].ch.internal);
        }
      }
    }
  }

  /** The first step done, the others are right still. */
  lemma TodoGoesOn<V, P>(d: Db<V, P>, todo: seq<Effect<V, P>>, r: nat, owner: map<nat, nat>, ops: seq<Op<V, P>>, f: Db<V, P>)
    requires TodoOk(todo, r, owner, d.rows, ops, f) && todo != [] && DbOk(f)
    ensures TodoOk(todo[1..], r, owner, Apply(d, todo[0]).rows, ops, f)
  {
    hide Owns, Moves, DbOk;
    var e, rest, rows' := todo[0], todo[1..], Apply(d, todo[0]).rows;
    assert PutOk(todo[0], r, owner, f) && DropOk(todo, 0, r, owner, d.rows, ops, f);
    forall m | 0 <= m < |rest|
      ensures PutOk(rest[m], r, owner, f) && DropOk(rest, m, r, owner, rows', ops, f)
    {
      assert rest[m] == todo[m + 1];
      assert PutOk(todo[m + 1], r, owner, f) && DropOk(todo, m + 1, r, owner, d.rows, ops, f);
      if rest[m].DropRow? && rest[m].id in rows' {
        if e.PutRow? {
          RowIsAlive(f, e.id);
        }
        assert rest[m].id in d.rows;
        forall k | 0 <= k < |ops| && Moves(ops[k], rest[m].id)
          ensures NewRowFirst(rest, m, r, owner, rows', f, ops[k].ch.internal)
        {
          FirstStill(d, todo, m + 1, r, owner, f, ops[k].ch.internal);
        }
      }
    }
  }

  lemma FirstStill<V, P>(d: Db<V, P>, todo: seq<Effect<V, P>>, m: nat, r: nat, owner: map<nat, nat>, f: Db<V, P>, i: nat)
    requires 0 < m <= |todo| && NewRowFirst(todo, m, r, owner, d.rows, f, i) && DbOk(f)
    requires todo[0].DropRow? ==> todo[0].id in f.core.tombs
    ensures NewRowFirst(todo[1..], m - 1, r, owner, Apply(d, todo[0]).rows, f, i)
  {
    hide Owns, DbOk;
    RowIsAlive(f, i);
    if i !in d.rows {
      var j :| 0 <= j < m && todo[j].PutRow? && todo[j].id == i;
      if j > 0 {
        assert todo[1..][j - 1] == todo[j];
        assert PutBefore(todo[1..], m - 1, i);
      }
    }
  }

  /** The replayed rows are the same before and after any effect. */
  lemma EffectOver<V, P>(start: Db<V, P>, ops: seq<Op<V, P>>, d: Db<V, P>, todo: seq<Effect<V, P>>, r: nat, owner: map<nat, nat>)
    requires DbOk(InOrder(start, ops)) && todo != []
    requires RowsOver(d.rows, ops) == InOrder(start, ops).rows
    requires TodoOk(todo, r, owner, d.rows, ops, InOrder(start, ops))
    ensures RowsOver(Apply(d, todo[0]).rows, ops) == InOrder(start, ops).rows
  {
    hide Owns, DbOk, InOrder, RowsOver, Moves;
    var f, e := InOrder(start, ops), todo[0];
    assert PutOk(todo[0], r, owner, f) && DropOk(todo, 0, r, owner, d.rows, ops, f);
    if e.PutRow? {
      RowStays(start, ops, e.id);
      PutEarly(d.rows, ops, e.id, e.doc);
      assert f.rows[e.id := e.doc] == f.rows;
    } else if e.DropRow? {
      if e.id in d.rows {
        forall k | 0 <= k < |ops| && Moves(ops[k], e.id)
          ensures ops[k].ch.internal != e.id && ops[k].ch.internal in d.rows && !Gone(ops, ops[k].ch.internal)
        {
          assert NewRowFirst(todo, 0, r, owner, d.rows, f, ops[k].ch.internal);
          RowIsAlive(f, ops[k].ch.internal);
          RowStays(start, ops, ops[k].ch.internal);
        }
        DropEarly(d.rows, ops, ops, e.id);
        if e.id in f.rows {
          RowIsAlive(f, e.id);
        }
        LacksNothing(RowsOver(d.rows - {e.id}, ops), RowsOver(d.rows, ops), e.id);
      } else {
        assert d.rows - {e.id} == d.rows;
      }
    }
  }

  lemma EffectRows<V, P>(start: Db<V, P>, s: World<V, P>, w: nat)
    requires StateOk(start, s) && RowsOk(start, s) && Enabled(s, Step.Effect(w))
    ensures RowsOk(start, Do(s, Step.Effect(w)))
  {
    hide DbOk, InOrder, RowsOver, SlicesOk, CountsOk, Apply, TodoOk, AtHome, Owns, AllBelong;
    var f, x, after := InOrder(start, s.ops), s.writers[w], Do(s, Step.Effect(w));
    assert WriterRows(x, s.owner, s.db.rows, s.ops, f);
    EffectOver(start, s.ops, s.db, x.todo, x.realId, s.owner);
    forall k | 0 <= k < |s.writers|
      ensures WriterRows(after.writers[k], s.owner, after.db.rows, s.ops, f)
    {
      assert WriterRows(s.writers[k], s.owner, s.db.rows, s.ops, f);
      if k == w {
        TodoGoesOn(s.db, x.todo, x.realId, s.owner, s.ops, f);
      } else if s.writers[k].Applying? {
        assert Locked(s.writers[k]) != Locked(x);
        ForeignRows(s, f, w, s.writers[k].realId);
        TodoStays(s.writers[k].todo, s.writers[k].realId, s.owner, s.db.rows, after.db.rows, s.ops, f);
      }
    }
  }

  lemma ForeignRows<V, P>(s: World<V, P>, f: Db<V, P>, w: nat, q: nat)
    requires WritersOk(s, f) && OwnersOk(s) && Enabled(s, Step.Effect(w)) && q != s.writers[w].realId
    ensures forall i :: Owns(s.owner, q, i) ==> SameAt(Apply(s.db, s.writers[w].todo[0]).rows, s.db.rows, i)
  {
    hide Apply, Owns, Belongs, AtHome;
    var x := s.writers[w];
    assert WriterOk(x, s.db.core.next, s.owner, f) && AtHome(s.db.core, x.realId, s.owner);
    Foreign(s.db, x.todo[0], x.realId, s.owner, q);
    SliceRows(Apply(s.db, x.todo[0]), s.db, q, s.owner);
  }

  lemma SliceRows<V, P>(a: Db<V, P>, b: Db<V, P>, q: nat, owner: map<nat, nat>)
    requires SameSlice(a, b, q, owner)
    ensures forall i :: Owns(owner, q, i) ==> SameAt(a.rows, b.rows, i)
  {
    hide Owns;
    forall i | Owns(owner, q, i)
      ensures SameAt(a.rows, b.rows, i)
    {
      assert SameId(a, b, i);
    }
  }

  // ----- Logging -----

  /** Right away the effects of an operation are what its rows will need. */
  lemma LoggedTodo<V, P>(start: Db<V, P>, s: World<V, P>, w: nat, fails: bool)
    requires StateOk(start, s) && Enabled(s, Log(w, fails))
    ensures var after := Do(s, Log(w, fails)); var op := Op(s.writers[w].ch, fails);
            TodoOk(Outcome(s.db, op), op.ch.realId, s.owner, s.db.rows, after.ops, Done(InOrder(start, s.ops), op))
  {
    hide DbOk, InOrder, CountsOk, TodoOk, Owns, Done, SameSlice, AtHome, Ready, Outcome;
    var f, ch := InOrder(start, s.ops), s.writers[w].ch;
    var op := Op(ch, fails);
    assert WriterOk(s.writers[w], s.db.core.next, s.owner, f) && AtHome(s.db.core, ch.realId, s.owner);
    assert Todo(s.writers[w]) == [] && SameSlice(ApplyAll(s.db, Todo(s.writers[w])), f, ch.realId, s.owner);
    if fails {
      NoRows(s.db, op, s.owner, s.db.rows, s.ops + [op], Done(f, op));
    } else {
      OwnTodo(start, s.db, s.ops, ch, s.owner);
    }
  }

  lemma NoRows<V, P>(d: Db<V, P>, op: Op<V, P>, owner: map<nat, nat>, rows: map<nat, P>, ops: seq<Op<V, P>>, f: Db<V, P>)
    requires op.fails
    ensures TodoOk(Outcome(d, op), op.ch.realId, owner, rows, ops, f)
  {}

  lemma OwnTodo<V, P>(start: Db<V, P>, d: Db<V, P>, ops: seq<Op<V, P>>, ch: Change<V, P>, owner: map<nat, nat>)
    requires var f := InOrder(start, ops);
             DbOk(f) && SameSlice(d, f, ch.realId, owner) && AtHome(d.core, ch.realId, owner) && Ready(f.core, ch)
    requires !ch.Delete? ==> Owns(owner, ch.realId, ch.internal)
    ensures var op := Op(ch, false);
            TodoOk(Outcome(d, op), ch.realId, owner, d.rows, ops + [op], Done(InOrder(start, ops), op))
  {
    hide DbOk, InOrder, Owns, SameSlice, AtHome, Ready, Done, Moves, Effects;
    var f, op, r := InOrder(start, ops), Op(ch, false), ch.realId;
    var g, todo, more := Done(f, op), Effects(d, ch), ops + [op];
    SliceBack(d, f, r, owner);
    HomeOfSlice(d, f, r, owner);
    EffectsBelong(f, ch, owner);
    EffectsSame(f, d, ch, owner);
    SliceRows(d, f, r, owner);
    DoneTombs(f, op);
    forall m | 0 <= m < |todo|
      ensures PutOk(todo[m], r, owner, g) && DropOk(todo, m, r, owner, d.rows, more, g)
    {
      EffectRow(f, ch, m);
      assert Belongs(Effects(f, ch)[m], r, owner);
      if todo[m].DropRow? {
        var o := todo[m].id;
        if o in d.rows {
          assert SameAt(d.rows, f.rows, o);
          forall k | 0 <= k < |more| && Moves(more[k], o)
            ensures NewRowFirst(todo, m, r, owner, d.rows, g, more[k].ch.internal)
          {
            if k < |ops| {
              RowStays(start, ops, o);
              MoveRemoves(ops, k, o);
            } else {
              MovesIs(op, o);
            }
          }
        }
      }
    }
  }

  lemma MoveRemoves<V, P>(ops: seq<Op<V, P>>, k: nat, o: nat)
    requires k < |ops| && Moves(ops[k], o)
    ensures Gone(ops, o)
  {
    assert Removes(ops[k], o);
  }

  /** What an operation's effects do to rows, against its rows when done. */
  lemma EffectRow<V, P>(f: Db<V, P>, ch: Change<V, P>, m: nat)
    requires DbOk(f) && Ready(f.core, ch) && m < |Effects(f, ch)|
    ensures var e, g := Effects(f, ch)[m], Done(f, Op(ch, false));
            && (e.PutRow? ==> !ch.Delete? && e.id == ch.internal && e.id in g.rows && g.rows[e.id] == e.doc)
            && (e.DropRow? ==> Removes(Op(ch, false), e.id))
            && (e.DropRow? && ch.Update? && e.id in f.rows ==>
                  ch.internal in g.rows && PutBefore(Effects(f, ch), m, ch.internal))
  {
    hide CoreOk, Ready, Complete, CoreAfter;
    DoneIs(f, Op(ch, false));
    CompleteIs(f, ch);
    if ch.Update? {
      PriorDiffers(f.core, ch);
      if ch.payload.Present? || ch.prior in f.rows {
        assert Effects(f, ch)[3].PutRow? && Effects(f, ch)[3].id == ch.internal;
        assert m == 4 ==> PutBefore(Effects(f, ch), 4, ch.internal);
      }
    }
  }

  lemma PriorDiffers<V, P>(c: Core<V>, ch: Change<V, P>)
    requires CoreOk(c) && Ready(c, ch) && ch.Update?
    ensures ch.prior != ch.internal
  {
    hide LiveIds;
  }

  /** Other writers' remaining steps are right for the rows with the operation done. */
  lemma OtherTodo<V, P>(todo: seq<Effect<V, P>>, q: nat, owner: map<nat, nat>, rows: map<nat, P>, ops: seq<Op<V, P>>,
                        f: Db<V, P>, op: Op<V, P>, g: Db<V, P>)
    requires TodoOk(todo, q, owner, rows, ops, f) && f.core.tombs <= g.core.tombs
    requires forall i :: Owns(owner, q, i) ==> SameAt(f.rows, g.rows, i) && !Moves(op, i)
    ensures TodoOk(todo, q, owner, rows, ops + [op], g)
  {
    hide Owns, Moves;
    var more := ops + [op];
    forall m | 0 <= m < |todo|
      ensures PutOk(todo[m], q, owner, g) && DropOk(todo, m, q, owner, rows, more, g)
    {
      assert PutOk(todo[m], q, owner, f) && DropOk(todo, m, q, owner, rows, ops, f);
      if todo[m].DropRow? && todo[m].id in rows {
        forall k | 0 <= k < |more| && Moves(more[k], todo[m].id)
          ensures NewRowFirst(todo, m, q, owner, rows, g, more[k].ch.internal)
        {
          assert k < |ops| && more[k] == ops[k];
          assert NewRowFirst(todo, m, q, owner, rows, f, ops[k].ch.internal);
        }
      }
    }
  }

  lemma OtherRows<V, P>(start: Db<V, P>, s: World<V, P>, w: nat, fails: bool, q: nat)
    requires StateOk(start, s) && Enabled(s, Log(w, fails)) && q != s.writers[w].ch.realId
    ensures var f, op := InOrder(start, s.ops), Op(s.writers[w].ch, fails);
            forall i :: Owns(s.owner, q, i) ==> SameAt(f.rows, Done(f, op).rows, i) && !Moves(op, i)
  {
    hide DbOk, InOrder, CountsOk, Owns, Done, SameSlice, AtHome, Ready, Effects;
    var f, ch := InOrder(start, s.ops), s.writers[w].ch;
    var op := Op(ch, fails);
    assert WriterOk(s.writers[w], s.db.core.next, s.owner, f) && AtHome(s.db.core, ch.realId, s.owner);
    assert Todo(s.writers[w]) == [] && SameSlice(ApplyAll(s.db, Todo(s.writers[w])), f, ch.realId, s.owner);
    HomeOfSlice(s.db, f, ch.realId, s.owner);
    LogOtherSlice(f, op, s.owner, q);
    SliceRows(f, Done(f, op), q, s.owner);
    EffectsBelong(f, ch, s.owner);
    forall i | Owns(s.owner, q, i)
      ensures !Moves(op, i)
    {
      if Moves(op, i) {
        OwnersDiffer(s.owner, q, ch.realId, i, i);
      }
    }
  }

  lemma OneMoreOp<V, P>(start: Db<V, P>, rows: map<nat, P>, ops: seq<Op<V, P>>, op: Op<V, P>)
    ensures InOrder(start, ops + [op]) == Done(InOrder(start, ops), op)
    ensures RowsOver(rows, ops + [op]) == if op.fails then RowsOver(rows, ops) else ReplayRows(RowsOver(rows, ops), op.ch)
  {
    hide Done, ReplayRows;
    assert (ops + [op])[..|ops|] == ops;
  }

  lemma LogWriterRows<V, P>(start: Db<V, P>, s: World<V, P>, w: nat, fails: bool, k: nat)
    requires StateOk(start, s) && Enabled(s, Log(w, fails)) && k < |s.writers|
    requires WriterRows(s.writers[k], s.owner, s.db.rows, s.ops, InOrder(start, s.ops))
    ensures var after := Do(s, Log(w, fails)); var g := Done(InOrder(start, s.ops), Op(s.writers[w].ch, fails));
            WriterRows(after.writers[k], s.owner, s.db.rows, after.ops, g)
  {
    hide DbOk, InOrder, SlicesOk, CountsOk, OwnersOk, TodoOk, Owns, Done, Outcome, Moves;
    var f, op := InOrder(start, s.ops), Op(s.writers[w].ch, fails);
    if k == w {
      LoggedTodo(start, s, w, fails);
    } else if s.writers[k].Applying? {
      assert Locked(s.writers[k]) != Locked(s.writers[w]);
      DoneTombs(f, op);
      OtherRows(start, s, w, fails, s.writers[k].realId);
      OtherTodo(s.writers[k].todo, s.writers[k].realId, s.owner, s.db.rows, s.ops, f, op, Done(f, op));
    }
  }

  lemma LogRows<V, P>(start: Db<V, P>, s: World<V, P>, w: nat, fails: bool)
    requires StateOk(start, s) && RowsOk(start, s) && Enabled(s, Log(w, fails))
    ensures RowsOk(start, Do(s, Log(w, fails)))
  {
    hide StateOk, InOrder, RowsOver, WriterRows, Done, Outcome, ReplayRows;
    var f, op, after := InOrder(start, s.ops), Op(s.writers[w].ch, fails), Do(s, Log(w, fails));
    OneMoreOp(start, s.db.rows, s.ops, op);
    LoggedReady(start, s, w);
    LoggedRows(f, op);
    forall k | 0 <= k < |s.writers|
      ensures WriterRows(after.writers[k], s.owner, s.db.rows, after.ops, InOrder(start, after.ops))
    {
      LogWriterRows(start, s, w, fails, k);
    }
  }

  lemma LoggedReady<V, P>(start: Db<V, P>, s: World<V, P>, w: nat)
    requires StateOk(start, s) && w < |s.writers| && s.writers[w].Begun?
    ensures DbOk(InOrder(start, s.ops)) && Ready(InOrder(start, s.ops).core, s.writers[w].ch)
  {
    hide DbOk, InOrder, SlicesOk, CountsOk, OwnersOk, Ready;
    assert WriterOk(s.writers[w], s.db.core.next, s.owner, InOrder(start, s.ops));
  }

  lemma LoggedRows<V, P>(f: Db<V, P>, op: Op<V, P>)
    requires DbOk(f) && Ready(f.core, op.ch)
    ensures Done(f, op).rows == if op.fails then f.rows else ReplayRows(f.rows, op.ch)
  {
    hide DbOk, Ready, Done, Complete, ReplayRows, Failed;
    DoneIs(f, op);
    if !op.fails {
      LoggedReplays(f, op.ch);
    }
  }

  // ----- Beginning and finishing -----

  lemma TodoOwned<V, P>(todo: seq<Effect<V, P>>, q: nat, owner: map<nat, nat>, rows: map<nat, P>, ops: seq<Op<V, P>>,
                        f: Db<V, P>, owner': map<nat, nat>)
    requires TodoOk(todo, q, owner, rows, ops, f)
    requires forall i :: Owns(owner, q, i) ==> Owns(owner', q, i)
    ensures TodoOk(todo, q, owner', rows, ops, f)
  {
    hide Owns, Moves;
    forall m | 0 <= m < |todo|
      ensures PutOk(todo[m], q, owner', f) && DropOk(todo, m, q, owner', rows, ops, f)
    {
      assert PutOk(todo[m], q, owner, f) && DropOk(todo, m, q, owner, rows, ops, f);
      if todo[m].DropRow? && todo[m].id in rows {
        forall k | 0 <= k < |ops| && Moves(ops[k], todo[m].id)
          ensures NewRowFirst(todo, m, q, owner', rows, f, ops[k].ch.internal)
        {
          assert NewRowFirst(todo, m, q, owner, rows, f, ops[k].ch.internal);
        }
      }
    }
  }

  lemma BeginRows<V, P>(start: Db<V, P>, s: World<V, P>, w: nat, ch: Change<V, P>)
    requires StateOk(start, s) && RowsOk(start, s) && Enabled(s, Begin(w, ch))
    ensures RowsOk(start, Do(s, Begin(w, ch)))
  {
    hide DbOk, InOrder, RowsOver, SlicesOk, TodoOk, Owns, Issued;
    var f, after := InOrder(start, s.ops), Do(s, Begin(w, ch));
    OwnedNew(s, ch);
    forall k | 0 <= k < |s.writers|
      ensures WriterRows(after.writers[k], after.owner, s.db.rows, s.ops, f)
    {
      assert WriterRows(s.writers[k], s.owner, s.db.rows, s.ops, f);
      if k != w && s.writers[k].Applying? {
        var q := s.writers[k].realId;
        forall i | Owns(s.owner, q, i)
          ensures Owns(after.owner, q, i)
        {
          if after.owner != s.owner {
            OwnsMore(s.owner, ch.internal, ch.realId, q, i);
          }
        }
        TodoOwned(s.writers[k].todo, q, s.owner, s.db.rows, s.ops, f, after.owner);
      }
    }
  }

  lemma FinishRows<V, P>(start: Db<V, P>, s: World<V, P>, w: nat)
    requires RowsOk(start, s) && Enabled(s, Finish(w))
    ensures RowsOk(start, Do(s, Finish(w)))
  {
    hide InOrder, RowsOver, TodoOk;
    var f, after := InOrder(start, s.ops), Do(s, Finish(w));
    forall k | 0 <= k < |s.writers|
      ensures WriterRows(after.writers[k], s.owner, s.db.rows, s.ops, f)
    {
      assert WriterRows(s.writers[k], s.owner, s.db.rows, s.ops, f);
    }
  }

  // ----- Schedules -----

  lemma InvState<V, P>(start: Db<V, P>, s: World<V, P>)
    requires Inv(start, s)
    ensures StateOk(start, s)
  {
    hide StateOk;
  }

  lemma {:induction false} RowsSchedule<V, P>(start: Db<V, P>, s: World<V, P>, steps: seq<Step<V, P>>)
    requires Inv(start, s) && RowsOk(start, s) && Schedule(s, steps)
    ensures RowsOk(start, DoAll(s, steps))
    decreases |steps|
  {
    hide Inv, RowsOk, Enabled, Do, StateOk;
    if steps != [] {
      InvState(start, s);
      match steps[0] {
        case Begin(w, ch) =>
          BeginKeeps(start, s, w, ch);
          BeginRows(start, s, w, ch);
        case Log(w, fails) =>
          LogKeeps(start, s, w, fails);
          LogRows(start, s, w, fails);
        case Effect(w) =>
          EffectKeeps(start, s, w);
          EffectRows(start, s, w);
        case Finish(w) =>
          FinishKeeps(start, s, w);
          FinishRows(start, s, w);
      }
      RowsSchedule(start, Do(s, steps[0]), steps[1..]);
    }
  }

  /** Over any state, replaying the log is replaying the operations with their outcomes. */
  lemma {:induction false} LogTells<V, P>(d: Db<V, P>, s: World<V, P>, steps: seq<Step<V, P>>)
    requires LogOk(d, s) && Schedule(s, steps)
    ensures LogOk(d, DoAll(s, steps))
    decreases |steps|
  {
    hide LogOk, Enabled, Do;
    if steps != [] {
      match steps[0] {
        case Begin(w, ch) => BeginLog(d, s, w, ch);
        case Log(w, fails) => LogLog(d, s, w, fails);
        case Effect(w) => EffectLog(d, s, w);
        case Finish(w) => FinishLog(d, s, w);
      }
      LogTells(d, Do(s, steps[0]), steps[1..]);
    }
  }

  lemma BeginLog<V, P>(d: Db<V, P>, s: World<V, P>, w: nat, ch: Change<V, P>)
    requires LogOk(d, s) && Enabled(s, Begin(w, ch))
    ensures LogOk(d, Do(s, Begin(w, ch)))
  {
    hide ReplayAll, Replayed, AbortedLsns, Pending, Issued;
    PendingOne(s.writers[w]);
    PendingOne(Begun(ch));
    SamePending(s.writers, w, Begun(ch));
  }

  lemma EffectLog<V, P>(d: Db<V, P>, s: World<V, P>, w: nat)
    requires LogOk(d, s) && Enabled(s, Step.Effect(w))
    ensures LogOk(d, Do(s, Step.Effect(w)))
  {
    hide ReplayAll, Replayed, AbortedLsns, Pending, Apply;
    var x := Do(s, Step.Effect(w)).writers[w];
    PendingOne(s.writers[w]);
    PendingOne(x);
    SamePending(s.writers, w, x);
  }

  lemma StartTells<V, P>(d: Db<V, P>, start: Db<V, P>, base: nat, n: nat)
    ensures LogOk(d, Initial(start, base, n)) && (d == start ==> RowsOk(start, Initial(start, base, n)))
  {
    NothingPending(Initial(start, base, n).writers);
  }

  /**
     A crash anywhere in any schedule, with any number of operations in flight: recovery
     over the rows as they are is the state in which every logged operation is done, failed
     ones as failed ones, and each operation in flight whether its effects were done or not.
     An operation that was going to fail but has not logged its abort is one of these, as no
     effect of it shows that it was.
   */
  lemma CrashAmongWriters<V, P>(start: Db<V, P>, base: nat, n: nat, steps: seq<Step<V, P>>)
    requires DbOk(start) && Schedule(Initial(start, base, n), steps)
    requires Pending(DoAll(Initial(start, base, n), steps).writers) == {}
    ensures var s := DoAll(Initial(start, base, n), steps);
            var back, done := Recovered(Db(start.core, s.db.rows), s.log, base), InOrder(start, s.ops);
            && DbOk(back) && back.rows == done.rows && Settled(back.core) == Settled(done.core) && View(back) == View(done)
            && (NoReinsertFails(s.ops) ==> back == done)
    ensures var s := DoAll(Initial(start, base, n), steps);
            forall k :: 0 <= k < |s.writers| && !s.writers[k].Idle? ==>
              SameSlice(ApplyAll(s.db, Todo(s.writers[k])), InOrder(start, s.ops), Locked(s.writers[k]), s.owner)
  {
    hide CoreOk, InOrder, Replayed, RowsOver, SameSlice, ReplayAll, AbortedLsns, Tracks, Settled, LiveIds, ApplyAll, View;
    InitialOk(start, base, n);
    StartTells(start, start, base, n);
    ScheduleKeeps(start, Initial(start, base, n), steps);
    RowsSchedule(start, Initial(start, base, n), steps);
    var s := DoAll(Initial(start, base, n), steps);
    var d := Db(start.core, s.db.rows);
    StartTells(d, start, base, n);
    LogTells(d, Initial(start, base, n), steps);
    SameBase(Initial(start, base, n), steps);
    assert AbortedLsns(s.log) + Pending(s.writers) == AbortedLsns(s.log);
    ReplayedOver(start, s.db.rows, s.ops);
    var back, done := Recovered(d, s.log, base), InOrder(start, s.ops);
    TracksSettled(back.core, done.core);
    LiveOfSettled(back.core, done.core);
    SettledView(back, done);
  }
}
