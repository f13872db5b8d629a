/**
 What callers of the database see: a map from live real id to its vector and
 payload. Inserts, updates and deletes act on it as on a plain map.
 */
module DbView {
  import opened IdTypes
  import opened DbState
  import opened DbReplay

  datatype Version<V, P> = Version(vec: V, payload: Payload<P>)

  function RowOf<P>(rows: map<nat, P>, i: nat): Payload<P> {
    if i in rows then Present(rows[i]) else Absent
  }

  function Current<V, P>(d: Db<V, P>, r: nat): Version<V, P>
    requires Alive(d.core, r)
  {
    Version(d.core.vectors[Resolve(d.core, r)], RowOf(d.rows, Resolve(d.core, r)))
  }

  ghost function View<V, P>(d: Db<V, P>): map<nat, Version<V, P>> {
    map r | r in AliveReals(d.core) && Alive(d.core, r) :: Current(d, r)
  }

  lemma ViewAt<V, P>(d: Db<V, P>, r: nat)
    requires CoreOk(d.core)
    ensures r in View(d) <==> r < FIRST_UPDATE_ID && Alive(d.core, r)
    ensures r in View(d) ==> View(d)[r] == Current(d, r)
  {
    hide MapsOk, IdsOk;
    if r < FIRST_UPDATE_ID {
      AliveRealsAre(d.core, r);
    } else if r in AliveReals(d.core) {
      var i :| i in LiveIds(d.core) && ResolveReal(d.core, i) == r;
      LiveRealIds(d.core, i);
    }
  }

  /** Two states that agree on every real id look the same. */
  lemma SameView<V, P>(d: Db<V, P>, view: map<nat, Version<V, P>>)
    requires CoreOk(d.core)
    requires forall r: nat :: r in view <==> r < FIRST_UPDATE_ID && Alive(d.core, r)
    requires forall r: nat :: r in view && Alive(d.core, r) ==> view[r] == Current(d, r)
    ensures View(d) == view
  {
    hide CoreOk, Alive, Current;
    forall r: nat
      ensures r in View(d) <==> r in view
      ensures r in view ==> View(d)[r] == view[r]
    {
      ViewAt(d, r);
    }
  }

  /** The payload an operation leaves: its own, or for an update without one that of the old version. */
  function PayloadAfter<V, P>(d: Db<V, P>, ch: Change<V, P>): Payload<P>
    requires !ch.Delete?
  {
    if ch.payload.Present? || ch.Insert? then ch.payload else RowOf(d.rows, ch.prior)
  }

  ghost function ViewAfter<V, P>(d: Db<V, P>, ch: Change<V, P>): map<nat, Version<V, P>> {
    if ch.Delete? then View(d) - {ch.realId} else View(d)[ch.realId := Version(ch.vec, PayloadAfter(d, ch))]
  }

  /** The operation's own real id is as the operation says. */
  lemma OwnVersion<V, P>(d: Db<V, P>, ch: Change<V, P>)
    requires DbOk(d) && Issued(d.core, ch)
    ensures var after := Db(CoreAfter(d.core, ch), RowsAfter(d.rows, ch));
            && Alive(after.core, ch.realId) == !ch.Delete?
            && (!ch.Delete? ==> Current(after, ch.realId) == Version(ch.vec, PayloadAfter(d, ch)))
  {
    hide LiveIds;
    if !ch.Delete? {
      IssuedIsReady(d.core, ch);
      FreshId(d.core, ch);
      LiveIff(d.core, ch.internal);
    }
  }

  /** No other real id notices. */
  lemma OtherVersion<V, P>(d: Db<V, P>, ch: Change<V, P>, r: nat)
    requires DbOk(d) && Issued(d.core, ch) && r != ch.realId && r < FIRST_UPDATE_ID
    ensures var after := Db(CoreAfter(d.core, ch), RowsAfter(d.rows, ch));
            && Alive(after.core, r) == Alive(d.core, r)
            && (Alive(d.core, r) ==> Current(after, r) == Current(d, r))
  {
    hide LiveIds;
    if !ch.Delete? {
      IssuedIsReady(d.core, ch);
      FreshId(d.core, ch);
    }
    OtherResolve(d.core, ch, r);
  }

  lemma OtherResolve<V, P>(c: Core<V>, ch: Change<V, P>, r: nat)
    requires CoreOk(c) && Issued(c, ch) && r != ch.realId && r < FIRST_UPDATE_ID
    ensures Resolve(CoreAfter(c, ch), r) == Resolve(c, r) != ch.internal
    ensures ch.Update? ==> Resolve(c, r) != ch.prior
  {
    hide LiveIds;
  }

  /** Completed, an operation changes the view as it would change a map. */
  lemma CompleteView<V, P>(d: Db<V, P>, ch: Change<V, P>)
    requires DbOk(d) && Issued(d.core, ch)
    ensures View(Complete(d, ch)) == ViewAfter(d, ch)
  {
    hide CoreOk, CoreAfter, RowsAfter, Alive, Current, Complete, LiveIds, View, PayloadAfter;
    IssuedIsReady(d.core, ch);
    CompleteKeeps(d, ch);
    CompleteIs(d, ch);
    IssuedReal(d.core, ch);
    OwnVersion(d, ch);
    var after, view := Complete(d, ch), ViewAfter(d, ch);
    forall r: nat
      ensures r in view <==> r < FIRST_UPDATE_ID && Alive(after.core, r)
      ensures r in view && Alive(after.core, r) ==> view[r] == Current(after, r)
    {
      ViewAt(d, r);
      if r != ch.realId && r < FIRST_UPDATE_ID {
        OtherVersion(d, ch, r);
      }
    }
    SameView(after, view);
  }

  lemma IssuedReal<V, P>(c: Core<V>, ch: Change<V, P>)
    requires Issued(c, ch)
    ensures ch.realId < FIRST_UPDATE_ID
  {}

  /** Failed, it changes nothing that can be seen. */
  lemma FailedView<V, P>(d: Db<V, P>, ch: Change<V, P>)
    requires DbOk(d) && Issued(d.core, ch) && !ch.Delete?
    ensures View(d.(core := Failed(d.core, ch))) == View(d)
  {
    hide LiveIds, View;
    IssuedIsReady(d.core, ch);
    FailedKeeps(d, ch);
    FreshId(d.core, ch);
    var after := d.(core := Failed(d.core, ch));
    forall r: nat
      ensures r in View(d) <==> r < FIRST_UPDATE_ID && Alive(after.core, r)
      ensures r in View(d) && Alive(after.core, r) ==> View(d)[r] == Current(after, r)
    {
      ViewAt(d, r);
    }
    SameView(after, View(d));
  }

  /** An edited payload is seen at its real id. */
  lemma EditedView<V, P>(d: Db<V, P>, r: nat, doc: P)
    requires DbOk(d) && r < FIRST_UPDATE_ID && Alive(d.core, r)
    ensures r in View(d) && View(After(d, Edited(r, doc))) == View(d)[r := View(d)[r].(payload := Present(doc))]
  {
    hide LiveIds, View, Alive;
    ViewAt(d, r);
    var after, view := After(d, Edited(r, doc)), View(d)[r := View(d)[r].(payload := Present(doc))];
    forall q: nat
      ensures q in view <==> q < FIRST_UPDATE_ID && Alive(after.core, q)
      ensures q in view && Alive(after.core, q) ==> view[q] == Current(after, q)
    {
      ViewAt(d, q);
    }
    SameView(after, view);
  }

  /** States with the same settled core and the same rows look the same. */
  lemma SettledView<V, P>(a: Db<V, P>, b: Db<V, P>)
    requires DbOk(a) && DbOk(b) && Settled(a.core) == Settled(b.core) && a.rows == b.rows
    ensures View(a) == View(b)
  {
    hide LiveIds, View;
    forall r: nat
      ensures r in View(b) <==> r < FIRST_UPDATE_ID && Alive(a.core, r)
      ensures r in View(b) && Alive(a.core, r) ==> View(b)[r] == Current(a, r)
    {
      ViewAt(b, r);
      SettledAt(a.core, r);
      SettledAt(b.core, r);
    }
    SameView(a, View(b));
  }

  lemma SettledAt<V>(c: Core<V>, r: nat)
    requires CoreOk(c)
    ensures Alive(c, r) == Alive(Settled(c), r)
    ensures Alive(c, r) ==> Resolve(c, r) == Resolve(Settled(c), r)
  {}
}
