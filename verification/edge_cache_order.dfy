/**
 What the shard's put order means for its users: which lists it returns, and which
 ids it still holds after any sequence of puts.
 */
module EdgeCacheOrder {
  import opened Basics
  import opened LruLinks
  import opened EdgeCache

  /** The entry a put pushes out of a full shard. */
  predicate Evicts(es: seq<Entry>, cap: nat, id: nat, x: nat) {
    !Has(es, id) && |es| >= cap && es != [] && es[|es| - 1].id == x
  }

  /** A lookup after a put: the new list for its id, nothing for the evicted one, the old list for all others. */
  lemma LookupAfterPut(es: seq<Entry>, cap: nat, id: nat, list: seq<NodeId>, x: nat)
    requires DistinctIds(es)
    ensures Lookup(PutFront(es, cap, id, list), x)
            == if x == id then Some(list) else if Evicts(es, cap, id, x) then None else Lookup(es, x)
  {
    hide Removed, DistinctIds;
    var e := Entry(id, list);
    if Has(es, id) {
      var k := Position(es, id);
      LookupCons(e, Removed(es, k), x);
      LookupRemoved(es, k, x);
    } else if |es| >= cap && es != [] {
      RemovedLast(es);
      LookupCons(e, Removed(es, |es| - 1), x);
      LookupRemoved(es, |es| - 1, x);
    } else {
      LookupCons(e, es, x);
    }
  }

  lemma LookupCons(e: Entry, es: seq<Entry>, x: nat)
    ensures Lookup([e] + es, x) == if e.id == x then Some(e.list) else Lookup(es, x)
  {
    assert ([e] + es)[1..] == es;
  }

  /** Removing an entry hides its own id only. */
  lemma LookupRemoved(es: seq<Entry>, k: nat, x: nat)
    requires DistinctIds(es) && k < |es|
    ensures Lookup(Removed(es, k), x) == if x == es[k].id then None else Lookup(es, x)
  {
    hide Removed, DistinctIds;
    HasRemoved(es, k, x);
    if Has(es, x) && x != es[k].id {
      var fewer, p := Removed(es, k), Position(es, x);
      RemovedAt(es, k);
      DistinctRemoved(es, k);
      PositionIs(fewer, if p < k then p else p - 1);
    }
  }

  lemma LookupAfterErase(es: seq<Entry>, id: nat, x: nat)
    requires DistinctIds(es)
    ensures Lookup(Without(es, id), x) == if x == id then None else Lookup(es, x)
  {
    if Has(es, id) {
      LookupRemoved(es, Position(es, id), x);
    }
  }

  // ----- Runs of puts and erasures -----

  datatype CacheOp = Put(e: Entry) | Erase(id: nat)

  /** The entries put and not erased since, the one put last first, each with its last list. */
  function Recent(ops: seq<CacheOp>): seq<Entry> {
    if ops == [] then []
    else
      var before := Recent(ops[..|ops| - 1]);
      match ops[|ops| - 1]
      case Put(e) => [e] + Without(before, e.id)
      case Erase(id) => Without(before, id)
  }

  /** What a shard of capacity `cap` holds after the operations. */
  function Held(cap: nat, ops: seq<CacheOp>): seq<Entry> {
    if ops == [] then []
    else
      var before := Held(cap, ops[..|ops| - 1]);
      match ops[|ops| - 1]
      case Put(e) => PutFront(before, cap, e.id, e.list)
      case Erase(id) => Without(before, id)
  }

  /** After a put: one more than before, up to the capacity, unless the id was among the `room` most recent already. */
  function RoomAfterPut(es: seq<Entry>, room: nat, cap: nat, id: nat): nat {
    if Position(es, id) < room || room >= cap then room else room + 1
  }

  function RoomAfterErase(es: seq<Entry>, room: nat, id: nat): nat {
    if Position(es, id) < room then room - 1 else room
  }

  /** How many of the most recent entries are still held. */
  function Room(cap: nat, ops: seq<CacheOp>): nat {
    if ops == [] then 0
    else
      var front := ops[..|ops| - 1];
      match ops[|ops| - 1]
      case Put(e) => RoomAfterPut(Recent(front), Room(cap, front), cap, e.id)
      case Erase(id) => RoomAfterErase(Recent(front), Room(cap, front), id)
  }

  lemma {:induction false} PositionInPrefix(es: seq<Entry>, n: nat, id: nat)
    requires n <= |es|
    ensures Has(es[..n], id) <==> Position(es, id) < n
    ensures Has(es[..n], id) ==> Position(es[..n], id) == Position(es, id)
  {
    if n > 0 {
      assert es[..n][1..] == es[1..][..n - 1];
      PositionInPrefix(es[1..], n - 1, id);
    }
  }

  /** Taking an element out of a prefix is taking it out of the whole and then the shorter prefix. */
  lemma RemovedInPrefix(es: seq<Entry>, n: nat, p: nat)
    requires p < n <= |es|
    ensures Removed(es[..n], p) == Removed(es, p)[..n - 1]
  {
    hide Removed;
    RemovedAt(es[..n], p);
    RemovedAt(es, p);
    var left, right := Removed(es[..n], p), Removed(es, p)[..n - 1];
    forall i | 0 <= i < n - 1
      ensures left[i] == right[i]
    {
      assert left[i] == es[..n][if i < p then i else i + 1];
    }
  }

  /** A prefix in front of the element taken out stays. */
  lemma RemovedBehind(es: seq<Entry>, n: nat, p: nat)
    requires n <= p < |es|
    ensures Removed(es, p)[..n] == es[..n]
  {
    hide Removed;
    RemovedAt(es, p);
  }

  lemma WithoutBehind(es: seq<Entry>, n: nat, id: nat)
    requires n <= |es| && n <= Position(es, id)
    ensures n <= |Without(es, id)| && Without(es, id)[..n] == es[..n]
  {
    hide Removed;
    if Has(es, id) {
      RemovedAt(es, Position(es, id));
      RemovedBehind(es, n, Position(es, id));
    }
  }

  lemma ConsPrefix(e: Entry, es: seq<Entry>, n: nat)
    requires 0 < n <= |es| + 1
    ensures ([e] + es)[..n] == [e] + es[..n - 1]
  {}

  lemma PutOnPrefix(es: seq<Entry>, room: nat, cap: nat, e: Entry)
    requires room <= |es| && room <= cap && cap > 0
    ensures var after, left := [e] + Without(es, e.id), RoomAfterPut(es, room, cap, e.id);
            left <= |after| && left <= cap && PutFront(es[..room], cap, e.id, e.list) == after[..left]
  {
    hide Removed;
    PositionInPrefix(es, room, e.id);
    var p := Position(es, e.id);
    if p < room {
      RemovedAt(es, p);
      RemovedInPrefix(es, room, p);
      ConsPrefix(e, Without(es, e.id), room);
    } else if room < cap {
      WithoutBehind(es, room, e.id);
      ConsPrefix(e, Without(es, e.id), room + 1);
    } else {
      WithoutBehind(es, room - 1, e.id);
      assert es[..room][..room - 1] == es[..room - 1];
      ConsPrefix(e, Without(es, e.id), room);
    }
  }

  lemma EraseOnPrefix(es: seq<Entry>, room: nat, id: nat)
    requires room <= |es|
    ensures var after, left := Without(es, id), RoomAfterErase(es, room, id);
            left <= |after| && left <= room && Without(es[..room], id) == after[..left]
  {
    hide Removed;
    PositionInPrefix(es, room, id);
    var p := Position(es, id);
    if p < room {
      RemovedAt(es, p);
      RemovedInPrefix(es, room, p);
    } else {
      WithoutBehind(es, room, id);
    }
  }

  /**
     After any puts and erasures a shard holds the most recently put of the ids not erased
     since, in that order: whatever it holds, it holds everything put later as well.
   */
  lemma {:induction false} HoldsMostRecent(cap: nat, ops: seq<CacheOp>)
    requires cap > 0
    ensures Room(cap, ops) <= |Recent(ops)| && Room(cap, ops) <= cap
    ensures Held(cap, ops) == Recent(ops)[..Room(cap, ops)]
  {
    hide Without, PutFront, RoomAfterPut, RoomAfterErase;
    if ops != [] {
      var front := ops[..|ops| - 1];
      HoldsMostRecent(cap, front);
      match ops[|ops| - 1]
      case Put(e) => PutOnPrefix(Recent(front), Room(cap, front), cap, e);
      case Erase(id) => EraseOnPrefix(Recent(front), Room(cap, front), id);
    }
  }

  /** Erasures aside, that is everything, or as much as the capacity allows. */
  lemma {:induction false} HoldsAsManyAsFit(cap: nat, ops: seq<CacheOp>)
    requires cap > 0 && forall i :: 0 <= i < |ops| ==> ops[i].Put?
    ensures Room(cap, ops) == if |Recent(ops)| < cap then |Recent(ops)| else cap
  {
    hide Removed;
    HoldsMostRecent(cap, ops);
    if ops != [] {
      var front := ops[..|ops| - 1];
      HoldsAsManyAsFit(cap, front);
      var before, id := Recent(front), ops[|ops| - 1].e.id;
      if Has(before, id) {
        RemovedAt(before, Position(before, id));
      }
    }
  }
}
