/**
 The fixed-size open-addressing table of an edge-cache shard
 (include/astervec_index.h): linear probing with wraparound and backward-shift
 deletion. The table refines a finite map from node id to slot.
 */
module ProbeTable {

  /** The id no node has; it marks an empty position. */
  const NO_ID: nat := 0xFFFF_FFFF_FFFF_FFFF
  const NO_SLOT: nat := 0xFFFF_FFFF

  const FIBONACCI: nat := 0x9E37_79B9_7F4A_7C15

  /** Multiply-shift hashing into a table of `n` positions. */
  function Home(id: nat, n: nat): (h: nat)
    requires n > 0
    ensures h < n
  {
    (id * FIBONACCI) % 0x1_0000_0000_0000_0000 / 0x1_0000_0000 % n
  }

  // ----- Cyclic positions -----

  /** How many probe steps lead from `a` to `b`. */
  function Dist(a: nat, b: nat, n: nat): (d: nat)
    requires a < n && b < n
    ensures d < n
  {
    if a <= b then b - a else b - a + n
  }

  function Next(i: nat, n: nat): (j: nat)
    requires i < n
    ensures j < n
  {
    if i + 1 == n then 0 else i + 1
  }

  lemma NextIsMod(i: nat, n: nat)
    requires i < n
    ensures (i + 1) % n == Next(i, n)
  {}

  lemma DistIsMod(a: nat, b: nat, n: nat)
    requires a < n && b < n
    ensures (b - a) % n == Dist(a, b, n)
  {
    ModIs(b - a, n, if a <= b then 0 else -1, Dist(a, b, n));
  }

  /** The remainder is the one number below `n` that differs by a multiple of `n`. */
  lemma ModIs(x: int, n: nat, q: int, r: nat)
    requires r < n && x == q * n + r
    ensures x % n == r
  {
    var p, s := x / n, x % n;
    assert x == p * n + s;
    if q > p {
      AtLeastOnce(q, p, n);
    } else if q < p {
      AtLeastOnce(p, q, n);
    }
  }

  lemma AtLeastOnce(q: int, p: int, n: nat)
    requires q > p
    ensures q * n >= p * n + n
  {
    assert (q - p - 1) * n >= 0;
    assert (q - p - 1) * n == q * n - p * n - n;
  }

  // ----- What the two arrays mean -----

  ghost predicate Distinct(keys: seq<nat>) {
    forall p, q :: 0 <= p < q < |keys| && keys[p] != NO_ID ==> keys[p] != keys[q]
  }

  /** No empty position interrupts the probe path from a key's home to its position. */
  ghost predicate Reachable(keys: seq<nat>, p: nat)
    requires p < |keys|
  {
    var n := |keys|;
    keys[p] != NO_ID ==>
      forall q :: 0 <= q < n && Dist(Home(keys[p], n), q, n) < Dist(Home(keys[p], n), p, n) ==> keys[q] != NO_ID
  }

  ghost predicate TableOk(keys: seq<nat>) {
    |keys| > 0 && Distinct(keys) && forall p: nat :: p < |keys| ==> Reachable(keys, p)
  }

  ghost function IndexOf(keys: seq<nat>, id: nat): (p: nat)
    requires id in keys
    ensures p < |keys| && keys[p] == id
  {
    var p :| 0 <= p < |keys| && keys[p] == id;
    p
  }

  /** The map the table represents. */
  ghost function Content(keys: seq<nat>, vals: seq<nat>): map<nat, nat>
    requires |keys| == |vals|
  {
    map id | id in keys && id != NO_ID :: vals[IndexOf(keys, id)]
  }

  lemma ContentAt(keys: seq<nat>, vals: seq<nat>, p: nat)
    requires |keys| == |vals| && Distinct(keys) && p < |keys| && keys[p] != NO_ID
    ensures keys[p] in Content(keys, vals) && Content(keys, vals)[keys[p]] == vals[p]
  {
    var q := IndexOf(keys, keys[p]);
    assert q == p by {
      if q < p {} else if p < q {}
    }
  }

  // ----- An empty position exists -----

  ghost function Elements(s: seq<nat>): (e: set<nat>)
    ensures forall x :: x in e <==> x in s
  {
    if s == [] then {}
    else
      assert s == s[..|s| - 1] + [s[|s| - 1]];
      Elements(s[..|s| - 1]) + {s[|s| - 1]}
  }

  lemma {:induction false} DistinctCount(keys: seq<nat>)
    requires forall p, q :: 0 <= p < q < |keys| ==> keys[p] != keys[q]
    ensures |Elements(keys)| == |keys|
  {
    if keys != [] {
      var front, last := keys[..|keys| - 1], keys[|keys| - 1];
      DistinctCount(front);
      assert last !in Elements(front);
    }
  }

  lemma EmptyExists(keys: seq<nat>, vals: seq<nat>) returns (e: nat)
    requires |keys| == |vals| && Distinct(keys) && |Content(keys, vals)| < |keys|
    ensures e < |keys| && keys[e] == NO_ID
  {
    if NO_ID !in keys {
      assert Content(keys, vals).Keys == Elements(keys);
      DistinctCount(keys);
    }
    e := IndexOf(keys, NO_ID);
  }

  // ----- Lookup -----

  /** A probe that has met neither `id` nor an empty position so far. */
  ghost predicate Missed(keys: seq<nat>, id: nat, i: nat)
    requires i < |keys|
  {
    var n := |keys|;
    forall q :: 0 <= q < n && Dist(Home(id, n), q, n) < Dist(Home(id, n), i, n) ==> keys[q] != NO_ID && keys[q] != id
  }

  lemma MissedNext(keys: seq<nat>, id: nat, i: nat, e: nat)
    requires i < |keys| && e < |keys| && keys[e] == NO_ID
    requires Missed(keys, id, i) && keys[i] != NO_ID && keys[i] != id
    ensures Missed(keys, id, Next(i, |keys|))
    ensures Dist(Home(id, |keys|), Next(i, |keys|), |keys|) == Dist(Home(id, |keys|), i, |keys|) + 1
    ensures Dist(Home(id, |keys|), i, |keys|) < Dist(Home(id, |keys|), e, |keys|)
  {}

  lemma MissedAtEmpty(keys: seq<nat>, id: nat, i: nat)
    requires TableOk(keys) && i < |keys| && keys[i] == NO_ID && id != NO_ID
    requires Missed(keys, id, i)
    ensures id !in keys
  {
    if id in keys {
      var p := IndexOf(keys, id);
      ReachedInOrder(keys, p, i);
    }
  }

  lemma ReachedInOrder(keys: seq<nat>, p: nat, i: nat)
    requires TableOk(keys) && p < |keys| && keys[p] != NO_ID && i < |keys| && keys[i] == NO_ID
    ensures Dist(Home(keys[p], |keys|), p, |keys|) < Dist(Home(keys[p], |keys|), i, |keys|)
  {
    assert Reachable(keys, p);
  }

  // ----- Backward-shift deletion -----

  /**
   Position `i` is the hole: its entry is stale, a copy of one that is gone or has
   moved. Positions after it up to and including `j` have been looked at: none is
   empty, and no probe path to one of them leads through the hole.
   */
  ghost predicate Hole(keys: seq<nat>, i: nat, j: nat) {
    var n := |keys|;
    && i < n && j < n && keys[i] != NO_ID
    && (forall p: nat :: p < n ==> Reachable(keys, p))
    && (forall p, q :: 0 <= p < q < n && p != i && q != i && keys[p] != NO_ID ==> keys[p] != keys[q])
    && (forall p :: 0 <= p < n && Dist(i, p, n) <= Dist(i, j, n) ==> keys[p] != NO_ID)
    && (forall p :: 0 <= p < n && p != i && Dist(i, p, n) <= Dist(i, j, n) ==>
          Dist(Home(keys[p], n), i, n) > Dist(Home(keys[p], n), p, n))
  }

  /** The entries other than the stale one. */
  ghost predicate SameEntries(keys: seq<nat>, vals: seq<nat>, i: nat, m: map<nat, nat>)
    requires |keys| == |vals|
  {
    && (forall p :: 0 <= p < |keys| && p != i && keys[p] != NO_ID ==> keys[p] in m && m[keys[p]] == vals[p])
    && (forall id :: id in m ==> exists p :: 0 <= p < |keys| && p != i && keys[p] == id)
    && NO_ID !in m
  }

  /** Passing over position `j`: its probe path does not lead through the hole. */
  lemma HoleSkip(keys: seq<nat>, i: nat, j: nat)
    requires Hole(keys, i, j)
    requires var n := |keys|; var k := Next(j, n);
             && k != i && keys[k] != NO_ID
             && Dist(Home(keys[k], n), k, n) < Dist(i, k, n)
    ensures Hole(keys, i, Next(j, |keys|))
  {}

  /** Moving the entry at `k` into the hole makes `k` the hole. */
  lemma HoleMove(keys: seq<nat>, i: nat, j: nat)
    requires Hole(keys, i, j)
    requires var n := |keys|; var k := Next(j, n);
             && k != i && keys[k] != NO_ID
             && Dist(Home(keys[k], n), k, n) >= Dist(i, k, n)
    ensures var k := Next(j, |keys|); Hole(keys[i := keys[k]], k, k)
  {
    var n := |keys|;
    var k := Next(j, n);
    var after := keys[i := keys[k]];
    forall p: nat | p < n
      ensures Reachable(after, p)
    {
      assert Reachable(keys, p);
      assert Reachable(keys, k);
    }
  }

  /** Clearing the hole once the next position is empty leaves every chain whole. */
  lemma HoleClose(keys: seq<nat>, i: nat, j: nat)
    requires Hole(keys, i, j)
    requires Next(j, |keys|) != i && keys[Next(j, |keys|)] == NO_ID
    ensures TableOk(keys[i := NO_ID])
  {
    hide Home, Reachable;
    var n := |keys|;
    var after := keys[i := NO_ID];
    forall p: nat | p < n
      ensures Reachable(after, p)
    {
      assert Reachable(keys, p);
      ChainWhole(keys, i, j, p);
    }
  }

  /** No chain runs through a hole that the next position cuts off from everything behind it. */
  lemma ChainWhole(keys: seq<nat>, i: nat, j: nat, p: nat)
    requires Hole(keys, i, j) && p < |keys| && Reachable(keys, p)
    requires Next(j, |keys|) != i && keys[Next(j, |keys|)] == NO_ID
    ensures Reachable(keys[i := NO_ID], p)
  {
    hide Home;
    var n := |keys|;
    var k := Next(j, n);
    if p != i && keys[p] != NO_ID {
      assert keys[p] != NO_ID ==> !(Dist(Home(keys[p], n), k, n) < Dist(Home(keys[p], n), p, n));
      assert !(Dist(Home(keys[p], n), i, n) < Dist(Home(keys[p], n), p, n));
    }
  }

  // ----- The map the arrays represent -----

  /** With no position left out, the entries determine the map. */
  lemma ContentIs(keys: seq<nat>, vals: seq<nat>, m: map<nat, nat>)
    requires |keys| == |vals| && Distinct(keys) && SameEntries(keys, vals, |keys|, m)
    ensures Content(keys, vals) == m
  {
    forall id | id in Content(keys, vals)
      ensures id in m && m[id] == Content(keys, vals)[id]
    {
      ContentAt(keys, vals, IndexOf(keys, id));
    }
  }

  lemma TableIsDistinct(keys: seq<nat>)
    requires TableOk(keys)
    ensures Distinct(keys) && keys != []
  {}

  lemma MissedNothing(keys: seq<nat>, id: nat)
    requires |keys| > 0
    ensures Missed(keys, id, Home(id, |keys|))
  {}

  lemma AbsentFromContent(keys: seq<nat>, vals: seq<nat>, id: nat)
    requires |keys| == |vals| && id !in keys
    ensures id !in Content(keys, vals)
  {}

  lemma SmallerMap(m: map<nat, nat>, id: nat)
    ensures |m - {id}| <= |m|
  {
    assert (m - {id}).Keys == m.Keys - {id};
  }

  lemma EntriesOf(keys: seq<nat>, vals: seq<nat>)
    requires |keys| == |vals| && Distinct(keys)
    ensures SameEntries(keys, vals, |keys|, Content(keys, vals))
  {
    forall p | 0 <= p < |keys| && keys[p] != NO_ID
      ensures keys[p] in Content(keys, vals) && Content(keys, vals)[keys[p]] == vals[p]
    {
      ContentAt(keys, vals, p);
    }
  }

  lemma ContentUpdated(keys: seq<nat>, vals: seq<nat>, i: nat, val: nat)
    requires |keys| == |vals| && Distinct(keys) && i < |keys| && keys[i] != NO_ID
    ensures Content(keys, vals[i := val]) == Content(keys, vals)[keys[i] := val]
  {
    EntriesOf(keys, vals);
    var m := Content(keys, vals)[keys[i] := val];
    assert SameEntries(keys, vals[i := val], |keys|, m);
    ContentIs(keys, vals[i := val], m);
  }

  lemma ContentAdded(keys: seq<nat>, vals: seq<nat>, i: nat, id: nat, val: nat)
    requires |keys| == |vals| && TableOk(keys) && i < |keys| && keys[i] == NO_ID
    requires id != NO_ID && id !in keys && Missed(keys, id, i)
    ensures TableOk(keys[i := id])
    ensures Content(keys[i := id], vals[i := val]) == Content(keys, vals)[id := val]
  {
    var after := keys[i := id];
    forall p: nat | p < |keys|
      ensures Reachable(after, p)
    {
      assert Reachable(keys, p);
    }
    AddedEntries(keys, vals, i, id, val);
    ContentIs(after, vals[i := val], Content(keys, vals)[id := val]);
  }

  lemma AddedEntries(keys: seq<nat>, vals: seq<nat>, i: nat, id: nat, val: nat)
    requires |keys| == |vals| && Distinct(keys) && i < |keys| && keys[i] == NO_ID
    requires id != NO_ID && id !in keys
    ensures Distinct(keys[i := id])
    ensures SameEntries(keys[i := id], vals[i := val], |keys|, Content(keys, vals)[id := val])
  {
    EntriesOf(keys, vals);
    var after, m := keys[i := id], Content(keys, vals)[id := val];
    forall x | x in m
      ensures exists p :: 0 <= p < |keys| && after[p] == x
    {
      if x == id {
        assert after[i] == x;
      } else {
        var p :| 0 <= p < |keys| && keys[p] == x;
        assert after[p] == x;
      }
    }
  }

  lemma HoleStart(keys: seq<nat>, vals: seq<nat>, i: nat)
    requires |keys| == |vals| && TableOk(keys) && i < |keys| && keys[i] != NO_ID
    ensures Hole(keys, i, i)
    ensures SameEntries(keys, vals, i, Content(keys, vals) - {keys[i]})
  {
    EntriesOf(keys, vals);
  }

  lemma HoleBounds(keys: seq<nat>, i: nat, j: nat)
    requires Hole(keys, i, j)
    ensures i < |keys| && j < |keys| && keys[i] != NO_ID && keys[j] != NO_ID
  {}

  /** The scan cannot come round to the hole: it meets the empty position `e` first. */
  lemma NextNotHole(keys: seq<nat>, i: nat, j: nat, e: nat)
    requires Hole(keys, i, j) && e < |keys| && keys[e] == NO_ID
    ensures Next(j, |keys|) != i && j != e
    ensures Dist(Next(j, |keys|), e, |keys|) < Dist(j, e, |keys|)
  {}

  lemma EntriesMove(keys: seq<nat>, vals: seq<nat>, i: nat, k: nat, m: map<nat, nat>)
    requires |keys| == |vals| && i < |keys| && k < |keys| && i != k && keys[k] != NO_ID
    requires SameEntries(keys, vals, i, m)
    ensures SameEntries(keys[i := keys[k]], vals[i := vals[k]], k, m)
  {
    var after := keys[i := keys[k]];
    forall x | x in m
      ensures exists p :: 0 <= p < |keys| && p != k && after[p] == x
    {
      var p :| 0 <= p < |keys| && p != i && keys[p] == x;
      if p == k {
        assert after[i] == x;
      } else {
        assert after[p] == x;
      }
    }
  }

  lemma EntriesClose(keys: seq<nat>, vals: seq<nat>, i: nat, m: map<nat, nat>)
    requires |keys| == |vals| && i < |keys| && Distinct(keys[i := NO_ID])
    requires SameEntries(keys, vals, i, m)
    ensures Content(keys[i := NO_ID], vals) == m
  {
    var after := keys[i := NO_ID];
    forall x | x in m
      ensures exists p :: 0 <= p < |keys| && after[p] == x
    {
      var p :| 0 <= p < |keys| && p != i && keys[p] == x;
      assert after[p] == x;
    }
    ContentIs(after, vals, m);
  }

  predicate IsPowerOfTwo(n: nat) {
    n == 1 || (n > 0 && n % 2 == 0 && IsPowerOfTwo(n / 2))
  }

  class Table {
    const keys: array<nat>
    const vals: array<nat>

    ghost predicate Valid()
      reads this, keys, vals
    {
      && keys != vals && keys.Length == vals.Length
      && TableOk(keys[..]) && 2 * |Map()| <= keys.Length
    }

    ghost function Map(): map<nat, nat>
      requires keys.Length == vals.Length
      reads this, keys, vals
    {
      Content(keys[..], vals[..])
    }

    /** Sizes the table to a power of two, at least 16 and at least twice the capacity. */
    constructor (capacity: nat)
      ensures Valid() && fresh(keys) && fresh(vals)
      ensures Map() == map[]
      ensures keys.Length >= 16 && keys.Length >= 2 * capacity && IsPowerOfTwo(keys.Length)
      ensures keys.Length < if capacity < 8 then 32 else 4 * capacity
    {
      var want := if capacity < 8 then 16 else capacity * 2;
      var hcap := 1;
      while hcap < want
        invariant 1 <= hcap < 2 * want && IsPowerOfTwo(hcap)
        decreases want - hcap
      {
        hcap := 2 * hcap;
      }
      keys := new nat[hcap](_ => NO_ID);
      vals := new nat[hcap](_ => 0);
      new;
      assert forall k :: k in keys[..] ==> k == NO_ID;
      assert Content(keys[..], vals[..]) == map[];
      assert forall p: nat :: p < hcap ==> Reachable(keys[..], p);
    }

    /** The probe loop every operation starts with: stops at `id` or at an empty position. */
    method Probe(id: nat) returns (i: nat)
      requires Valid() && id != NO_ID
      ensures i < keys.Length && (keys[i] == id || (keys[i] == NO_ID && Missed(keys[..], id, i)))
    {
      hide Home, TableOk, Content, Missed;
      var n := keys.Length;
      TableIsDistinct(keys[..]);
      ghost var e := EmptyExists(keys[..], vals[..]);
      i := Home(id, n);
      MissedNothing(keys[..], id);
      while keys[i] != NO_ID && keys[i] != id
        invariant i < n && Missed(keys[..], id, i)
        decreases Dist(Home(id, n), e, n) - Dist(Home(id, n), i, n)
      {
        MissedNext(keys[..], id, i, e);
        NextIsMod(i, n);
        i := (i + 1) % n;
      }
    }

    method Find(id: nat) returns (r: nat)
      requires Valid() && id != NO_ID
      ensures r == if id in Map() then Map()[id] else NO_SLOT
    {
      hide TableOk, Content, Missed;
      TableIsDistinct(keys[..]);
      var i := Probe(id);
      if keys[i] == id {
        ContentAt(keys[..], vals[..], i);
        return vals[i];
      }
      MissedAtEmpty(keys[..], id, i);
      AbsentFromContent(keys[..], vals[..], id);
      r := NO_SLOT;
    }

    method Insert(id: nat, val: nat)
      requires Valid() && id != NO_ID
      requires id !in Map() ==> 2 * (|Map()| + 1) <= keys.Length
      modifies keys, vals
      ensures Valid() && Map() == old(Map())[id := val]
    {
      hide TableOk, Content, Missed;
      ghost var ks, vs := keys[..], vals[..];
      TableIsDistinct(ks);
      var i := Probe(id);
      if keys[i] == id {
        ContentAt(ks, vs, i);
        ContentUpdated(ks, vs, i, val);
        vals[i] := val;
        assert vals[..] == vs[i := val];
        return;
      }
      MissedAtEmpty(ks, id, i);
      AbsentFromContent(ks, vs, id);
      ContentAdded(ks, vs, i, id, val);
      keys[i] := id;
      vals[i] := val;
      assert keys[..] == ks[i := id] && vals[..] == vs[i := val];
    }

    /** Backward-shift deletion: later entries of the chain move up into the hole. */
    method Erase(id: nat)
      requires Valid() && id != NO_ID
      modifies keys, vals
      ensures Valid() && Map() == old(Map()) - {id}
    {
      hide TableOk, Content, Missed, Hole, SameEntries;
      TableIsDistinct(keys[..]);
      var i := Probe(id);
      if keys[i] == NO_ID {
        MissedAtEmpty(keys[..], id, i);
        AbsentFromContent(keys[..], vals[..], id);
        assert Map() - {id} == Map();
        return;
      }
      ghost var e := EmptyExists(keys[..], vals[..]);
      HoleStart(keys[..], vals[..], i);
      ghost var m := Map();
      SmallerMap(m, id);
      CloseChain(i, e, m - {id});
    }

    method CloseChain(start: nat, ghost e: nat, ghost m: map<nat, nat>)
      requires keys != vals && keys.Length == vals.Length
      requires Hole(keys[..], start, start) && SameEntries(keys[..], vals[..], start, m)
      requires e < keys.Length && keys[e] == NO_ID
      modifies keys, vals
      ensures TableOk(keys[..]) && Map() == m
    {
      hide Hole, SameEntries, Home, TableOk, Content;
      var n := keys.Length;
      var i: nat, j: nat := start, start;
      HoleBounds(keys[..], i, j);
      while true
        invariant i < n && j < n && Hole(keys[..], i, j) && SameEntries(keys[..], vals[..], i, m)
        invariant keys[e] == NO_ID
        decreases Dist(j, e, n)
      {
        ghost var ks, vs, at := keys[..], vals[..], j;
        HoleBounds(ks, i, j);
        NextIsMod(j, n);
        NextNotHole(ks, i, j, e);
        j := (j + 1) % n;
        if keys[j] == NO_ID {
          HoleClose(ks, i, at);
          TableIsDistinct(ks[i := NO_ID]);
          EntriesClose(ks, vs, i, m);
          break;
        }
        var home := Home(keys[j], n);
        DistIsMod(home, j, n);
        DistIsMod(i, j, n);
        if (j - home) % n >= (j - i) % n {
          HoleMove(ks, i, at);
          EntriesMove(ks, vs, i, j, m);
          keys[i] := keys[j];
          vals[i] := vals[j];
          assert keys[..] == ks[i := ks[j]] && vals[..] == vs[i := vs[j]];
          i := j;
        } else {
          HoleSkip(ks, i, at);
        }
      }
      ghost var before := keys[..];
      keys[i] := NO_ID;
      assert keys[..] == before[i := NO_ID];
    }
  }
}
