/**
 Layer-0 adjacency of a bulk build (src/astervec_bulk_build.cc, steps 3a to 3d):
 lists taken from a neighbour graph are made symmetric in place, cut to the
 degree limit, and emitted as edges. Cutting may undo the symmetry: exactly when
 it does is said in terms of the lists before the cut.
 */
module BulkAdjacency {
  import opened Basics
  import B = BestFirst

  // ----- Step 3a -----

  function Kept(row: seq<int>, u: nat, n: nat): (a: seq<nat>)
    requires forall i :: 0 <= i < |row| ==> row[i] < n
  {
    if row == [] then []
    else if row[|row| - 1] >= 0 && row[|row| - 1] != u then Kept(row[..|row| - 1], u, n) + [row[|row| - 1]]
    else Kept(row[..|row| - 1], u, n)
  }

  lemma {:induction false} KeptHas(row: seq<int>, u: nat, n: nat)
    requires forall i :: 0 <= i < |row| ==> row[i] < n
    ensures forall v: nat :: v in Kept(row, u, n) <==> (v as int) in row && v != u
    ensures forall v :: v in Kept(row, u, n) ==> v < n
  {
    if row != [] {
      KeptHas(row[..|row| - 1], u, n);
      assert row == row[..|row| - 1] + [row[|row| - 1]];
    }
  }

  function Start(row: seq<int>, mMax: nat): seq<int> {
    if |row| > mMax then row[..mMax] else row
  }

  /** Among the first `mMax` entries of the row. */
  predicate Known(row: seq<int>, mMax: nat, v: int) {
    exists i: nat :: i < mMax && i < |row| && row[i] == v
  }

  lemma StartHas(row: seq<int>, mMax: nat, v: int)
    ensures v in Start(row, mMax) <==> Known(row, mMax, v)
  {
    if v in Start(row, mMax) {
      var i: nat :| i < |Start(row, mMax)| && Start(row, mMax)[i] == v;
      assert row[i] == v;
    }
    if i: nat :| i < mMax && i < |row| && row[i] == v {
      assert Start(row, mMax)[i] == v;
    }
  }

  /** A neighbour is taken as often as it stands in the row, and the others not at all. */
  lemma {:induction false} KeptCounts(row: seq<int>, u: nat, n: nat, v: nat)
    requires forall i :: 0 <= i < |row| ==> row[i] < n
    ensures multiset(Kept(row, u, n))[v] == if v == u then 0 else multiset(row)[v as int]
  {
    if row != [] {
      KeptCounts(row[..|row| - 1], u, n, v);
      assert row == row[..|row| - 1] + [row[|row| - 1]];
    }
  }

  lemma ListHas(row: seq<int>, u: nat, n: nat, mMax: nat)
    requires forall i :: 0 <= i < |row| ==> row[i] < n
    ensures forall v: nat :: v in Kept(Start(row, mMax), u, n) <==> v != u && Known(row, mMax, v)
    ensures forall v :: v in Kept(Start(row, mMax), u, n) ==> v < n
  {
    hide Known, Start;
    StartBelow(row, n, mMax);
    KeptHas(Start(row, mMax), u, n);
    forall v: nat
      ensures v in Kept(Start(row, mMax), u, n) <==> v != u && Known(row, mMax, v)
    {
      StartHas(row, mMax, v);
    }
  }

  lemma StartBelow(row: seq<int>, n: nat, mMax: nat)
    requires forall i :: 0 <= i < |row| ==> row[i] < n
    ensures forall i :: 0 <= i < |Start(row, mMax)| ==> Start(row, mMax)[i] < n
  {}

  method BuildList(row: seq<int>, u: nat, n: nat) returns (a: seq<nat>)
    requires forall i :: 0 <= i < |row| ==> row[i] < n
    ensures a == Kept(row, u, n)
  {
    a := [];
    for i := 0 to |row|
      invariant a == Kept(row[..i], u, n)
    {
      assert row[..i + 1][..i] == row[..i];
      if row[i] >= 0 && row[i] != u {
        a := a + [row[i]];
      }
    }
    assert row[..|row|] == row;
  }

  /** The nearest known neighbours of each vertex, but for itself and missing ones. */
  method BuildLists(rows: seq<seq<int>>, mMax: nat) returns (adj: array<seq<nat>>)
    requires forall u, i :: 0 <= u < |rows| && 0 <= i < |rows[u]| ==> rows[u][i] < |rows|
    ensures fresh(adj) && adj.Length == |rows| && Proper(adj[..])
    ensures forall u :: 0 <= u < |rows| ==> adj[u] == Kept(Start(rows[u], mMax), u, |rows|)
    ensures forall u, v: nat :: 0 <= u < |rows| ==> (v in adj[u] <==> v != u && Known(rows[u], mMax, v))
  {
    var n := |rows|;
    adj := new seq<nat>[n](_ => []);
    for u := 0 to n
      invariant forall w :: 0 <= w < u ==> adj[w] == Kept(Start(rows[w], mMax), w, n)
    {
      adj[u] := BuildList(Start(rows[u], mMax), u, n);
    }
    forall u | 0 <= u < n
      ensures forall v: nat :: v in adj[u] <==> v != u && Known(rows[u], mMax, v)
      ensures forall v :: v in adj[u] ==> v < n
    {
      ListHas(rows[u], u, n, mMax);
    }
  }

  // ----- Step 3b -----

  /** Neighbours are vertices, and no vertex is its own. */
  ghost predicate Proper(s: seq<seq<nat>>) {
    forall u: nat, v: nat :: u < |s| && v in s[u] ==> v < |s| && v != u
  }

  ghost predicate Symmetric(s: seq<seq<nat>>)
    requires Proper(s)
  {
    forall u, v :: 0 <= u < |s| && 0 <= v < |s| ==> (v in s[u] <==> u in s[v])
  }

  /** The vertices below `end` that have `v` in their list without being in the list of `v`, in ascending order. */
  function Reverses(s: seq<seq<nat>>, v: nat, end: nat): (r: seq<nat>)
    requires v < |s| && end <= |s|
  {
    if end == 0 then []
    else if v in s[end - 1] && end - 1 !in s[v] then Reverses(s, v, end - 1) + [end - 1]
    else Reverses(s, v, end - 1)
  }

  lemma {:induction false} ReversesHas(s: seq<seq<nat>>, v: nat, end: nat)
    requires v < |s| && end <= |s|
    ensures forall u: nat :: u in Reverses(s, v, end) <==> u < end && v in s[u] && u !in s[v]
  {
    if end > 0 {
      ReversesHas(s, v, end - 1);
    }
  }

  /** Every list with the missing reverses of edges behind it. */
  function BothWays(s: seq<seq<nat>>): (full: seq<seq<nat>>)
    ensures |full| == |s| && forall v :: 0 <= v < |s| ==> full[v] == s[v] + Reverses(s, v, |s|)
  {
    seq(|s|, v requires 0 <= v < |s| => s[v] + Reverses(s, v, |s|))
  }

  /** Afterwards an edge is there iff it or its reverse was. */
  lemma BothWaysHas(s: seq<seq<nat>>)
    requires Proper(s)
    ensures Proper(BothWays(s)) && Symmetric(BothWays(s))
    ensures forall u, v :: 0 <= u < |s| && 0 <= v < |s| ==> (v in BothWays(s)[u] <==> v in s[u] || u in s[v])
  {
    var full := BothWays(s);
    forall u: nat, v: nat | u < |s|
      ensures v in full[u] <==> v in s[u] || (v < |s| && u in s[v])
    {
      ReversesHas(s, u, |s|);
    }
    forall u: nat, v: nat | u < |full| && v in full[u]
      ensures v < |full| && v != u
    {
      assert v in s[u] || u in s[v];
    }
  }

  /** While the edges of `u` are being reversed: what has been appended to the list of `v` for the first `i` of them. */
  function SoFar(s: seq<seq<nat>>, base: seq<nat>, u: nat, i: nat, v: nat): (a: seq<nat>)
    requires u < |s| && v < |s| && i <= |base|
  {
    s[v] + Reverses(s, v, u) + (if v in base[..i] && u !in s[v] then [u] else [])
  }

  /** The reverse of the next edge is missing iff neither the list nor an earlier equal entry has brought it. */
  lemma NextReverse(s: seq<seq<nat>>, base: seq<nat>, u: nat, i: nat)
    requires u < |s| && i < |base| && base[i] < |s|
    ensures var v := base[i];
            SoFar(s, base, u, i + 1, v) == SoFar(s, base, u, i, v) + (if u in SoFar(s, base, u, i, v) then [] else [u])
    ensures forall w :: 0 <= w < |s| && w != base[i] ==> SoFar(s, base, u, i + 1, w) == SoFar(s, base, u, i, w)
  {
    ReversesHas(s, base[i], u);
    assert base[..i + 1] == base[..i] + [base[i]];
  }

  /** The edges of `u` done, the lists are right for one vertex more. */
  lemma ReversesDone(s: seq<seq<nat>>, u: nat, v: nat)
    requires Proper(s) && u < |s| && v < |s|
    ensures var base := s[u] + Reverses(s, u, u); SoFar(s, base, u, |base|, v) == s[v] + Reverses(s, v, u + 1)
  {
    var base := s[u] + Reverses(s, u, u);
    ReversesHas(s, u, u);
    assert base[..|base|] == base;
  }

  lemma NothingReversed(s: seq<seq<nat>>, base: seq<nat>, u: nat)
    requires u < |s|
    ensures forall v :: 0 <= v < |s| ==> SoFar(s, base, u, 0, v) == s[v] + Reverses(s, v, u)
  {
    hide Reverses;
  }

  lemma NeighboursOf(s: seq<seq<nat>>, u: nat)
    requires Proper(s) && u < |s|
    ensures forall v :: v in s[u] + Reverses(s, u, u) ==> v < |s| && v != u
  {
    ReversesHas(s, u, u);
  }

  /** For every edge its reverse is added behind the list it is missing from. */
  method Symmetrize(adj: array<seq<nat>>)
    requires Proper(adj[..])
    modifies adj
    ensures adj[..] == BothWays(old(adj[..]))
  {
    hide Proper, Reverses, SoFar, BothWays;
    ghost var was := adj[..];
    NoReverses(was);
    for u := 0 to adj.Length
      invariant forall v :: 0 <= v < |was| ==> adj[v] == was[v] + Reverses(was, v, u)
    {
      var base := adj[u];
      NothingReversed(was, base, u);
      NeighboursOf(was, u);
      for i := 0 to |base|
        invariant forall v :: 0 <= v < |was| ==> adj[v] == SoFar(was, base, u, i, v)
      {
        var v := base[i];
        assert v in base;
        var found := false;
        for k := 0 to |adj[v]|
          invariant found == (u in adj[v][..k])
        {
          assert adj[v][..k + 1] == adj[v][..k] + [adj[v][k]];
          if adj[v][k] == u {
            found := true;
          }
        }
        assert adj[v][..|adj[v]|] == adj[v];
        NextReverse(was, base, u, i);
        if !found {
          adj[v] := adj[v] + [u];
        }
      }
      forall v | 0 <= v < |was|
        ensures adj[v] == was[v] + Reverses(was, v, u + 1)
      {
        ReversesDone(was, u, v);
      }
    }
  }

  lemma NoReverses(s: seq<seq<nat>>)
    ensures forall v :: 0 <= v < |s| ==> s[v] + Reverses(s, v, 0) == s[v]
  {}

  // ----- Step 3c -----

  /** Nothing left out is closer than anything kept. */
  ghost predicate NearestOf(d: nat -> real, kept: seq<nat>, rest: seq<nat>) {
    forall x, y :: x in kept && y in rest ==> !B.Closer(d, y, x)
  }

  /** A list within the limit stays, a longer one is cut to its nearest entries. */
  ghost predicate Capped(d: nat -> real, was: seq<nat>, now: seq<nat>, mMax: nat) {
    if |was| <= mMax then now == was
    else |now| == mMax && exists rest :: multiset(now) + multiset(rest) == multiset(was) && NearestOf(d, now, rest)
  }

  method ClosestAt(d: nat -> real, s: seq<nat>) returns (i: nat)
    requires s != []
    ensures i < |s| && forall j :: 0 <= j < |s| ==> !B.Closer(d, s[j], s[i])
  {
    i := 0;
    for k := 1 to |s|
      invariant i < |s| && forall j :: 0 <= j < k ==> !B.Closer(d, s[j], s[i])
    {
      if B.Closer(d, s[k], s[i]) {
        i := k;
      }
    }
  }

  lemma TakeOne(d: nat -> real, kept: seq<nat>, rest: seq<nat>, i: nat)
    requires i < |rest| && NearestOf(d, kept, rest) && forall j :: 0 <= j < |rest| ==> !B.Closer(d, rest[j], rest[i])
    ensures var left := rest[..i] + rest[i + 1..];
            NearestOf(d, kept + [rest[i]], left) && multiset(kept + [rest[i]]) + multiset(left) == multiset(kept) + multiset(rest)
  {
    var left := rest[..i] + rest[i + 1..];
    assert rest == rest[..i] + [rest[i]] + rest[i + 1..];
    forall x, y | x in kept + [rest[i]] && y in left
      ensures !B.Closer(d, y, x)
    {
      assert y in rest;
    }
  }

  method CapList(d: nat -> real, a: seq<nat>, mMax: nat) returns (kept: seq<nat>)
    ensures Capped(d, a, kept, mMax)
  {
    hide NearestOf;
    if |a| <= mMax {
      return a;
    }
    kept := [];
    var rest := a;
    assert NearestOf(d, kept, rest) by {
      NothingKept(d, rest);
    }
    for i := 0 to mMax
      invariant |kept| == i && |rest| == |a| - i
      invariant multiset(kept) + multiset(rest) == multiset(a) && NearestOf(d, kept, rest)
    {
      var k := ClosestAt(d, rest);
      TakeOne(d, kept, rest, k);
      kept := kept + [rest[k]];
      rest := rest[..k] + rest[k + 1..];
    }
  }

  lemma NothingKept(d: nat -> real, rest: seq<nat>)
    ensures NearestOf(d, [], rest)
  {}

  /** Caps every vertex's list by the distances from that vertex. */
  method CapDegrees(adj: array<seq<nat>>, dist: nat -> nat -> real, mMax: nat)
    modifies adj
    ensures forall v :: 0 <= v < adj.Length ==> Capped(dist(v), old(adj[v]), adj[v], mMax)
  {
    hide Capped;
    for v := 0 to adj.Length
      invariant forall w :: 0 <= w < v ==> Capped(dist(w), old(adj[w]), adj[w], mMax)
      invariant forall w :: v <= w < adj.Length ==> adj[w] == old(adj[w])
    {
      adj[v] := CapList(dist(v), adj[v], mMax);
    }
  }

  lemma CappedBound(d: nat -> real, was: seq<nat>, now: seq<nat>, mMax: nat)
    requires Capped(d, was, now, mMax)
    ensures |now| <= mMax && forall x :: x in now ==> x in was
  {
    forall x | x in now
      ensures x in was
    {
      if |was| > mMax {
        var rest :| multiset(now) + multiset(rest) == multiset(was) && NearestOf(d, now, rest);
        assert x in multiset(now);
        assert x in multiset(was);
      }
    }
  }

  lemma NeighboursBelow(s: seq<seq<nat>>, u: nat, v: nat)
    requires Proper(s) && u < |s|
    ensures v in s[u] ==> v < |s|
  {}

  /** How many entries of a list are closer than `x`. */
  function CloserCount(d: nat -> real, s: seq<nat>, x: nat): (c: nat) {
    if s == [] then 0
    else CloserCount(d, s[..|s| - 1], x) + (if B.Closer(d, s[|s| - 1], x) then 1 else 0)
  }

  lemma {:induction false} CountConcat(d: nat -> real, a: seq<nat>, b: seq<nat>, x: nat)
    ensures CloserCount(d, a + b, x) == CloserCount(d, a, x) + CloserCount(d, b, x)
  {
    if b == [] {
      assert a + b == a;
    } else {
      CountConcat(d, a, b[..|b| - 1], x);
      assert (a + b)[..|a + b| - 1] == a + b[..|b| - 1];
    }
  }

  lemma CountRemoved(d: nat -> real, s: seq<nat>, k: nat, x: nat)
    requires k < |s|
    ensures CloserCount(d, s, x) == CloserCount(d, s[..k] + s[k + 1..], x) + (if B.Closer(d, s[k], x) then 1 else 0)
    ensures multiset(s[..k] + s[k + 1..]) == multiset(s) - multiset{s[k]}
  {
    assert s == s[..k] + [s[k]] + s[k + 1..];
    CountConcat(d, s[..k] + [s[k]], s[k + 1..], x);
    CountConcat(d, s[..k], [s[k]], x);
    CountConcat(d, s[..k], s[k + 1..], x);
  }

  /** The count depends on the entries alone, not on their order. */
  lemma {:induction false} CountPermuted(d: nat -> real, a: seq<nat>, b: seq<nat>, x: nat)
    requires multiset(a) == multiset(b)
    ensures CloserCount(d, a, x) == CloserCount(d, b, x)
  {
    if a == [] {
      assert |multiset(b)| == 0;
    } else {
      assert a[0] in multiset(b);
      var k: nat :| k < |b| && b[k] == a[0];
      CountRemoved(d, a, 0, x);
      CountRemoved(d, b, k, x);
      CountPermuted(d, a[..0] + a[1..], b[..k] + b[k + 1..], x);
    }
  }

  lemma {:induction false} CountNone(d: nat -> real, s: seq<nat>, x: nat)
    requires forall y :: y in s ==> !B.Closer(d, y, x)
    ensures CloserCount(d, s, x) == 0
  {
    if s != [] {
      CountNone(d, s[..|s| - 1], x);
    }
  }

  lemma {:induction false} CountAll(d: nat -> real, s: seq<nat>, x: nat)
    requires forall y :: y in s ==> B.Closer(d, y, x)
    ensures CloserCount(d, s, x) == |s|
  {
    if s != [] {
      CountAll(d, s[..|s| - 1], x);
    }
  }

  /** An entry of the list is not closer than itself. */
  lemma {:induction false} CountBelow(d: nat -> real, s: seq<nat>, x: nat)
    ensures CloserCount(d, s, x) <= |s| && (x in s ==> CloserCount(d, s, x) < |s|)
  {
    if s != [] {
      CountBelow(d, s[..|s| - 1], x);
      assert s == s[..|s| - 1] + [s[|s| - 1]];
    }
  }

  /** One of the list with fewer than `mMax` entries closer. */
  predicate Keeps(d: nat -> real, was: seq<nat>, x: nat, mMax: nat) {
    x in was && CloserCount(d, was, x) < mMax
  }

  /** Exactly those survive the cap, whatever the order and however often an entry occurs. */
  lemma KeptIffRank(d: nat -> real, was: seq<nat>, now: seq<nat>, mMax: nat, x: nat)
    requires Capped(d, was, now, mMax)
    ensures x in now <==> Keeps(d, was, x, mMax)
  {
    CountBelow(d, was, x);
    if |was| > mMax {
      var rest: seq<nat> :| multiset(now) + multiset(rest) == multiset(was) && NearestOf(d, now, rest);
      assert multiset(now + rest) == multiset(was);
      CountPermuted(d, now + rest, was, x);
      CountConcat(d, now, rest, x);
      assert x in was <==> x in multiset(was);
      assert x in multiset(was) <==> x in multiset(now) || x in multiset(rest);
      if x in now {
        CountNone(d, rest, x);
        CountBelow(d, now, x);
      } else if x in rest {
        CountAll(d, now, x);
      }
    }
  }

  // ----- Step 3d -----

  method EmitEdges(adj: array<seq<nat>>) returns (edges: seq<(nat, nat)>)
    ensures forall u: nat, v: nat :: (u, v) in edges <==> u < adj.Length && v in adj[u]
  {
    edges := [];
    for u := 0 to adj.Length
      invariant forall a: nat, b: nat :: (a, b) in edges <==> a < u && b in adj[a]
    {
      for i := 0 to |adj[u]|
        invariant forall a: nat, b: nat :: (a, b) in edges <==> (a < u && b in adj[a]) || (a == u && b in adj[u][..i])
      {
        assert adj[u][..i + 1] == adj[u][..i] + [adj[u][i]];
        edges := edges + [(u, adj[u][i])];
      }
      assert adj[u][..|adj[u]|] == adj[u];
    }
  }

  /** One of the two has the other among its nearest known neighbours. */
  predicate Linked(rows: seq<seq<int>>, mMax: nat, u: nat, v: nat)
    requires u < |rows| && v < |rows|
  {
    u != v && (Known(rows[u], mMax, v) || Known(rows[v], mMax, u))
  }

  /** The lists of steps 3a and 3b. */
  function Lists(rows: seq<seq<int>>, mMax: nat): (full: seq<seq<nat>>)
    requires forall u, i :: 0 <= u < |rows| && 0 <= i < |rows[u]| ==> rows[u][i] < |rows|
    ensures |full| == |rows|
  {
    BothWays(seq(|rows|, u requires 0 <= u < |rows| => Kept(Start(rows[u], mMax), u, |rows|)))
  }

  lemma ListsFrom(rows: seq<seq<int>>, mMax: nat, start: seq<seq<nat>>)
    requires forall u, i :: 0 <= u < |rows| && 0 <= i < |rows[u]| ==> rows[u][i] < |rows|
    requires |start| == |rows| && forall u :: 0 <= u < |rows| ==> start[u] == Kept(Start(rows[u], mMax), u, |rows|)
    ensures BothWays(start) == Lists(rows, mMax)
  {
    assert start == seq(|rows|, u requires 0 <= u < |rows| => Kept(Start(rows[u], mMax), u, |rows|));
  }

  lemma ListsAre(rows: seq<seq<int>>, mMax: nat, start: seq<seq<nat>>)
    requires forall u, i :: 0 <= u < |rows| && 0 <= i < |rows[u]| ==> rows[u][i] < |rows|
    requires |start| == |rows| && forall u :: 0 <= u < |rows| ==> start[u] == Kept(Start(rows[u], mMax), u, |rows|)
    ensures Proper(BothWays(start)) && Symmetric(BothWays(start))
    ensures forall u: nat, v: nat :: u < |rows| && v < |rows| ==> (v in BothWays(start)[u] <==> Linked(rows, mMax, u, v))
  {
    forall u: nat | u < |rows|
      ensures forall v: nat :: v in start[u] <==> v != u && Known(rows[u], mMax, v)
      ensures forall v: nat :: v in start[u] ==> v < |rows|
    {
      ListHas(rows[u], u, |rows|, mMax);
    }
    assert Proper(start);
    BothWaysHas(start);
    forall u: nat, v: nat | u < |rows| && v < |rows|
      ensures v in BothWays(start)[u] <==> Linked(rows, mMax, u, v)
    {
      assert v in BothWays(start)[u] <==> v in start[u] || u in start[v];
    }
  }

  /** Linked, and among the `mMax` nearest of all that are linked to `u`. */
  predicate Emitted(rows: seq<seq<int>>, dist: nat -> nat -> real, mMax: nat, u: nat, v: nat)
    requires forall u, i :: 0 <= u < |rows| && 0 <= i < |rows[u]| ==> rows[u][i] < |rows|
  {
    u < |rows| && v < |rows| && Linked(rows, mMax, u, v) && CloserCount(dist(u), Lists(rows, mMax)[u], v) < mMax
  }

  lemma EmittedAre(rows: seq<seq<int>>, dist: nat -> nat -> real, mMax: nat, u: nat, v: nat, now: seq<nat>)
    requires forall u, i :: 0 <= u < |rows| && 0 <= i < |rows[u]| ==> rows[u][i] < |rows|
    requires Proper(Lists(rows, mMax)) && u < |rows|
    requires v < |rows| ==> (v in Lists(rows, mMax)[u] <==> Linked(rows, mMax, u, v))
    requires Capped(dist(u), Lists(rows, mMax)[u], now, mMax)
    ensures v in now <==> Emitted(rows, dist, mMax, u, v)
    ensures |Lists(rows, mMax)[u]| <= mMax && v < |rows| ==> (Emitted(rows, dist, mMax, u, v) <==> Linked(rows, mMax, u, v))
  {
    hide Capped, Lists, Linked, Proper;
    var full := Lists(rows, mMax);
    NeighboursBelow(full, u, v);
    KeptIffRank(dist(u), full[u], now, mMax, v);
    CountBelow(dist(u), full[u], v);
  }

  /** The graph has every edge both ways iff no two linked vertices have it from one end alone. */
  lemma EmittedBothWays(rows: seq<seq<int>>, dist: nat -> nat -> real, mMax: nat, edges: seq<(nat, nat)>)
    requires forall u, i :: 0 <= u < |rows| && 0 <= i < |rows[u]| ==> rows[u][i] < |rows|
    requires forall u: nat, v: nat :: (u, v) in edges <==> Emitted(rows, dist, mMax, u, v)
    ensures (forall u: nat, v: nat :: (u, v) in edges <==> (v, u) in edges) <==>
            (forall u: nat, v: nat :: u < |rows| && v < |rows| && Linked(rows, mMax, u, v) ==>
               (CloserCount(dist(u), Lists(rows, mMax)[u], v) < mMax <==> CloserCount(dist(v), Lists(rows, mMax)[v], u) < mMax))
  {
    hide Lists, CloserCount;
    if forall u: nat, v: nat :: (u, v) in edges <==> (v, u) in edges {
      forall u: nat, v: nat | u < |rows| && v < |rows| && Linked(rows, mMax, u, v)
        ensures CloserCount(dist(u), Lists(rows, mMax)[u], v) < mMax <==> CloserCount(dist(v), Lists(rows, mMax)[v], u) < mMax
      {
        assert (u, v) in edges <==> (v, u) in edges;
        assert Emitted(rows, dist, mMax, u, v) <==> Emitted(rows, dist, mMax, v, u);
      }
    }
  }

  /**
     Steps 3a to 3d: two linked vertices have the edge from one to the other iff fewer
     than `mMax` neighbours of the one are closer to it. So the graph has every edge both
     ways iff that holds from both ends or from neither, for all linked vertices; and it
     has all of them if no list is over the limit.
   */
  method LoadLayer0(rows: seq<seq<int>>, dist: nat -> nat -> real, mMax: nat)
    returns (edges: seq<(nat, nat)>)
    requires forall u, i :: 0 <= u < |rows| && 0 <= i < |rows[u]| ==> rows[u][i] < |rows|
    ensures forall u: nat, v: nat :: (u, v) in edges <==> Emitted(rows, dist, mMax, u, v)
    ensures (forall u: nat, v: nat :: (u, v) in edges <==> (v, u) in edges) <==>
            (forall u: nat, v: nat :: u < |rows| && v < |rows| && Linked(rows, mMax, u, v) ==>
               (CloserCount(dist(u), Lists(rows, mMax)[u], v) < mMax <==> CloserCount(dist(v), Lists(rows, mMax)[v], u) < mMax))
    ensures (forall u :: 0 <= u < |rows| ==> |Lists(rows, mMax)[u]| <= mMax) ==>
              forall u: nat, v: nat :: u < |rows| && v < |rows| ==> ((u, v) in edges <==> Linked(rows, mMax, u, v))
  {
    hide Lists, Capped, BothWays, Proper, Symmetric, Emitted, Linked, CloserCount;
    ghost var full := Lists(rows, mMax);
    var adj := BuildLists(rows, mMax);
    ListsFrom(rows, mMax, adj[..]);
    ListsAre(rows, mMax, adj[..]);
    Symmetrize(adj);
    assert adj[..] == full;
    CapDegrees(adj, dist, mMax);
    forall u: nat, v: nat | u < |rows|
      ensures v in adj[u] <==> Emitted(rows, dist, mMax, u, v)
      ensures |full[u]| <= mMax && v < |rows| ==> (Emitted(rows, dist, mMax, u, v) <==> Linked(rows, mMax, u, v))
    {
      EmittedAre(rows, dist, mMax, u, v, adj[u]);
    }
    edges := EmitEdges(adj);
    forall u: nat, v: nat
      ensures (u, v) in edges <==> Emitted(rows, dist, mMax, u, v)
    {
      EmittedBelow(rows, dist, mMax, u, v);
    }
    EmittedBothWays(rows, dist, mMax, edges);
  }

  lemma EmittedBelow(rows: seq<seq<int>>, dist: nat -> nat -> real, mMax: nat, u: nat, v: nat)
    requires forall u, i :: 0 <= u < |rows| && 0 <= i < |rows[u]| ==> rows[u][i] < |rows|
    ensures Emitted(rows, dist, mMax, u, v) ==> u < |rows|
  {}

  // ----- Rows without repetitions -----

  lemma {:induction false} KeptOnce(row: seq<int>, u: nat, n: nat)
    requires (forall i :: 0 <= i < |row| ==> row[i] < n) && NoDup(row)
    ensures NoDup(Kept(row, u, n))
  {
    if row != [] {
      var front, last := row[..|row| - 1], row[|row| - 1];
      KeptOnce(front, u, n);
      KeptHas(front, u, n);
      assert last !in front;
      var kept := Kept(front, u, n);
      forall i, j | 0 <= i < j < |Kept(row, u, n)|
        ensures Kept(row, u, n)[i] != Kept(row, u, n)[j]
      {
        if j == |kept| {
          assert kept[i] in kept;
        }
      }
    }
  }

  lemma {:induction false} ReversesOnce(s: seq<seq<nat>>, v: nat, end: nat)
    requires v < |s| && end <= |s|
    ensures NoDup(Reverses(s, v, end))
  {
    if end > 0 {
      ReversesOnce(s, v, end - 1);
      ReversesHas(s, v, end - 1);
    }
  }

  lemma ListOnce(s: seq<seq<nat>>, v: nat)
    requires v < |s| && NoDup(s[v])
    ensures NoDup(BothWays(s)[v])
  {
    var a, b := s[v], Reverses(s, v, |s|);
    ReversesOnce(s, v, |s|);
    ReversesHas(s, v, |s|);
    forall i, j | 0 <= i < j < |a + b|
      ensures (a + b)[i] != (a + b)[j]
    {
      if i < |a| <= j {
        assert a[i] in a && b[j - |a|] in b;
      }
    }
  }

  ghost function ClosersIn(d: nat -> real, s: seq<nat>, x: nat): set<nat> {
    set w | w in s && B.Closer(d, w, x)
  }

  lemma OneMoreCloser(d: nat -> real, s: seq<nat>, last: nat, x: nat)
    requires last !in s
    ensures ClosersIn(d, s + [last], x) == if B.Closer(d, last, x) then ClosersIn(d, s, x) + {last} else ClosersIn(d, s, x)
    ensures last !in ClosersIn(d, s, x)
  {
    hide B.Closer;
  }

  /** Without repetitions the count is the number of closer vertices. */
  lemma {:induction false} CountOfOnce(d: nat -> real, s: seq<nat>, x: nat)
    requires NoDup(s)
    ensures CloserCount(d, s, x) == |ClosersIn(d, s, x)|
  {
    hide B.Closer;
    if s != [] {
      hide ClosersIn;
      var front, last := s[..|s| - 1], s[|s| - 1];
      CountOfOnce(d, front, x);
      assert s == front + [last];
      OneMoreCloser(d, front, last, x);
    }
  }

  ghost function CloserLinked(rows: seq<seq<int>>, dist: nat -> nat -> real, mMax: nat, u: nat, v: nat): set<nat>
    requires u < |rows|
  {
    set w: nat | w < |rows| && Linked(rows, mMax, u, w) && B.Closer(dist(u), w, v)
  }

  /** For rows without repetitions: a linked pair is emitted from `u` iff fewer than `mMax` vertices linked to `u` are closer to it. */
  lemma EmittedIffNear(rows: seq<seq<int>>, dist: nat -> nat -> real, mMax: nat, u: nat, v: nat)
    requires forall u, i :: 0 <= u < |rows| && 0 <= i < |rows[u]| ==> rows[u][i] < |rows|
    requires forall u :: 0 <= u < |rows| ==> NoDup(rows[u])
    requires u < |rows| && v < |rows|
    ensures Emitted(rows, dist, mMax, u, v) <==>
              Linked(rows, mMax, u, v) && |CloserLinked(rows, dist, mMax, u, v)| < mMax
  {
    hide Known, CloserCount, Proper, Symmetric, Reverses, B.Closer;
    var start := seq(|rows|, u requires 0 <= u < |rows| => Kept(Start(rows[u], mMax), u, |rows|));
    ListsAre(rows, mMax, start);
    assert NoDup(Start(rows[u], mMax));
    KeptOnce(Start(rows[u], mMax), u, |rows|);
    ListOnce(start, u);
    var full := Lists(rows, mMax);
    NeighboursBelowAll(full, u);
    CountOfOnce(dist(u), full[u], v);
    assert ClosersIn(dist(u), full[u], v) == CloserLinked(rows, dist, mMax, u, v);
  }

  lemma NeighboursBelowAll(s: seq<seq<nat>>, u: nat)
    requires Proper(s) && u < |s|
    ensures forall v :: v in s[u] ==> v < |s|
  {}

  /** The order of closeness: by distance, and among equally distant ones by number. */
  lemma CloserOrder(d: nat -> real, x: nat, y: nat)
    ensures B.Closer(d, x, y) <==> d(x) < d(y) || (d(x) == d(y) && x < y)
    ensures x != y ==> B.Closer(d, x, y) != B.Closer(d, y, x)
    ensures !B.Closer(d, x, x)
  {}

  // ----- Cutting and symmetry -----

  ghost predicate AllCapped(dist: nat -> nat -> real, was: seq<seq<nat>>, now: seq<seq<nat>>, mMax: nat) {
    |was| == |now| && forall v :: 0 <= v < |was| ==> Capped(dist(v), was[v], now[v], mMax)
  }

  /** The capped lists of symmetric ones are symmetric iff no edge is kept at one end and dropped at the other. */
  lemma SymmetricIff(dist: nat -> nat -> real, was: seq<seq<nat>>, now: seq<seq<nat>>, mMax: nat)
    requires Proper(was) && Symmetric(was) && AllCapped(dist, was, now, mMax)
    ensures Proper(now)
    ensures Symmetric(now) <==>
            (forall v, w :: 0 <= v < |was| && w in was[v] ==>
               (Keeps(dist(v), was[v], w, mMax) <==> Keeps(dist(w), was[w], v, mMax)))
  {
    hide Capped, Keeps;
    forall v, w: nat | 0 <= v < |was|
      ensures w in now[v] <==> Keeps(dist(v), was[v], w, mMax)
      ensures w in now[v] ==> w in was[v] && w < |was| && w != v
    {
      KeptIffRank(dist(v), was[v], now[v], mMax, w);
      CappedBound(dist(v), was[v], now[v], mMax);
    }
  }

  /** A neighbour whose own list was not cut still has the edge that was cut away: then symmetry is lost. */
  lemma CutEdgeStays(dist: nat -> nat -> real, was: seq<seq<nat>>, now: seq<seq<nat>>, mMax: nat, v: nat, w: nat)
    requires Proper(was) && Symmetric(was) && AllCapped(dist, was, now, mMax)
    requires v < |was| && w in was[v] && w !in now[v]
    ensures w < |was| && (|was[w]| <= mMax ==> v in now[w])
    ensures Proper(now) && (|was[w]| <= mMax ==> !Symmetric(now))
  {
    hide Capped;
    forall u, x | 0 <= u < |now| && x in now[u]
      ensures x < |now| && x != u
    {
      CappedBound(dist(u), was[u], now[u], mMax);
    }
    assert Capped(dist(w), was[w], now[w], mMax);
    if |was[w]| <= mMax {
      NotCut(dist(w), was[w], now[w], mMax);
    }
  }

  lemma NotCut(d: nat -> real, was: seq<nat>, now: seq<nat>, mMax: nat)
    requires Capped(d, was, now, mMax) && |was| <= mMax
    ensures now == was
  {}

  lemma OneOfTwo(d: nat -> real, a: nat, b: nat)
    requires !B.Closer(d, b, a)
    ensures Capped(d, [a, b], [a], 1)
  {
    var rest := [b];
    assert multiset([a]) + multiset(rest) == multiset([a, b]);
    assert NearestOf(d, [a], rest);
  }

  lemma ShortStays(d: nat -> real, a: seq<nat>, mMax: nat)
    requires |a| <= mMax
    ensures Capped(d, a, a, mMax)
  {}

  /** A hub with two spokes and a limit of one: the hub keeps one spoke, both spokes keep the hub. */
  lemma HubLosesSymmetry()
    ensures var was := [[1, 2], [0], [0]]; var now := [[1], [0], [0]];
            var dist := (v: nat) => (w: nat) => w as real;
            && Proper(was) && Symmetric(was) && AllCapped(dist, was, now, 1)
            && Proper(now) && !Symmetric(now)
  {
    var was: seq<seq<nat>>, now: seq<seq<nat>> := [[1, 2], [0], [0]], [[1], [0], [0]];
    var dist := (v: nat) => (w: nat) => w as real;
    hide Capped;
    OneOfTwo(dist(0), 1, 2);
    ShortStays(dist(1), [0], 1);
    ShortStays(dist(2), [0], 1);
    assert 2 !in now[0] && 0 in now[2];
  }
}
