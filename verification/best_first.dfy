/**
 Graph search (src/astervec_index.cc): best-first search over a layer with two
 heaps and a visited set, with and without a filter, and the greedy descent of
 the upper layers. Distance is any function to the reals, adjacency any function
 to id lists.
 */
module BestFirst {
  import opened Basics

  // ----- Heaps: pairs of distance and id, largest first -----

  predicate Closer(dist: nat -> real, a: nat, b: nat) {
    dist(a) < dist(b) || (dist(a) == dist(b) && a < b)
  }

  /** The top of the result heap: the farthest, among equals the largest id. */
  ghost predicate IsFarthest(dist: nat -> real, s: set<nat>, x: nat) {
    x in s && forall y :: y in s && y != x ==> Closer(dist, y, x)
  }

  /** The top of the candidate heap: the nearest, among equals the largest id. */
  ghost predicate IsNearest(dist: nat -> real, s: set<nat>, x: nat) {
    x in s && forall y :: y in s ==> dist(x) < dist(y) || (dist(x) == dist(y) && y <= x)
  }

  lemma OneMore(dist: nat -> real, s: set<nat>, x: nat, y: nat)
    requires IsFarthest(dist, s, x) && y !in s
    ensures IsFarthest(dist, s + {y}, if Closer(dist, x, y) then y else x)
  {
    var top := if Closer(dist, x, y) then y else x;
    forall z | z in s + {y} && z != top
      ensures Closer(dist, z, top)
    {
      assert z == x || z == y || Closer(dist, z, x);
    }
  }

  lemma {:induction false} FarthestExists(dist: nat -> real, s: set<nat>)
    requires s != {}
    ensures exists x :: IsFarthest(dist, s, x)
    decreases |s|
  {
    var a :| a in s;
    if s == {a} {
      assert IsFarthest(dist, s, a);
    } else {
      FarthestExists(dist, s - {a});
      var b :| IsFarthest(dist, s - {a}, b);
      OneMore(dist, s - {a}, b, a);
      assert s - {a} + {a} == s;
    }
  }

  lemma OnlyFarthest(dist: nat -> real, s: set<nat>, x: nat)
    requires IsFarthest(dist, s, x)
    ensures x == Farthest(dist, s)
  {}

  lemma {:induction false} NearestExists(dist: nat -> real, s: set<nat>)
    requires s != {}
    ensures exists x :: IsNearest(dist, s, x)
    decreases |s|
  {
    var a :| a in s;
    if s == {a} {
      assert IsNearest(dist, s, a);
    } else {
      NearestExists(dist, s - {a});
      var b :| IsNearest(dist, s - {a}, b);
      assert IsNearest(dist, s, if dist(a) < dist(b) || (dist(a) == dist(b) && b < a) then a else b);
    }
  }

  ghost function Farthest(dist: nat -> real, s: set<nat>): (x: nat)
    requires s != {}
    ensures IsFarthest(dist, s, x)
  {
    FarthestExists(dist, s);
    var x :| IsFarthest(dist, s, x);
    x
  }

  ghost function Nearest(dist: nat -> real, s: set<nat>): (x: nat)
    requires s != {}
    ensures IsNearest(dist, s, x)
  {
    NearestExists(dist, s);
    var x :| IsNearest(dist, s, x);
    x
  }

  method TopOfResults(dist: nat -> real, s: set<nat>) returns (x: nat)
    requires s != {}
    ensures x == Farthest(dist, s)
    ensures x in s && forall y :: y in s ==> dist(y) < dist(x) || (dist(y) == dist(x) && y <= x)
  {
    hide IsFarthest, Closer;
    x :| x in s;
    ghost var seen := {x};
    var todo := s - {x};
    JustOne(dist, x);
    while todo != {}
      invariant seen !! todo && seen + todo == s && IsFarthest(dist, seen, x)
      decreases |todo|
    {
      var y :| y in todo;
      OneMore(dist, seen, x, y);
      if Closer(dist, x, y) {
        x := y;
      }
      seen, todo := seen + {y}, todo - {y};
    }
    assert seen == s;
    OnlyFarthest(dist, s, x);
    FarthestIs(dist, s, x);
  }

  lemma FarthestIs(dist: nat -> real, s: set<nat>, x: nat)
    requires IsFarthest(dist, s, x)
    ensures x in s && forall y :: y in s ==> dist(y) < dist(x) || (dist(y) == dist(x) && y <= x)
  {}

  lemma JustOne(dist: nat -> real, x: nat)
    ensures IsFarthest(dist, {x}, x)
  {}

  lemma OneMoreNear(dist: nat -> real, s: set<nat>, x: nat, y: nat)
    requires IsNearest(dist, s, x) && y !in s
    ensures IsNearest(dist, s + {y}, if dist(y) < dist(x) || (dist(y) == dist(x) && x < y) then y else x)
  {}

  lemma OnlyNearest(dist: nat -> real, s: set<nat>, x: nat)
    requires s != {} && IsNearest(dist, s, x)
    ensures x == Nearest(dist, s)
  {}

  lemma JustOneNear(dist: nat -> real, x: nat)
    ensures IsNearest(dist, {x}, x)
  {}

  method TopOfCandidates(dist: nat -> real, s: set<nat>) returns (x: nat)
    requires s != {}
    ensures x == Nearest(dist, s)
    ensures x in s && forall y :: y in s ==> dist(x) < dist(y) || (dist(y) == dist(x) && y <= x)
  {
    hide IsNearest;
    x :| x in s;
    ghost var seen := {x};
    var todo := s - {x};
    JustOneNear(dist, x);
    while todo != {}
      invariant seen !! todo && seen + todo == s && IsNearest(dist, seen, x)
      decreases |todo|
    {
      var y :| y in todo;
      OneMoreNear(dist, seen, x, y);
      if dist(y) < dist(x) || (dist(y) == dist(x) && x < y) {
        x := y;
      }
      seen, todo := seen + {y}, todo - {y};
    }
    assert seen == s;
    OnlyNearest(dist, s, x);
    NearestIs(dist, s, x);
  }

  lemma NearestIs(dist: nat -> real, s: set<nat>, x: nat)
    requires IsNearest(dist, s, x)
    ensures x in s && forall y :: y in s ==> dist(x) < dist(y) || (dist(y) == dist(x) && y <= x)
  {}

  // ----- The state of a search -----

  datatype Search = Search(visited: set<nat>, candidates: set<nat>, results: set<nat>)

  predicate Full(results: set<nat>, ef: nat) {
    |results| >= ef
  }

  /** There is room among the results, or the farthest of them is farther. */
  ghost predicate Better(dist: nat -> real, results: set<nat>, id: nat, ef: nat)
    requires ef > 0
  {
    !Full(results, ef) || dist(id) < dist(Farthest(dist, NonEmpty(results, ef)))
  }

  ghost function NonEmpty(results: set<nat>, ef: nat): (r: set<nat>)
    requires Full(results, ef) && ef > 0
    ensures r == results && r != {}
  {
    results
  }

  ghost function Trimmed(dist: nat -> real, results: set<nat>, ef: nat): set<nat>
    requires ef > 0
  {
    if |results| > ef then results - {Farthest(dist, NonEmpty(results, ef))} else results
  }

  /** An evaluated node becomes a candidate if it is better, and a result if it also matches. */
  ghost function Admit(dist: nat -> real, s: Search, id: nat, matches: bool, ef: nat): Search
    requires ef > 0
  {
    if !Better(dist, s.results, id, ef) then s
    else s.(candidates := s.candidates + {id},
            results := if matches then Trimmed(dist, s.results + {id}, ef) else s.results)
  }

  ghost function Visit(dist: nat -> real, s: Search, id: nat, matches: nat -> bool, ef: nat): Search
    requires ef > 0
  {
    if id in s.visited then s else Admit(dist, s.(visited := s.visited + {id}), id, matches(id), ef)
  }

  /** One by one: mark a neighbour and evaluate it. */
  ghost function VisitAll(dist: nat -> real, s: Search, ids: seq<nat>, matches: nat -> bool, ef: nat): Search
    requires ef > 0
  {
    if ids == [] then s
    else Visit(dist, VisitAll(dist, s, ids[..|ids| - 1], matches, ef), ids[|ids| - 1], matches, ef)
  }

  /** In a batch: mark all neighbours, keeping the first visits in order, then evaluate those. */
  function FirstVisits(visited: set<nat>, ids: seq<nat>): seq<nat> {
    if ids == [] then []
    else
      var front := FirstVisits(visited, ids[..|ids| - 1]);
      var id := ids[|ids| - 1];
      if id in visited || id in front then front else front + [id]
  }

  function Elements(ids: seq<nat>): set<nat> {
    set id | id in ids
  }

  ghost function AdmitAll(dist: nat -> real, s: Search, ids: seq<nat>, matches: nat -> bool, ef: nat): Search
    requires ef > 0
  {
    if ids == [] then s
    else
      var id := ids[|ids| - 1];
      Admit(dist, AdmitAll(dist, s, ids[..|ids| - 1], matches, ef), id, matches(id), ef)
  }

  lemma {:induction false} FirstVisitsAre(visited: set<nat>, ids: seq<nat>)
    ensures forall id :: id in FirstVisits(visited, ids) <==> id in ids && id !in visited
  {
    if ids != [] {
      FirstVisitsAre(visited, ids[..|ids| - 1]);
      assert ids == ids[..|ids| - 1] + [ids[|ids| - 1]];
    }
  }

  lemma {:induction false} AdmitKeepsVisited(dist: nat -> real, s: Search, ids: seq<nat>, matches: nat -> bool, ef: nat,
                                             visited: set<nat>)
    requires ef > 0
    ensures AdmitAll(dist, s, ids, matches, ef).visited == s.visited
    ensures AdmitAll(dist, s.(visited := visited), ids, matches, ef)
            == AdmitAll(dist, s, ids, matches, ef).(visited := visited)
  {
    if ids != [] {
      AdmitKeepsVisited(dist, s, ids[..|ids| - 1], matches, ef, visited);
    }
  }

  /** The batch path and the one-by-one path do the same. */
  lemma {:induction false} BatchIsOneByOne(dist: nat -> real, s: Search, ids: seq<nat>, matches: nat -> bool, ef: nat)
    requires ef > 0
    ensures var first := FirstVisits(s.visited, ids);
            VisitAll(dist, s, ids, matches, ef)
            == AdmitAll(dist, s.(visited := s.visited + Elements(first)), first, matches, ef)
  {
    if ids == [] {
      assert s.visited + Elements([]) == s.visited;
    } else {
      hide Admit;
      var front, id := ids[..|ids| - 1], ids[|ids| - 1];
      BatchIsOneByOne(dist, s, front, matches, ef);
      var first := FirstVisits(s.visited, front);
      var marked := s.visited + Elements(first);
      AdmitKeepsVisited(dist, s, first, matches, ef, marked);
      if id !in marked {
        var all := first + [id];
        assert all[..|all| - 1] == first;
        assert s.visited + Elements(all) == marked + {id};
        AdmitKeepsVisited(dist, s, first, matches, ef, marked + {id});
      }
    }
  }

  // ----- What a search keeps -----

  /** Results match, and whatever matches and is not among the ef results is no nearer than any of them. */
  ghost predicate BestSoFar(dist: nat -> real, s: Search, matches: nat -> bool, ef: nat) {
    && s.results <= s.visited && |s.results| <= ef && (forall id :: id in s.results ==> matches(id))
    && (forall id :: id in s.visited && matches(id) && id !in s.results ==> PassedOver(dist, s.results, id, ef))
  }

  /** The results are full of nodes at least as near. */
  ghost predicate PassedOver(dist: nat -> real, results: set<nat>, id: nat, ef: nat) {
    |results| == ef && forall n :: n in results ==> dist(n) <= dist(id)
  }

  predicate Expanded(edges: nat -> seq<nat>, visited: set<nat>, id: nat) {
    forall k :: 0 <= k < |edges(id)| ==> edges(id)[k] in visited
  }

  /** A visited node waits, or its neighbours are visited, or it was not better than full results. */
  ghost predicate Frontier(dist: nat -> real, edges: nat -> seq<nat>, s: Search, ef: nat) {
    && s.candidates <= s.visited
    && (forall id :: id in s.visited ==>
          id in s.candidates || Expanded(edges, s.visited, id) || PassedOver(dist, s.results, id, ef))
    && (forall id :: id in s.results ==> id in s.candidates || Expanded(edges, s.visited, id))
  }

  /** As Frontier, but for one node that has just been taken from the candidates. */
  ghost predicate FrontierBut(dist: nat -> real, edges: nat -> seq<nat>, s: Search, ef: nat, c: nat) {
    && s.candidates <= s.visited
    && (forall id :: id in s.visited && id != c ==>
          id in s.candidates || Expanded(edges, s.visited, id) || PassedOver(dist, s.results, id, ef))
    && (forall id :: id in s.results && id != c ==> id in s.candidates || Expanded(edges, s.visited, id))
  }

  /** Results only ever get nearer: a node passed over stays passed over. */
  lemma StaysPassed(dist: nat -> real, s: Search, id: nat, matches: bool, ef: nat, v: nat)
    requires ef > 0 && |s.results| <= ef && PassedOver(dist, s.results, v, ef) && id !in s.results
    ensures PassedOver(dist, Admit(dist, s, id, matches, ef).results, v, ef)
  {
    if Better(dist, s.results, id, ef) && matches {
      var grown := s.results + {id};
      assert |grown| == ef + 1;
      var far := Farthest(dist, s.results);
      assert dist(id) < dist(far) <= dist(v);
    }
  }

  /** What is left out when a better node comes in is no nearer than what stays. */
  lemma TrimmedPasses(dist: nat -> real, s: Search, id: nat, ef: nat)
    requires ef > 0 && |s.results| <= ef && id !in s.results && Better(dist, s.results, id, ef)
    ensures var after := Trimmed(dist, s.results + {id}, ef);
            && after <= s.results + {id} && |after| <= ef
            && (forall v :: v in s.results + {id} && v !in after ==> PassedOver(dist, after, v, ef))
            && (|s.results| < ef ==> after == s.results + {id})
  {
    var grown := s.results + {id};
    assert |grown| == |s.results| + 1;
    if |grown| > ef {
      var far := Farthest(dist, grown);
      assert Trimmed(dist, grown, ef) == grown - {far};
      assert |grown - {far}| == ef;
    }
  }

  lemma NotBetterPasses(dist: nat -> real, s: Search, id: nat, ef: nat)
    requires ef > 0 && |s.results| <= ef && !Better(dist, s.results, id, ef)
    ensures PassedOver(dist, s.results, id, ef)
  {}

  lemma VisitKeepsBest(dist: nat -> real, s: Search, id: nat, matches: nat -> bool, ef: nat)
    requires ef > 0 && BestSoFar(dist, s, matches, ef)
    ensures BestSoFar(dist, Visit(dist, s, id, matches, ef), matches, ef)
  {
    hide PassedOver, Better, Trimmed;
    if id !in s.visited {
      var marked := s.(visited := s.visited + {id});
      if Better(dist, s.results, id, ef) {
        TrimmedPasses(dist, s, id, ef);
      } else {
        NotBetterPasses(dist, s, id, ef);
      }
      var after := Visit(dist, s, id, matches, ef);
      forall v | v in after.visited && matches(v) && v !in after.results
        ensures PassedOver(dist, after.results, v, ef)
      {
        if v in s.visited && v !in s.results {
          StaysPassed(dist, marked, id, matches(id), ef, v);
        }
      }
    }
  }

  lemma ExpandedGrows(edges: nat -> seq<nat>, visited: set<nat>, more: set<nat>, id: nat)
    requires Expanded(edges, visited, id) && visited <= more
    ensures Expanded(edges, more, id)
  {}

  lemma VisitParts(dist: nat -> real, s: Search, id: nat, matches: nat -> bool, ef: nat)
    requires ef > 0 && |s.results| <= ef && id !in s.visited && s.results <= s.visited
    ensures var after := Visit(dist, s, id, matches, ef);
            && after.visited == s.visited + {id}
            && after.candidates == (if Better(dist, s.results, id, ef) then s.candidates + {id} else s.candidates)
            && after.results <= s.results + {id}
            && (id in after.results ==> Better(dist, s.results, id, ef))
            && (forall v :: PassedOver(dist, s.results, v, ef) ==> PassedOver(dist, after.results, v, ef))
  {
    hide PassedOver, Better;
    forall v | PassedOver(dist, s.results, v, ef)
      ensures PassedOver(dist, Visit(dist, s, id, matches, ef).results, v, ef)
    {
      StaysPassed(dist, s.(visited := s.visited + {id}), id, matches(id), ef, v);
    }
  }

  lemma VisitKeepsFrontier(dist: nat -> real, edges: nat -> seq<nat>, s: Search, id: nat, matches: nat -> bool, ef: nat, c: nat)
    requires ef > 0 && BestSoFar(dist, s, matches, ef) && FrontierBut(dist, edges, s, ef, c)
    ensures FrontierBut(dist, edges, Visit(dist, s, id, matches, ef), ef, c)
  {
    if id !in s.visited {
      hide PassedOver, Better, Trimmed, Expanded, Visit;
      var after := Visit(dist, s, id, matches, ef);
      VisitParts(dist, s, id, matches, ef);
      if !Better(dist, s.results, id, ef) {
        NotBetterPasses(dist, s, id, ef);
      }
      forall v | v in after.visited && v != c
        ensures v in after.candidates || Expanded(edges, after.visited, v) || PassedOver(dist, after.results, v, ef)
        ensures v in after.results ==> v in after.candidates || Expanded(edges, after.visited, v)
      {
        if v in s.visited && Expanded(edges, s.visited, v) {
          ExpandedGrows(edges, s.visited, after.visited, v);
        }
      }
    }
  }

  /** Visiting all neighbours of the node taken expands it. */
  lemma {:induction false} VisitAllKeeps(dist: nat -> real, edges: nat -> seq<nat>, s: Search, ids: seq<nat>,
                                         matches: nat -> bool, ef: nat, c: nat)
    requires ef > 0 && BestSoFar(dist, s, matches, ef) && FrontierBut(dist, edges, s, ef, c)
    ensures var after := VisitAll(dist, s, ids, matches, ef);
            && BestSoFar(dist, after, matches, ef) && FrontierBut(dist, edges, after, ef, c)
            && after.visited == s.visited + Elements(ids)
  {
    hide BestSoFar, FrontierBut, Admit;
    if ids == [] {
      assert s.visited + Elements([]) == s.visited;
    } else {
      var front, id := ids[..|ids| - 1], ids[|ids| - 1];
      VisitAllKeeps(dist, edges, s, front, matches, ef, c);
      var before := VisitAll(dist, s, front, matches, ef);
      VisitKeepsBest(dist, before, id, matches, ef);
      VisitKeepsFrontier(dist, edges, before, id, matches, ef, c);
      VisitMarks(dist, before, id, matches, ef);
      assert ids == front + [id];
      assert s.visited + Elements(ids) == s.visited + Elements(front) + {id};
    }
  }

  lemma VisitMarks(dist: nat -> real, s: Search, id: nat, matches: nat -> bool, ef: nat)
    requires ef > 0
    ensures Visit(dist, s, id, matches, ef).visited == s.visited + {id}
  {}

  /** Taking the nearest candidate and visiting its neighbours. */
  ghost function Expand(dist: nat -> real, edges: nat -> seq<nat>, s: Search, matches: nat -> bool, ef: nat): Search
    requires ef > 0 && s.candidates != {}
  {
    var c := Nearest(dist, s.candidates);
    VisitAll(dist, s.(candidates := s.candidates - {c}), edges(c), matches, ef)
  }

  lemma ExpandKeeps(dist: nat -> real, edges: nat -> seq<nat>, s: Search, matches: nat -> bool, ef: nat)
    requires ef > 0 && s.candidates != {} && BestSoFar(dist, s, matches, ef) && Frontier(dist, edges, s, ef)
    ensures var after := Expand(dist, edges, s, matches, ef);
            && BestSoFar(dist, after, matches, ef) && Frontier(dist, edges, after, ef)
            && after.visited == s.visited + Elements(edges(Nearest(dist, s.candidates)))
  {
    hide PassedOver, VisitAll;
    var c := Nearest(dist, s.candidates);
    var taken := s.(candidates := s.candidates - {c});
    VisitAllKeeps(dist, edges, taken, edges(c), matches, ef, c);
    var after := Expand(dist, edges, s, matches, ef);
    forall k | 0 <= k < |edges(c)|
      ensures edges(c)[k] in after.visited
    {
      assert edges(c)[k] in Elements(edges(c));
    }
    assert Expanded(edges, after.visited, c);
  }

  // ----- Reachability -----

  predicate Path(edges: nat -> seq<nat>, p: seq<nat>, from: nat, x: nat) {
    && p != [] && p[0] == from && p[|p| - 1] == x
    && forall i :: 0 <= i < |p| - 1 ==> p[i + 1] in edges(p[i])
  }

  ghost predicate Reachable(edges: nat -> seq<nat>, from: nat, x: nat) {
    exists p :: Path(edges, p, from, x)
  }

  lemma ReachSelf(edges: nat -> seq<nat>, from: nat)
    ensures Reachable(edges, from, from)
  {
    assert Path(edges, [from], from, from);
  }

  lemma ReachOn(edges: nat -> seq<nat>, from: nat, x: nat, y: nat)
    requires Reachable(edges, from, x) && y in edges(x)
    ensures Reachable(edges, from, y)
  {
    var p :| Path(edges, p, from, x);
    assert Path(edges, p + [y], from, y);
  }

  ghost predicate Closed(edges: nat -> seq<nat>, s: set<nat>) {
    forall id :: id in s ==> Expanded(edges, s, id)
  }

  lemma {:induction false} ClosedHasPath(edges: nat -> seq<nat>, s: set<nat>, p: seq<nat>, from: nat, x: nat)
    requires Closed(edges, s) && from in s && Path(edges, p, from, x)
    ensures x in s
    decreases |p|
  {
    if |p| > 1 {
      var front := p[..|p| - 1];
      ClosedHasPath(edges, s, front, from, front[|front| - 1]);
      assert p[|front| - 1 + 1] in edges(p[|front| - 1]);
      assert Expanded(edges, s, front[|front| - 1]);
    }
  }

  /** A closed set with the entry in it holds everything reachable. */
  lemma ClosedHasReach(edges: nat -> seq<nat>, s: set<nat>, from: nat, x: nat)
    requires Closed(edges, s) && from in s && Reachable(edges, from, x)
    ensures x in s
  {
    var p :| Path(edges, p, from, x);
    ClosedHasPath(edges, s, p, from, x);
  }

  // ----- Whole searches -----

  ghost predicate InGraph(edges: nat -> seq<nat>, nodes: set<nat>, s: Search) {
    Closed(edges, nodes) && s.visited <= nodes && s.candidates <= s.visited
  }

  /** The nearest candidate may still improve the results. */
  ghost predicate Worthwhile(dist: nat -> real, s: Search) {
    s.candidates != {} &&
    (s.results == {} || dist(Nearest(dist, s.candidates)) <= dist(Farthest(dist, s.results)))
  }

  lemma {:induction false} NothingNew(dist: nat -> real, s: Search, ids: seq<nat>, matches: nat -> bool, ef: nat)
    requires ef > 0 && Elements(ids) <= s.visited
    ensures VisitAll(dist, s, ids, matches, ef) == s
  {
    if ids != [] {
      assert ids[|ids| - 1] in Elements(ids);
      assert Elements(ids[..|ids| - 1]) <= Elements(ids);
      NothingNew(dist, s, ids[..|ids| - 1], matches, ef);
    }
  }

  lemma {:induction false} VisitAllGrows(dist: nat -> real, s: Search, ids: seq<nat>, matches: nat -> bool, ef: nat)
    requires ef > 0 && s.candidates <= s.visited
    ensures var after := VisitAll(dist, s, ids, matches, ef);
            after.visited == s.visited + Elements(ids) && after.candidates <= after.visited
  {
    if ids == [] {
      assert s.visited + Elements([]) == s.visited;
    } else {
      hide Better, Trimmed;
      VisitAllGrows(dist, s, ids[..|ids| - 1], matches, ef);
      assert ids == ids[..|ids| - 1] + [ids[|ids| - 1]];
    }
  }

  lemma ExpandProgress(dist: nat -> real, edges: nat -> seq<nat>, nodes: set<nat>, s: Search, matches: nat -> bool, ef: nat)
    requires ef > 0 && s.candidates != {} && InGraph(edges, nodes, s)
    ensures var after := Expand(dist, edges, s, matches, ef);
            && InGraph(edges, nodes, after) && after.visited >= s.visited
            && (after.visited == s.visited ==> |after.candidates| < |s.candidates|)
            && |nodes - after.visited| <= |nodes - s.visited|
            && (after.visited != s.visited ==> |nodes - after.visited| < |nodes - s.visited|)
  {
    hide VisitAll;
    var c := Nearest(dist, s.candidates);
    var taken := s.(candidates := s.candidates - {c});
    var after := Expand(dist, edges, s, matches, ef);
    VisitAllGrows(dist, taken, edges(c), matches, ef);
    assert Expanded(edges, nodes, c);
    if after.visited == s.visited {
      NothingNew(dist, taken, edges(c), matches, ef);
    } else {
      SubsetSize(nodes - after.visited, nodes - s.visited);
    }
  }

  /** The search from a state on: what both ways of reading the neighbours amount to. */
  ghost function SearchOn(dist: nat -> real, edges: nat -> seq<nat>, nodes: set<nat>, s: Search, ef: nat): Search
    requires ef > 0 && InGraph(edges, nodes, s)
    decreases |nodes - s.visited|, |s.candidates|
  {
    if !Worthwhile(dist, s) then s
    else
      ExpandProgress(dist, edges, nodes, s, _ => true, ef);
      SearchOn(dist, edges, nodes, Expand(dist, edges, s, _ => true, ef), ef)
  }

  function Start(entry: nat, matches: bool): Search {
    Search({entry}, {entry}, if matches then {entry} else {})
  }

  /** What the finished search has found out. */
  ghost predicate Found(dist: nat -> real, edges: nat -> seq<nat>, entry: nat, ef: nat, visited: set<nat>, results: set<nat>) {
    && entry in visited && (forall id :: id in visited ==> Reachable(edges, entry, id))
    && results <= visited && |results| <= ef
    && (forall id :: id in visited && id !in results ==> PassedOver(dist, results, id, ef))
    && (forall id :: id in results ==> Expanded(edges, visited, id))
  }

  /** With room for every reachable node, all of them are found. */
  lemma FindsAll(dist: nat -> real, edges: nat -> seq<nat>, entry: nat, ef: nat, visited: set<nat>, results: set<nat>,
                 reach: set<nat>)
    requires Found(dist, edges, entry, ef, visited, results)
    requires (forall id :: id in reach <==> Reachable(edges, entry, id)) && |reach| <= ef
    ensures results == reach
  {
    hide Expanded;
    assert visited <= reach;
    if id :| id in visited && id !in results {
      assert PassedOver(dist, results, id, ef);
      SubsetSize(results, reach);
    }
    assert visited == results;
    forall x | x in reach
      ensures x in visited
    {
      ClosedHasReach(edges, visited, entry, x);
    }
  }
}
