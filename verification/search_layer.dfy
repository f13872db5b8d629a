/**
 The search loops (src/astervec_index.cc): searchLayer without and with a filter,
 and greedySearchUpperLayer. The graph is finite; which nodes were evaluated, in
 which order, is remembered for the statements only.
 */
module SearchLayer {
  import opened Basics
  import opened BestFirst

  lemma NoDupSnoc(s: seq<nat>, id: nat)
    requires NoDup(s) && id !in Elements(s)
    ensures NoDup(s + [id]) && Elements(s + [id]) == Elements(s) + {id}
  {}

  ghost predicate Ascending(dist: nat -> real, s: seq<nat>) {
    forall i, j :: 0 <= i < j < |s| ==> dist(s[i]) <= dist(s[j])
  }

  // ----- Heap steps -----

  /** There is room among the results, or one of them is farther. */
  ghost predicate Improves(dist: nat -> real, results: set<nat>, id: nat, ef: nat) {
    |results| < ef || exists y :: y in results && dist(id) < dist(y)
  }

  /** One of the results is gone: the farthest, of several the one with the largest id. */
  ghost predicate WithoutWorst(dist: nat -> real, s: set<nat>, less: set<nat>) {
    exists x :: x in s && less == s - {x} && forall y :: y in less ==> dist(y) < dist(x) || (dist(y) == dist(x) && y < x)
  }

  /** Pushes an evaluated node on both heaps if it is better, and pops the results over the limit. */
  method Consider(dist: nat -> real, candidates: set<nat>, results: set<nat>, id: nat, matches: bool, ef: nat,
                  ghost visited: set<nat>)
    returns (candidates': set<nat>, results': set<nat>)
    requires ef > 0
    ensures Search(visited, candidates', results')
            == Admit(dist, Search(visited, candidates, results), id, matches, ef)
    ensures candidates' == if Improves(dist, results, id, ef) then candidates + {id} else candidates
    ensures !Improves(dist, results, id, ef) || !matches ==> results' == results
    ensures Improves(dist, results, id, ef) && matches ==>
              if |results + {id}| <= ef then results' == results + {id} else WithoutWorst(dist, results + {id}, results')
  {
    candidates', results' := candidates, results;
    if |results| >= ef {
      var top := TopOfResults(dist, results);
      if dist(id) >= dist(top) {
        return;
      }
    }
    candidates' := candidates + {id};
    if matches {
      results' := results + {id};
      if |results'| > ef {
        var top := TopOfResults(dist, results');
        results' := results' - {top};
      }
    }
  }

  /** One by one: each neighbour is marked, and evaluated on its first visit. */
  method VisitNeighbors(dist: nat -> real, s: Search, ids: seq<nat>, matches: nat -> bool, ef: nat, ghost seen: seq<nat>)
    returns (after: Search, ghost seen': seq<nat>, scanned: nat)
    requires ef > 0 && NoDup(seen) && Elements(seen) == s.visited
    ensures after == VisitAll(dist, s, ids, matches, ef)
    ensures NoDup(seen') && Elements(seen') == after.visited && |seen'| == |seen| + scanned
    ensures seen <= seen' && forall i :: |seen| <= i < |seen'| ==> seen'[i] in ids
  {
    hide NoDup, Elements, Admit;
    after, seen', scanned := s, seen, 0;
    for k := 0 to |ids|
      invariant after == VisitAll(dist, s, ids[..k], matches, ef)
      invariant NoDup(seen') && Elements(seen') == after.visited && |seen'| == |seen| + scanned
      invariant seen <= seen' && forall i :: |seen| <= i < |seen'| ==> seen'[i] in ids
    {
      var id := ids[k];
      assert ids[..k + 1][..k] == ids[..k];
      VisitMarks(dist, after, id, matches, ef);
      if id !in after.visited {
        NoDupSnoc(seen', id);
        seen' := seen' + [id];
        scanned := scanned + 1;
        var visited := after.visited + {id};
        var candidates, results := Consider(dist, after.candidates, after.results, id, matches(id), ef, visited);
        after := Search(visited, candidates, results);
      }
    }
    assert ids[..|ids|] == ids;
  }

  /** In a batch: all first visits are marked, their vectors read together, then evaluated. */
  method VisitBatch(dist: nat -> real, s: Search, ids: seq<nat>, matches: nat -> bool, ef: nat, ghost seen: seq<nat>)
    returns (after: Search, ghost seen': seq<nat>)
    requires ef > 0 && NoDup(seen) && Elements(seen) == s.visited
    ensures after == VisitAll(dist, s, ids, matches, ef)
    ensures NoDup(seen') && Elements(seen') == after.visited
  {
    hide NoDup, Elements, Admit;
    var unvisited: seq<nat> := [];
    var visited := s.visited;
    seen' := seen;
    NoElements();
    for k := 0 to |ids|
      invariant unvisited == FirstVisits(s.visited, ids[..k])
      invariant visited == s.visited + Elements(unvisited)
      invariant NoDup(seen') && Elements(seen') == visited
    {
      assert ids[..k + 1][..k] == ids[..k];
      ElementsIn(unvisited, ids[k]);
      if ids[k] !in visited {
        NoDupSnoc(seen', ids[k]);
        MoreElements(unvisited, ids[k]);
        seen' := seen' + [ids[k]];
        visited := visited + {ids[k]};
        unvisited := unvisited + [ids[k]];
      }
    }
    assert ids[..|ids|] == ids;
    BatchIsOneByOne(dist, s, ids, matches, ef);
    after := s.(visited := visited);
    ghost var marked := after;
    for i := 0 to |unvisited|
      invariant after == AdmitAll(dist, marked, unvisited[..i], matches, ef) && after.visited == visited
    {
      assert unvisited[..i + 1][..i] == unvisited[..i];
      var candidates, results := Consider(dist, after.candidates, after.results, unvisited[i], matches(unvisited[i]), ef, visited);
      after := Search(visited, candidates, results);
    }
    assert unvisited[..|unvisited|] == unvisited;
  }

  lemma NoElements()
    ensures Elements([]) == {}
  {}

  lemma ElementsIn(s: seq<nat>, id: nat)
    ensures id in Elements(s) <==> id in s
  {}

  lemma MoreElements(s: seq<nat>, id: nat)
    ensures Elements(s + [id]) == Elements(s) + {id}
  {}

  // ----- The unfiltered search -----

  ghost predicate Searching(dist: nat -> real, edges: nat -> seq<nat>, nodes: set<nat>, entry: nat, s: Search, ef: nat) {
    && InGraph(edges, nodes, s) && BestSoFar(dist, s, _ => true, ef) && Frontier(dist, edges, s, ef)
    && entry in s.visited && forall id :: id in s.visited ==> Reachable(edges, entry, id)
  }

  lemma StartSearching(dist: nat -> real, edges: nat -> seq<nat>, nodes: set<nat>, entry: nat, ef: nat)
    requires Closed(edges, nodes) && entry in nodes && ef > 0
    ensures Searching(dist, edges, nodes, entry, Start(entry, true), ef)
  {
    ReachSelf(edges, entry);
  }

  lemma ExpandReaches(dist: nat -> real, edges: nat -> seq<nat>, nodes: set<nat>, entry: nat, s: Search, matches: nat -> bool,
                      ef: nat)
    requires ef > 0 && s.candidates != {} && s.candidates <= s.visited
    requires forall id :: id in s.visited ==> Reachable(edges, entry, id)
    ensures forall id :: id in Expand(dist, edges, s, matches, ef).visited ==> Reachable(edges, entry, id)
  {
    hide VisitAll, Reachable;
    var c := Nearest(dist, s.candidates);
    VisitAllGrows(dist, s.(candidates := s.candidates - {c}), edges(c), matches, ef);
    forall id | id in Expand(dist, edges, s, matches, ef).visited && id !in s.visited
      ensures Reachable(edges, entry, id)
    {
      ReachOn(edges, entry, c, id);
    }
  }

  lemma ExpandSearching(dist: nat -> real, edges: nat -> seq<nat>, nodes: set<nat>, entry: nat, s: Search, ef: nat)
    requires ef > 0 && s.candidates != {} && Searching(dist, edges, nodes, entry, s, ef)
    ensures Searching(dist, edges, nodes, entry, Expand(dist, edges, s, _ => true, ef), ef)
  {
    hide BestSoFar, Frontier, Reachable, Expand;
    Candidates(dist, edges, nodes, entry, s, ef);
    ExpandKeeps(dist, edges, s, _ => true, ef);
    ExpandProgress(dist, edges, nodes, s, _ => true, ef);
    ExpandReaches(dist, edges, nodes, entry, s, _ => true, ef);
  }

  lemma Candidates(dist: nat -> real, edges: nat -> seq<nat>, nodes: set<nat>, entry: nat, s: Search, ef: nat)
    requires Searching(dist, edges, nodes, entry, s, ef)
    ensures s.candidates <= s.visited
  {}

  lemma NoneWaits(dist: nat -> real, s: Search)
    requires !Worthwhile(dist, s)
    ensures forall id :: id in s.results ==> id !in s.candidates
  {
    if s.candidates != {} && s.results != {} {
      var near, far := Nearest(dist, s.candidates), Farthest(dist, s.results);
      assert forall id :: id in s.results ==> dist(id) <= dist(far) < dist(near);
      assert forall id :: id in s.candidates ==> dist(near) <= dist(id);
    }
  }

  /** When no candidate is worthwhile any more, every result is expanded. */
  lemma SearchedIsFound(dist: nat -> real, edges: nat -> seq<nat>, nodes: set<nat>, entry: nat, s: Search, ef: nat)
    requires ef > 0 && Searching(dist, edges, nodes, entry, s, ef) && !Worthwhile(dist, s)
    ensures Found(dist, edges, entry, ef, s.visited, s.results)
  {
    hide Reachable, Expanded, PassedOver, Worthwhile;
    NoneWaits(dist, s);
  }

  /**
     Best-first search for the ef nodes nearest to a query. Every node is evaluated
     at most once, only reachable ones are, and the results, in ascending order, are
     the nearest of all evaluated; all of a result's neighbours are evaluated. The
     results do not depend on how neighbours are read.
   */
  method Run(dist: nat -> real, edges: nat -> seq<nat>, entry: nat, efSearch: int, batch: bool, ghost nodes: set<nat>)
    returns (out: seq<nat>, ghost evaluated: seq<nat>)
    requires Closed(edges, nodes) && entry in nodes
    ensures efSearch <= 0 ==> out == []
    ensures efSearch > 0 ==>
              && NoDup(evaluated) && NoDup(out) && Ascending(dist, out)
              && Found(dist, edges, entry, efSearch, Elements(evaluated), Elements(out))
              && Elements(out) == Outcome(dist, edges, nodes, entry, efSearch)
  {
    out, evaluated := [], [];
    if efSearch <= 0 {
      return;
    }
    hide Searching, SearchOn, Expand, Found, InGraph, NoDup, Elements, VisitAll, Closed;
    var ef: nat := efSearch;
    var s := Start(entry, true);
    evaluated := [entry];
    StartSearching(dist, edges, nodes, entry, ef);
    SearchingInGraph(dist, edges, nodes, entry, s, ef);
    OneElement(entry);
    while s.candidates != {}
      invariant Searching(dist, edges, nodes, entry, s, ef) && InGraph(edges, nodes, s)
      invariant NoDup(evaluated) && Elements(evaluated) == s.visited
      invariant SearchOn(dist, edges, nodes, s, ef) == SearchOn(dist, edges, nodes, Start(entry, true), ef)
      decreases |nodes - s.visited|, |s.candidates|
    {
      var current := TopOfCandidates(dist, s.candidates);
      if s.results != {} {
        var top := TopOfResults(dist, s.results);
        if dist(current) > dist(top) {
          break;
        }
      }
      ExpandProgress(dist, edges, nodes, s, _ => true, ef);
      ExpandSearching(dist, edges, nodes, entry, s, ef);
      SearchGoesOn(dist, edges, nodes, s, ef);
      ExpandIs(dist, edges, s, _ => true, ef);
      var taken := s.(candidates := s.candidates - {current});
      if batch {
        s, evaluated := VisitBatch(dist, taken, edges(current), _ => true, ef, evaluated);
      } else {
        var scanned;
        s, evaluated, scanned := VisitNeighbors(dist, taken, edges(current), _ => true, ef, evaluated);
      }
    }
    SearchedIsFound(dist, edges, nodes, entry, s, ef);
    SearchEnds(dist, edges, nodes, s, ef);
    out := Drain(dist, s.results);
    out := SortByDistance(dist, out);
  }

  /** The results of a search, however its neighbours are read. */
  ghost function Outcome(dist: nat -> real, edges: nat -> seq<nat>, nodes: set<nat>, entry: nat, ef: nat): set<nat>
    requires ef > 0 && Closed(edges, nodes) && entry in nodes
  {
    SearchOn(dist, edges, nodes, Start(entry, true), ef).results
  }

  lemma SearchingInGraph(dist: nat -> real, edges: nat -> seq<nat>, nodes: set<nat>, entry: nat, s: Search, ef: nat)
    requires Searching(dist, edges, nodes, entry, s, ef)
    ensures InGraph(edges, nodes, s)
  {}

  lemma OneElement(id: nat)
    ensures NoDup([id]) && Elements([id]) == {id}
  {}

  lemma SearchGoesOn(dist: nat -> real, edges: nat -> seq<nat>, nodes: set<nat>, s: Search, ef: nat)
    requires ef > 0 && InGraph(edges, nodes, s) && Worthwhile(dist, s)
    ensures InGraph(edges, nodes, Expand(dist, edges, s, _ => true, ef))
    ensures SearchOn(dist, edges, nodes, Expand(dist, edges, s, _ => true, ef), ef) == SearchOn(dist, edges, nodes, s, ef)
  {
    hide Expand;
    ExpandProgress(dist, edges, nodes, s, _ => true, ef);
  }

  lemma SearchEnds(dist: nat -> real, edges: nat -> seq<nat>, nodes: set<nat>, s: Search, ef: nat)
    requires ef > 0 && InGraph(edges, nodes, s) && !Worthwhile(dist, s)
    ensures SearchOn(dist, edges, nodes, s, ef) == s
  {}

  lemma ExpandIs(dist: nat -> real, edges: nat -> seq<nat>, s: Search, matches: nat -> bool, ef: nat)
    requires ef > 0 && s.candidates != {}
    ensures var c := Nearest(dist, s.candidates);
            Expand(dist, edges, s, matches, ef)
            == VisitAll(dist, s.(candidates := s.candidates - {c}), edges(c), matches, ef)
  {}

  // ----- The filtered search -----

  ghost predicate Filtering(dist: nat -> real, edges: nat -> seq<nat>, nodes: set<nat>, entry: nat, s: Search,
                            matches: nat -> bool, k: nat) {
    && InGraph(edges, nodes, s) && BestSoFar(dist, s, matches, k) && Frontier(dist, edges, s, k)
    && entry in s.visited && forall id :: id in s.visited ==> Reachable(edges, entry, id)
  }

  lemma StartFiltering(dist: nat -> real, edges: nat -> seq<nat>, nodes: set<nat>, entry: nat, matches: nat -> bool, k: nat)
    requires Closed(edges, nodes) && entry in nodes && k > 0
    ensures Filtering(dist, edges, nodes, entry, Start(entry, matches(entry)), matches, k)
  {
    ReachSelf(edges, entry);
  }

  lemma FilteringParts(dist: nat -> real, edges: nat -> seq<nat>, nodes: set<nat>, entry: nat, s: Search,
                       matches: nat -> bool, k: nat)
    requires Filtering(dist, edges, nodes, entry, s, matches, k)
    ensures InGraph(edges, nodes, s) && s.candidates <= s.visited && |s.results| <= k
  {}

  lemma ExpandFiltering(dist: nat -> real, edges: nat -> seq<nat>, nodes: set<nat>, entry: nat, s: Search,
                        matches: nat -> bool, k: nat)
    requires k > 0 && s.candidates != {} && Filtering(dist, edges, nodes, entry, s, matches, k)
    ensures Filtering(dist, edges, nodes, entry, Expand(dist, edges, s, matches, k), matches, k)
  {
    hide BestSoFar, Frontier, Reachable, Expand;
    FilteringParts(dist, edges, nodes, entry, s, matches, k);
    ExpandKeeps(dist, edges, s, matches, k);
    ExpandProgress(dist, edges, nodes, s, matches, k);
    ExpandReaches(dist, edges, nodes, entry, s, matches, k);
  }

  /** The k nearest of the matching nodes evaluated; all evaluated nodes are reachable. */
  ghost predicate FoundMatching(dist: nat -> real, edges: nat -> seq<nat>, entry: nat, matches: nat -> bool, k: nat,
                                visited: set<nat>, results: set<nat>) {
    && entry in visited && (forall id :: id in visited ==> Reachable(edges, entry, id))
    && results <= visited && |results| <= k && (forall id :: id in results ==> matches(id))
    && (forall id :: id in visited && matches(id) && id !in results ==> PassedOver(dist, results, id, k))
  }

  /** Something evaluated that is a result, or nearer than one, or anything at all while there is room. */
  ghost predicate Counts(dist: nat -> real, results: set<nat>, k: nat, id: nat) {
    id in results || |results| < k || exists r :: r in results && dist(id) < dist(r)
  }

  /** Nothing more can be found: the neighbours of everything that counts have been evaluated. */
  ghost predicate Converged(dist: nat -> real, edges: nat -> seq<nat>, k: nat, visited: set<nat>, results: set<nat>) {
    forall id :: id in visited && Counts(dist, results, k, id) ==> Expanded(edges, visited, id)
  }

  /** The results are full, and no node that waits is as near as one of them. */
  ghost predicate NoneWorthwhile(dist: nat -> real, s: Search, k: nat) {
    s.candidates == {} || (|s.results| >= k && forall c, r :: c in s.candidates && r in s.results ==> dist(c) > dist(r))
  }

  lemma FarFromAll(dist: nat -> real, s: Search, k: nat)
    requires k > 0 && s.candidates != {} && |s.results| >= k
    requires dist(Nearest(dist, s.candidates)) > dist(Farthest(dist, NonEmpty(s.results, k)))
    ensures NoneWorthwhile(dist, s, k)
  {
    var near, far := Nearest(dist, s.candidates), Farthest(dist, s.results);
    forall c, r | c in s.candidates && r in s.results
      ensures dist(c) > dist(r)
    {
      assert dist(near) <= dist(c);
      assert dist(r) <= dist(far);
    }
  }

  lemma FilteredConverged(dist: nat -> real, edges: nat -> seq<nat>, nodes: set<nat>, entry: nat, s: Search,
                          matches: nat -> bool, k: nat)
    requires Filtering(dist, edges, nodes, entry, s, matches, k) && NoneWorthwhile(dist, s, k)
    ensures Converged(dist, edges, k, s.visited, s.results)
  {
    hide Reachable, Expanded;
    forall id | id in s.visited && Counts(dist, s.results, k, id)
      ensures Expanded(edges, s.visited, id)
    {
      assert id in s.candidates || Expanded(edges, s.visited, id) || PassedOver(dist, s.results, id, k);
    }
  }

  /** Some evaluated node that could still lead to a result was left when the search gave up. */
  ghost predicate LeftOver(dist: nat -> real, k: nat, visited: set<nat>, results: set<nat>) {
    exists c :: c in visited && (|results| < k || exists r :: r in results && dist(c) <= dist(r))
  }

  lemma WaitingIsLeft(dist: nat -> real, s: Search, k: nat, current: nat)
    requires k > 0 && current in s.visited
    requires |s.results| >= k ==> dist(current) <= dist(Farthest(dist, NonEmpty(s.results, k)))
    ensures LeftOver(dist, k, s.visited, s.results)
  {}

  /** The last of the evaluations belong to one node, come to when the limit was not reached yet. */
  ghost predicate WithinLimit(edges: nat -> seq<nat>, evaluated: seq<nat>, limit: nat) {
    |evaluated| <= 1 || exists n: nat, c :: BatchFrom(edges, evaluated, limit, n, c)
  }

  ghost predicate BatchFrom(edges: nat -> seq<nat>, evaluated: seq<nat>, limit: nat, n: nat, c: nat) {
    && 0 < n <= |evaluated| && n <= limit && c in evaluated[..n]
    && forall i :: n <= i < |evaluated| ==> evaluated[i] in edges(c)
  }

  lemma OneBatchMore(edges: nat -> seq<nat>, before: seq<nat>, evaluated: seq<nat>, limit: nat, c: nat)
    requires before <= evaluated && before != [] && |before| <= limit && c in before
    requires forall i :: |before| <= i < |evaluated| ==> evaluated[i] in edges(c)
    ensures WithinLimit(edges, evaluated, limit)
  {
    assert evaluated[..|before|] == before;
    assert BatchFrom(edges, evaluated, limit, |before|, c);
  }

  lemma FilteredIsFound(dist: nat -> real, edges: nat -> seq<nat>, nodes: set<nat>, entry: nat, s: Search,
                        matches: nat -> bool, k: nat)
    requires Filtering(dist, edges, nodes, entry, s, matches, k)
    ensures FoundMatching(dist, edges, entry, matches, k, s.visited, s.results)
    ensures s.candidates == {} && |s.results| < k ==> Closed(edges, s.visited)
  {
    hide Reachable, Expanded;
  }

  /** Unless it hit the cap, the search has returned every matching reachable node, when there are at most k of them. */
  lemma FindsAllMatching(dist: nat -> real, edges: nat -> seq<nat>, entry: nat, matches: nat -> bool, k: nat,
                         visited: set<nat>, results: set<nat>, wanted: set<nat>)
    requires FoundMatching(dist, edges, entry, matches, k, visited, results)
    requires |results| < k ==> Closed(edges, visited)
    requires forall id :: id in wanted <==> Reachable(edges, entry, id) && matches(id)
    requires |wanted| <= k
    ensures results == wanted
  {
    hide Expanded, Reachable, Closed;
    assert results <= wanted;
    if x :| x in wanted && x !in results {
      SubsetSize(results, wanted);
      ClosedHasReach(edges, visited, entry, x);
      assert PassedOver(dist, results, x, k);
    }
  }

  const SCAN_FACTOR: nat := 50

  /**
     The k nearest matching nodes: candidates are followed whether they match or
     not, results must match. Stops when nothing more can be found, or gives up
     before the first node come to after a number of evaluations, if that node
     could still lead to a result.
   */
  method RunFiltered(dist: nat -> real, edges: nat -> seq<nat>, entry: nat, k: int, maxScan: int, matches: nat -> bool,
                     ghost nodes: set<nat>)
    returns (out: seq<nat>, capHit: bool, ghost evaluated: seq<nat>)
    requires Closed(edges, nodes) && entry in nodes
    ensures k <= 0 ==> out == []
    ensures k > 0 ==>
              var limit: nat := if maxScan <= 0 then k * SCAN_FACTOR else maxScan;
              && NoDup(evaluated) && NoDup(out) && Ascending(dist, out)
              && FoundMatching(dist, edges, entry, matches, k, Elements(evaluated), Elements(out))
              && (!capHit ==> Converged(dist, edges, k, Elements(evaluated), Elements(out)))
              && (!capHit && |Elements(out)| < k ==> Closed(edges, Elements(evaluated)))
              && (capHit ==> |evaluated| > limit && LeftOver(dist, k, Elements(evaluated), Elements(out)))
              && WithinLimit(edges, evaluated, limit)
  {
    out, capHit, evaluated := [], false, [];
    if k <= 0 {
      return;
    }
    hide Filtering, Expand, FoundMatching, InGraph, NoDup, Elements, VisitAll, Closed, Converged, NoneWorthwhile, LeftOver, WithinLimit;
    var limit: nat := if maxScan <= 0 then k * SCAN_FACTOR else maxScan;
    var kcap: nat := k;
    var s := Start(entry, matches(entry));
    var scanned := 0;
    evaluated := [entry];
    StartFiltering(dist, edges, nodes, entry, matches, kcap);
    OneElement(entry);
    OneIsWithin(edges, entry, limit);
    while s.candidates != {}
      invariant Filtering(dist, edges, nodes, entry, s, matches, kcap)
      invariant NoDup(evaluated) && Elements(evaluated) == s.visited && |evaluated| == scanned + 1
      invariant WithinLimit(edges, evaluated, limit)
      decreases |nodes - s.visited|, |s.candidates|
    {
      FilteringParts(dist, edges, nodes, entry, s, matches, kcap);
      var current := TopOfCandidates(dist, s.candidates);
      if |s.results| >= kcap {
        var top := TopOfResults(dist, s.results);
        if dist(current) > dist(top) {
          FarFromAll(dist, s, kcap);
          break;
        }
      }
      if scanned >= limit {
        WaitingIsLeft(dist, s, kcap, current);
        capHit := true;
        break;
      }
      ExpandProgress(dist, edges, nodes, s, matches, kcap);
      ExpandFiltering(dist, edges, nodes, entry, s, matches, kcap);
      ExpandIs(dist, edges, s, matches, kcap);
      var taken := s.(candidates := s.candidates - {current});
      var more;
      ghost var before := evaluated;
      ElementsIn(before, current);
      s, evaluated, more := VisitNeighbors(dist, taken, edges(current), matches, kcap, evaluated);
      OneBatchMore(edges, before, evaluated, limit, current);
      scanned := scanned + more;
    }
    if !capHit {
      NoneLeft(dist, s, kcap);
      FilteredConverged(dist, edges, nodes, entry, s, matches, kcap);
    }
    FilteredIsFound(dist, edges, nodes, entry, s, matches, kcap);
    if |s.results| < kcap {
      ConvergedCloses(dist, edges, kcap, s.visited, s.results);
    }
    var farthestFirst := Drain(dist, s.results);
    Turned(dist, farthestFirst);
    out := Reverse(farthestFirst);
  }

  lemma OneIsWithin(edges: nat -> seq<nat>, id: nat, limit: nat)
    ensures WithinLimit(edges, [id], limit)
  {}

  lemma NoneLeft(dist: nat -> real, s: Search, k: nat)
    ensures s.candidates == {} ==> NoneWorthwhile(dist, s, k)
  {}

  lemma ConvergedCloses(dist: nat -> real, edges: nat -> seq<nat>, k: nat, visited: set<nat>, results: set<nat>)
    requires |results| < k
    ensures Converged(dist, edges, k, visited, results) ==> Closed(edges, visited)
  {
    hide Expanded;
    if Converged(dist, edges, k, visited, results) {
      forall id | id in visited
        ensures Expanded(edges, visited, id)
      {
        assert Counts(dist, results, k, id);
      }
    }
  }

  function Reverse(s: seq<nat>): (r: seq<nat>)
    ensures |r| == |s|
  {
    if s == [] then [] else Reverse(s[1..]) + [s[0]]
  }

  lemma {:induction false} ReverseAt(s: seq<nat>, i: nat)
    requires i < |s|
    ensures Reverse(s)[i] == s[|s| - 1 - i]
  {
    if i < |s| - 1 {
      ReverseAt(s[1..], i);
    }
  }

  /** Turned round, a descending list is ascending. */
  lemma Turned(dist: nat -> real, s: seq<nat>)
    requires NoDup(s) && Descending(dist, s)
    ensures NoDup(Reverse(s)) && Ascending(dist, Reverse(s)) && Elements(Reverse(s)) == Elements(s)
  {
    var out := Reverse(s);
    forall i, j | 0 <= i < j < |out|
      ensures out[i] != out[j] && dist(out[i]) <= dist(out[j])
    {
      ReverseAt(s, i);
      ReverseAt(s, j);
    }
    forall id
      ensures id in out <==> id in s
    {
      if id in s {
        var i :| 0 <= i < |s| && s[i] == id;
        ReverseAt(s, |s| - 1 - i);
      }
      if id in out {
        var i :| 0 <= i < |out| && out[i] == id;
        ReverseAt(s, i);
      }
    }
  }

  // ----- The greedy descent -----

  function Nearer(dist: nat -> real, known: set<nat>, d: real): set<nat> {
    set n | n in known && dist(n) < d
  }

  /** No neighbour of the node with a vector is nearer than this. */
  ghost predicate NoNeighborNearer(dist: nat -> real, known: set<nat>, neighbors: map<nat, seq<nat>>, node: nat, d: real) {
    node in neighbors ==> forall n :: n in neighbors[node] && n in known ==> d <= dist(n)
  }

  /** Every step goes to the nearest neighbour, and nearer than before. */
  ghost predicate Descent(dist: nat -> real, known: set<nat>, neighbors: map<nat, seq<nat>>, path: seq<nat>) {
    forall i :: 0 <= i < |path| - 1 ==> DescentStep(dist, known, neighbors, path[i], path[i + 1])
  }

  ghost predicate DescentStep(dist: nat -> real, known: set<nat>, neighbors: map<nat, seq<nat>>, x: nat, y: nat) {
    && x in neighbors && y in neighbors[x] && y in known && dist(y) < dist(x)
    && NoNeighborNearer(dist, known, neighbors, x, dist(y))
  }

  /** The end of a descent is as near as all known neighbours of all nodes walked through. */
  lemma {:induction false} EndIsNearest(dist: nat -> real, known: set<nat>, neighbors: map<nat, seq<nat>>, path: seq<nat>, i: nat)
    requires Descent(dist, known, neighbors, path) && i < |path|
    requires NoNeighborNearer(dist, known, neighbors, path[|path| - 1], dist(path[|path| - 1]))
    ensures NoNeighborNearer(dist, known, neighbors, path[i], dist(path[|path| - 1]))
    ensures dist(path[|path| - 1]) <= dist(path[i])
    decreases |path| - i
  {
    if i < |path| - 1 {
      EndIsNearest(dist, known, neighbors, path, i + 1);
      assert DescentStep(dist, known, neighbors, path[i], path[i + 1]);
    }
  }

  lemma DescentOn(dist: nat -> real, known: set<nat>, neighbors: map<nat, seq<nat>>, path: seq<nat>, y: nat)
    requires Descent(dist, known, neighbors, path) && path != []
    requires DescentStep(dist, known, neighbors, path[|path| - 1], y)
    ensures Descent(dist, known, neighbors, path + [y])
  {
    hide DescentStep;
  }

  /**
     Walks to the nearest neighbour while that is nearer. Stops at a node none of whose
     neighbours is nearer, as near as all neighbours of the nodes on the way; neighbours
     without a vector are passed by.
   */
  method GreedySearchUpperLayer(dist: nat -> real, known: set<nat>, neighbors: map<nat, seq<nat>>, entry: nat)
    returns (current: nat, ghost path: seq<nat>)
    ensures path != [] && path[0] == entry && path[|path| - 1] == current
    ensures entry !in known ==> current == entry
    ensures entry in known ==>
              && current in known && dist(current) <= dist(entry)
              && Descent(dist, known, neighbors, path)
              && forall i :: 0 <= i < |path| ==> NoNeighborNearer(dist, known, neighbors, path[i], dist(current))
  {
    hide Descent, NoNeighborNearer;
    current, path := entry, [entry];
    if current !in known {
      return;
    }
    OneNode(dist, known, neighbors, entry);
    var best := dist(current);
    var improved := true;
    while improved
      invariant current in known && best == dist(current) <= dist(entry)
      invariant path != [] && path[0] == entry && path[|path| - 1] == current && Descent(dist, known, neighbors, path)
      invariant !improved ==> NoNeighborNearer(dist, known, neighbors, current, best)
      decreases |Nearer(dist, known, best)|, improved
    {
      improved := false;
      if current !in neighbors {
        NoNeighbors(dist, known, neighbors, current);
        break;
      }
      var snapshot := neighbors[current];
      ghost var from, before := current, best;
      for i := 0 to |snapshot|
        invariant current in known && best == dist(current) <= before
        invariant improved <==> best < before
        invariant if improved then current in snapshot else current == from
        invariant forall j :: 0 <= j < i && snapshot[j] in known ==> best <= dist(snapshot[j])
      {
        if snapshot[i] in known && dist(snapshot[i]) < best {
          best := dist(snapshot[i]);
          current := snapshot[i];
          improved := true;
        }
      }
      NearestFound(dist, known, neighbors, from, best);
      if improved {
        DescentOn(dist, known, neighbors, path, current);
        path := path + [current];
        FewerNearer(dist, known, current, before);
      }
    }
    forall i | 0 <= i < |path|
      ensures NoNeighborNearer(dist, known, neighbors, path[i], dist(current)) && dist(current) <= dist(path[i])
    {
      EndIsNearest(dist, known, neighbors, path, i);
    }
  }

  lemma OneNode(dist: nat -> real, known: set<nat>, neighbors: map<nat, seq<nat>>, node: nat)
    ensures Descent(dist, known, neighbors, [node])
  {}

  lemma NoNeighbors(dist: nat -> real, known: set<nat>, neighbors: map<nat, seq<nat>>, node: nat)
    requires node !in neighbors
    ensures NoNeighborNearer(dist, known, neighbors, node, dist(node))
  {}

  lemma NearestFound(dist: nat -> real, known: set<nat>, neighbors: map<nat, seq<nat>>, node: nat, d: real)
    requires node in neighbors
    requires forall j :: 0 <= j < |neighbors[node]| && neighbors[node][j] in known ==> d <= dist(neighbors[node][j])
    ensures NoNeighborNearer(dist, known, neighbors, node, d)
  {}

  lemma FewerNearer(dist: nat -> real, known: set<nat>, current: nat, before: real)
    requires current in known && dist(current) < before
    ensures |Nearer(dist, known, dist(current))| < |Nearer(dist, known, before)|
  {
    assert current in Nearer(dist, known, before) && current !in Nearer(dist, known, dist(current));
    assert Nearer(dist, known, dist(current)) < Nearer(dist, known, before);
    SubsetSize(Nearer(dist, known, dist(current)), Nearer(dist, known, before));
  }

  // ----- Output -----

  ghost predicate Descending(dist: nat -> real, s: seq<nat>) {
    forall i, j :: 0 <= i < j < |s| ==> dist(s[j]) <= dist(s[i])
  }

  /** All of a set is at most as far as all of a list. */
  ghost predicate Within(dist: nat -> real, left: set<nat>, s: seq<nat>) {
    forall x, i :: x in left && 0 <= i < |s| ==> dist(x) <= dist(s[i])
  }

  lemma Popped(dist: nat -> real, left: set<nat>, s: seq<nat>)
    requires left != {} && Descending(dist, s) && Within(dist, left, s)
    ensures var top := Farthest(dist, left); Descending(dist, s + [top]) && Within(dist, left - {top}, s + [top])
  {}

  /** Pops the result heap empty: farthest first. */
  method Drain(dist: nat -> real, results: set<nat>) returns (out: seq<nat>)
    ensures NoDup(out) && Elements(out) == results && Descending(dist, out)
  {
    hide NoDup, Elements, Descending, Within;
    out := [];
    var left := results;
    NothingPopped(dist, left);
    while left != {}
      invariant left <= results && NoDup(out) && Elements(out) == results - left
      invariant Descending(dist, out) && Within(dist, left, out)
      decreases |left|
    {
      var top := TopOfResults(dist, left);
      Popped(dist, left, out);
      NoDupSnoc(out, top);
      out := out + [top];
      left := left - {top};
    }
  }

  lemma NothingPopped(dist: nat -> real, left: set<nat>)
    ensures NoDup<nat>([]) && Elements([]) == {} && Descending(dist, []) && Within(dist, left, [])
  {}

  method SortByDistance(dist: nat -> real, s: seq<nat>) returns (out: seq<nat>)
    requires NoDup(s)
    ensures Ascending(dist, out) && NoDup(out) && Elements(out) == Elements(s)
  {
    hide NoDup, Elements, Ascending;
    out := [];
    SortedNothing(dist);
    for i := 0 to |s|
      invariant Ascending(dist, out) && NoDup(out) && Elements(out) == Elements(s[..i])
    {
      var k: nat := |out|;
      while k > 0 && dist(out[k - 1]) > dist(s[i])
        invariant k <= |out| && (k < |out| ==> dist(s[i]) < dist(out[k]))
      {
        k := k - 1;
      }
      NotYet(s, i);
      Inserted(dist, out, k, s[i]);
      assert s[..i + 1] == s[..i] + [s[i]];
      MoreElements(s[..i], s[i]);
      out := out[..k] + [s[i]] + out[k..];
    }
    assert s[..|s|] == s;
  }

  lemma SortedNothing(dist: nat -> real)
    ensures Ascending(dist, []) && NoDup<nat>([])
  {}

  lemma NotYet(s: seq<nat>, i: nat)
    requires NoDup(s) && i < |s|
    ensures s[i] !in Elements(s[..i])
  {}

  lemma Inserted(dist: nat -> real, s: seq<nat>, k: nat, id: nat)
    requires k <= |s| && NoDup(s) && id !in Elements(s) && Ascending(dist, s)
    requires (k > 0 ==> dist(s[k - 1]) <= dist(id)) && (k < |s| ==> dist(id) <= dist(s[k]))
    ensures var after := s[..k] + [id] + s[k..];
            NoDup(after) && Elements(after) == Elements(s) + {id} && Ascending(dist, after)
  {
    var after := s[..k] + [id] + s[k..];
    InsertedNoDup(s, k, id);
    forall i, j | 0 <= i < j < |after|
      ensures dist(after[i]) <= dist(after[j])
    {
      assert i < k ==> dist(s[i]) <= dist(s[k - 1]);
      assert j > k ==> dist(s[k]) <= dist(s[j - 1]);
    }
  }

  lemma InsertedNoDup(s: seq<nat>, k: nat, id: nat)
    requires k <= |s| && NoDup(s) && id !in Elements(s)
    ensures var after := s[..k] + [id] + s[k..]; NoDup(after) && Elements(after) == Elements(s) + {id}
  {
    var after := s[..k] + [id] + s[k..];
    forall i, j | 0 <= i < j < |after|
      ensures after[i] != after[j]
    {
      assert i != k ==> s[if i < k then i else i - 1] in s;
      assert j != k ==> s[if j < k then j else j - 1] in s;
    }
    forall x
      ensures x in Elements(after) <==> x in Elements(s) + {id}
    {
      assert s == s[..k] + s[k..];
    }
  }
}
