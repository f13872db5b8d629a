/**
 The cached view of the layer-0 graph (src/astervec_index.cc): lookups go through
 the edge cache, linking a node drops its neighbours from the cache but not the
 node itself. The cache still never lies, because only located nodes are ever
 cached and a node is linked before anybody else hears of it. The cache may
 evict what it likes.
 */
module EdgeCoherence {
  import opened Basics

  /** The ids with a known vector location, in order. */
  function Locatable(ids: seq<nat>, located: set<nat>): seq<nat> {
    if ids == [] then []
    else if ids[|ids| - 1] in located then Locatable(ids[..|ids| - 1], located) + [ids[|ids| - 1]]
    else Locatable(ids[..|ids| - 1], located)
  }

  lemma {:induction false} LocatableIn(ids: seq<nat>, located: set<nat>)
    ensures forall id :: id in Locatable(ids, located) <==> id in ids && id in located
  {
    if ids != [] {
      LocatableIn(ids[..|ids| - 1], located);
      assert ids == ids[..|ids| - 1] + [ids[|ids| - 1]];
    }
  }

  /** Piece by piece, in order: one id stays or goes by its own location. */
  lemma {:induction false} LocatableConcat(a: seq<nat>, b: seq<nat>, located: set<nat>)
    ensures Locatable(a + b, located) == Locatable(a, located) + Locatable(b, located)
  {
    if b == [] {
      assert a + b == a;
    } else {
      LocatableConcat(a, b[..|b| - 1], located);
      assert (a + b)[..|a + b| - 1] == a + b[..|b| - 1];
    }
  }

  lemma LocatableOne(id: nat, located: set<nat>)
    ensures Locatable([id], located) == if id in located then [id] else []
  {
    assert [id][..0] == [];
  }

  function Adjacent(graph: map<nat, seq<nat>>, id: nat): seq<nat> {
    if id in graph then graph[id] else []
  }

  /** What a batch of edge changes does to one vertex's list; `change` is the store's way of adding or deleting one. */
  function Changed(graph: map<nat, seq<nat>>, edges: seq<(nat, nat)>, change: (seq<nat>, nat) -> seq<nat>): map<nat, seq<nat>> {
    if edges == [] then graph
    else
      var rest := Changed(graph, edges[..|edges| - 1], change);
      var e := edges[|edges| - 1];
      rest[e.0 := change(Adjacent(rest, e.0), e.1)]
  }

  lemma {:induction false} ChangedElsewhere(graph: map<nat, seq<nat>>, edges: seq<(nat, nat)>,
                                            change: (seq<nat>, nat) -> seq<nat>, id: nat)
    requires forall k :: 0 <= k < |edges| ==> edges[k].0 != id
    ensures Adjacent(Changed(graph, edges, change), id) == Adjacent(graph, id)
  {
    if edges != [] {
      ChangedElsewhere(graph, edges[..|edges| - 1], change, id);
    }
  }

  /** The store adds an edge: the neighbour is in the list then, and so is everything that was. */
  ghost predicate Adds(change: (seq<nat>, nat) -> seq<nat>) {
    forall s: seq<nat>, n: nat, x: nat :: x in change(s, n) <==> x in s || x == n
  }

  ghost predicate Removes(change: (seq<nat>, nat) -> seq<nat>) {
    forall s: seq<nat>, n: nat, x: nat :: x in change(s, n) <==> x in s && x != n
  }

  /** A batch of additions adds its own edges and nothing else. */
  lemma {:induction false} EdgesAdded(graph: map<nat, seq<nat>>, edges: seq<(nat, nat)>,
                                      change: (seq<nat>, nat) -> seq<nat>, id: nat, x: nat)
    requires Adds(change)
    ensures x in Adjacent(Changed(graph, edges, change), id) <==> x in Adjacent(graph, id) || (id, x) in edges
  {
    if edges != [] {
      EdgesAdded(graph, edges[..|edges| - 1], change, id, x);
      assert edges == edges[..|edges| - 1] + [edges[|edges| - 1]];
    }
  }

  /** A batch of deletions takes its own edges and nothing else. */
  lemma {:induction false} EdgesRemoved(graph: map<nat, seq<nat>>, edges: seq<(nat, nat)>,
                                        change: (seq<nat>, nat) -> seq<nat>, id: nat, x: nat)
    requires Removes(change)
    ensures x in Adjacent(Changed(graph, edges, change), id) <==> x in Adjacent(graph, id) && (id, x) !in edges
  {
    if edges != [] {
      EdgesRemoved(graph, edges[..|edges| - 1], change, id, x);
      assert edges == edges[..|edges| - 1] + [edges[|edges| - 1]];
    }
  }

  predicate Wanted(was: map<nat, seq<nat>>, node: nat, neighbors: seq<nat>, id: nat, x: nat) {
    x in Adjacent(was, id) || (id == node && x in neighbors) || (id in neighbors && x == node)
  }

  /** Linked: edges from the node to its neighbours and back have come in, and nothing else has changed. */
  ghost predicate Joined(was: map<nat, seq<nat>>, graph: map<nat, seq<nat>>, node: nat, neighbors: seq<nat>) {
    && (forall id: nat, x: nat :: x in Adjacent(graph, id) <==> Wanted(was, node, neighbors, id, x))
    && (forall id: nat :: id != node && id !in neighbors ==> Adjacent(graph, id) == Adjacent(was, id))
  }

  lemma LinkJoins(graph: map<nat, seq<nat>>, node: nat, neighbors: seq<nat>, change: (seq<nat>, nat) -> seq<nat>)
    requires Adds(change)
    ensures Joined(graph, Changed(graph, BothWays(node, neighbors), change), node, neighbors)
  {
    hide Adds;
    var edges := BothWays(node, neighbors);
    var after := Changed(graph, edges, change);
    forall id: nat, x: nat
      ensures x in Adjacent(after, id) <==> Wanted(graph, node, neighbors, id, x)
    {
      EdgesAdded(graph, edges, change, id, x);
      BothWaysIs(node, neighbors, (id, x));
    }
    BothWaysFrom(node, neighbors);
    forall id: nat | id != node && id !in neighbors
      ensures Adjacent(after, id) == Adjacent(graph, id)
    {
      ChangedElsewhere(graph, edges, change, id);
    }
  }

  /** Shrunk: the edges given are gone, and nothing else is. */
  ghost predicate Shrunk(was: map<nat, seq<nat>>, graph: map<nat, seq<nat>>, edges: seq<(nat, nat)>) {
    forall id: nat, x: nat :: x in Adjacent(graph, id) <==> x in Adjacent(was, id) && (id, x) !in edges
  }

  lemma EdgesShrink(graph: map<nat, seq<nat>>, edges: seq<(nat, nat)>, change: (seq<nat>, nat) -> seq<nat>)
    requires Removes(change)
    ensures Shrunk(graph, Changed(graph, edges, change), edges)
  {
    hide Removes;
    var after := Changed(graph, edges, change);
    forall id: nat, x: nat
      ensures x in Adjacent(after, id) <==> x in Adjacent(graph, id) && (id, x) !in edges
    {
      EdgesRemoved(graph, edges, change, id, x);
    }
  }

  lemma JoinedThenShrunk(was: map<nat, seq<nat>>, joined: map<nat, seq<nat>>, graph: map<nat, seq<nat>>, node: nat,
                         neighbors: seq<nat>, surplus: seq<(nat, nat)>)
    requires Joined(was, joined, node, neighbors) && Shrunk(joined, graph, surplus)
    ensures LinkedBut(was, graph, node, neighbors, surplus)
  {
    forall id: nat, x: nat
      ensures x in Adjacent(graph, id) <==> Wanted(was, node, neighbors, id, x) && (id, x) !in surplus
    {
      assert x in Adjacent(joined, id) <==> Wanted(was, node, neighbors, id, x);
    }
  }

  class EdgeView {
    const add: (seq<nat>, nat) -> seq<nat>
    const remove: (seq<nat>, nat) -> seq<nat>

    var graph: map<nat, seq<nat>>
    var cache: map<nat, seq<nat>>
    var located: set<nat>

    /** Cached lists are the graph's, and only located nodes are cached. */
    ghost predicate Coherent()
      reads this
    {
      forall id :: id in cache ==> id in located && cache[id] == Adjacent(graph, id)
    }

    /** What a traversal should see of a node. */
    ghost function Edges(id: nat): seq<nat>
      reads this
    {
      Locatable(Adjacent(graph, id), located)
    }

    constructor (add: (seq<nat>, nat) -> seq<nat>, remove: (seq<nat>, nat) -> seq<nat>, graph: map<nat, seq<nat>>,
                 located: set<nat>)
      ensures Coherent() && this.graph == graph && this.located == located
    {
      this.add, this.remove, this.graph, this.located := add, remove, graph, located;
      cache := map[];
    }

    method DropUnlocatable(ids: seq<nat>) returns (kept: seq<nat>)
      ensures kept == Locatable(ids, located)
    {
      kept := [];
      for k := 0 to |ids|
        invariant kept == Locatable(ids[..k], located)
      {
        assert ids[..k + 1][..k] == ids[..k];
        if ids[k] in located {
          kept := kept + [ids[k]];
        }
      }
      assert ids[..|ids|] == ids;
    }

    /** The graph's adjacency of a located node without unlocatable neighbours, unless the graph cannot be read. */
    method GetEdgesCached(id: nat, readOk: bool, evicted: set<nat>) returns (list: seq<nat>)
      requires Coherent() && id in located
      modifies this`cache
      ensures Coherent() && (forall n :: n in list ==> n in located)
      ensures readOk || id in old(cache) ==> list == Edges(id)
      ensures !readOk && id !in old(cache) ==> list == [] && cache == old(cache)
      ensures id in old(cache) ==> cache == old(cache)
      ensures readOk && id !in old(cache) ==> cache == (old(cache) - evicted)[id := Adjacent(graph, id)]
    {
      LocatableIn(Adjacent(graph, id), located);
      if id in cache {
        list := DropUnlocatable(cache[id]);
        return;
      }
      if !readOk {
        return [];
      }
      cache := (cache - evicted)[id := Adjacent(graph, id)];
      list := DropUnlocatable(Adjacent(graph, id));
    }

    /** Both directions of every new edge go to the graph; the cache drops the neighbours, not the node. */
    method LinkNeighbors(node: nat, neighbors: seq<nat>, ok: bool)
      requires Coherent() && node !in cache
      modifies this`graph, this`cache
      ensures Coherent() && forall id :: id in cache <==> id in old(cache) && (ok ==> id !in neighbors)
      ensures graph == if ok then Changed(old(graph), BothWays(node, neighbors), add) else old(graph)
      ensures ok && Adds(add) ==> Joined(old(graph), graph, node, neighbors)
    {
      if !ok {
        return;
      }
      var edges := BothWaysLoop(node, neighbors);
      BothWaysFrom(node, neighbors);
      forall id | id in cache && id !in neighbors
        ensures Adjacent(Changed(graph, edges, add), id) == Adjacent(graph, id)
      {
        ChangedElsewhere(graph, edges, add, id);
      }
      graph := Changed(graph, edges, add);
      var before := cache;
      for k := 0 to |neighbors|
        invariant graph == Changed(old(graph), edges, add)
        invariant forall id :: id in cache <==> id in before && id !in neighbors[..k]
        invariant forall id :: id in cache ==> cache[id] == before[id]
      {
        assert neighbors[..k + 1] == neighbors[..k] + [neighbors[k]];
        cache := cache - {neighbors[k]};
      }
      assert neighbors[..|neighbors|] == neighbors;
      if Adds(add) {
        LinkJoins(old(graph), node, neighbors, add);
      }
    }

    method BothWaysLoop(node: nat, neighbors: seq<nat>) returns (edges: seq<(nat, nat)>)
      ensures edges == BothWays(node, neighbors)
    {
      edges := [];
      for k := 0 to |neighbors|
        invariant edges == BothWays(node, neighbors[..k])
      {
        assert neighbors[..k + 1][..k] == neighbors[..k];
        edges := edges + [(node, neighbors[k]), (neighbors[k], node)];
      }
      assert neighbors[..|neighbors|] == neighbors;
    }

    /** Shrinking deletes edges and drops both ends of each from the cache. */
    method DeleteEdges(edges: seq<(nat, nat)>, ok: bool)
      requires Coherent()
      modifies this`graph, this`cache
      ensures Coherent() && forall id :: id in cache <==> id in old(cache) && (ok ==> !Touches(edges, id))
      ensures graph == if ok then Changed(old(graph), edges, remove) else old(graph)
      ensures ok && Removes(remove) ==> Shrunk(old(graph), graph, edges)
    {
      if !ok {
        return;
      }
      var before := cache;
      for k := 0 to |edges|
        invariant graph == old(graph)
        invariant forall id :: id in cache <==> id in before && !Touches(edges[..k], id)
        invariant forall id :: id in cache ==> cache[id] == before[id]
      {
        assert edges[..k + 1] == edges[..k] + [edges[k]];
        forall id
          ensures Touches(edges[..k + 1], id) <==> Touches(edges[..k], id) || id == edges[k].0 || id == edges[k].1
        {
          TouchesSnoc(edges[..k], edges[k], id);
        }
        cache := cache - {edges[k].0} - {edges[k].1};
      }
      assert edges[..|edges|] == edges;
      forall id | id in cache
        ensures Adjacent(Changed(graph, edges, remove), id) == Adjacent(graph, id)
      {
        ChangedElsewhere(graph, edges, remove, id);
      }
      if Removes(remove) {
        EdgesShrink(graph, edges, remove);
      }
      graph := Changed(graph, edges, remove);
    }

    /** A traversal: it asks for the edges of the entry and of nodes it has been told of, in any order. */
    method Walk(entry: nat, picks: seq<nat>, evicted: set<nat>) returns (found: set<nat>)
      requires Coherent() && entry in located
      modifies this`cache
      ensures Coherent() && entry in found && found <= located
    {
      found := {entry};
      for k := 0 to |picks|
        invariant Coherent() && entry in found && found <= located
      {
        if picks[k] in found {
          var list := GetEdgesCached(picks[k], true, evicted);
          found := found + set n | n in list;
        }
      }
    }

    /**
       A whole insert: search for neighbours, store the vector, link, shrink. The
       node has no location before, so it cannot have been cached, whatever edges a
       recovered graph may already have for it. The first node of an index finds no
       entry point: it is linked to nobody, and stored only after that.
     */
    method InsertNode(node: nat, entry: Option<nat>, picks: seq<nat>, evicted: set<nat>, m: nat, surplus: seq<(nat, nat)>,
                      linked: bool) returns (neighbors: seq<nat>)
      requires Coherent() && (entry.Some? ==> entry.value in located) && node !in located
      modifies this
      ensures Coherent() && located == old(located) + Stored(node, entry, linked)
      ensures |neighbors| <= m && forall n :: n in neighbors ==> n in old(located)
      ensures entry.None? || !linked ==> graph == old(graph)
      ensures entry.Some? && m > 0 ==> neighbors != []
      ensures entry.Some? && linked && Adds(add) && Removes(remove) ==> LinkedBut(old(graph), graph, node, neighbors, surplus)
    {
      hide Joined, Shrunk, Adds, Removes, LinkedBut, Locatable, Changed, BothWays, Adjacent, Touches;
      neighbors := [];
      if entry.None? {
        NothingLinked(graph, node, add);
        LinkNeighbors(node, [], linked);
        if linked {
          located := located + {node};
        }
        return;
      }
      var found := Walk(entry.value, picks, evicted);
      neighbors := Select(found, m);
      located := located + {node};
      LinkNeighbors(node, neighbors, linked);
      if linked {
        ghost var joined := graph;
        for k := 0 to |neighbors|
          invariant Coherent() && located == old(located) + {node} && graph == joined
        {
          var list := GetEdgesCached(neighbors[k], true, evicted);
        }
        DeleteEdges(surplus, true);
        if Adds(add) && Removes(remove) {
          JoinedThenShrunk(old(graph), joined, graph, node, neighbors, surplus);
        }
      }
    }

    /** Some of the nodes found. */
    method Select(found: set<nat>, m: nat) returns (neighbors: seq<nat>)
      ensures |neighbors| <= m && forall n :: n in neighbors ==> n in found
      ensures found != {} && m > 0 ==> neighbors != []
    {
      neighbors := [];
      var left := found;
      while left != {} && |neighbors| < m
        invariant left <= found && forall n :: n in neighbors ==> n in found
        invariant |neighbors| <= m && (left != found ==> neighbors != [])
        decreases left
      {
        var n :| n in left;
        neighbors := neighbors + [n];
        left := left - {n};
      }
    }
  }

  /** What an insert stores: the node, unless it was to be the first and could not be put into the graph. */
  function Stored(node: nat, entry: Option<nat>, linked: bool): set<nat> {
    if entry.None? && !linked then {} else {node}
  }

  function BothWays(node: nat, neighbors: seq<nat>): seq<(nat, nat)> {
    if neighbors == [] then []
    else BothWays(node, neighbors[..|neighbors| - 1])
         + [(node, neighbors[|neighbors| - 1]), (neighbors[|neighbors| - 1], node)]
  }

  /** The edges of a link: from the node to each neighbour, and back. */
  lemma {:induction false} BothWaysIs(node: nat, neighbors: seq<nat>, e: (nat, nat))
    ensures e in BothWays(node, neighbors) <==> exists n :: n in neighbors && (e == (node, n) || e == (n, node))
  {
    if neighbors != [] {
      var last := neighbors[|neighbors| - 1];
      BothWaysIs(node, neighbors[..|neighbors| - 1], e);
      assert neighbors == neighbors[..|neighbors| - 1] + [last];
      assert last in neighbors;
    }
  }

  lemma NothingLinked(graph: map<nat, seq<nat>>, node: nat, change: (seq<nat>, nat) -> seq<nat>)
    ensures Changed(graph, BothWays(node, []), change) == graph
  {}

  predicate Touches(edges: seq<(nat, nat)>, id: nat) {
    exists k :: 0 <= k < |edges| && (edges[k].0 == id || edges[k].1 == id)
  }

  lemma TouchesSnoc(edges: seq<(nat, nat)>, e: (nat, nat), id: nat)
    ensures Touches(edges + [e], id) <==> Touches(edges, id) || id == e.0 || id == e.1
  {
    var more := edges + [e];
    assert more[|edges|] == e;
    if Touches(edges, id) {
      var k :| 0 <= k < |edges| && (edges[k].0 == id || edges[k].1 == id);
      assert more[k] == edges[k];
    }
    if Touches(more, id) {
      var k :| 0 <= k < |more| && (more[k].0 == id || more[k].1 == id);
      assert k < |edges| ==> more[k] == edges[k];
    }
  }

  /** Linked and then shrunk: joined to the neighbours but for the surplus edges, and nothing else is different. */
  ghost predicate LinkedBut(was: map<nat, seq<nat>>, graph: map<nat, seq<nat>>, node: nat, neighbors: seq<nat>,
                            surplus: seq<(nat, nat)>)
  {
    forall id: nat, x: nat :: x in Adjacent(graph, id) <==> Wanted(was, node, neighbors, id, x) && (id, x) !in surplus
  }

  lemma {:induction false} BothWaysFrom(node: nat, neighbors: seq<nat>)
    ensures forall k :: 0 <= k < |BothWays(node, neighbors)| ==>
              BothWays(node, neighbors)[k].0 == node || BothWays(node, neighbors)[k].0 in neighbors
  {
    if neighbors != [] {
      BothWaysFrom(node, neighbors[..|neighbors| - 1]);
    }
  }

  datatype Op =
    | Search(entry: Option<nat>, picks: seq<nat>)
    | Insert(node: nat, entry: Option<nat>, picks: seq<nat>, m: nat, surplus: seq<(nat, nat)>, linked: bool)

  function Inserted(located: set<nat>, ops: seq<Op>): set<nat> {
    if ops == [] then located
    else
      var before := Inserted(located, ops[..|ops| - 1]);
      var op := ops[|ops| - 1];
      if op.Insert? then before + Stored(op.node, op.entry, op.linked) else before
  }

  /** Searches and inserts start at stored nodes or find no entry point, and each node is stored once. */
  ghost predicate Possible(located: set<nat>, ops: seq<Op>) {
    forall k :: 0 <= k < |ops| ==>
      && (ops[k].entry.Some? ==> ops[k].entry.value in Inserted(located, ops[..k]))
      && (ops[k].Insert? ==> ops[k].node !in Inserted(located, ops[..k]))
  }

  /** After any sequence of searches and inserts, cached or not, a lookup is the graph's adjacency. */
  method RunAll(view: EdgeView, ops: seq<Op>, evicted: set<nat>, probe: nat) returns (list: seq<nat>)
    requires view.Coherent() && Possible(view.located, ops) && probe in Inserted(view.located, ops)
    modifies view
    ensures view.Coherent() && view.located == Inserted(old(view.located), ops)
    ensures list == Locatable(Adjacent(view.graph, probe), view.located)
  {
    for k := 0 to |ops|
      invariant view.Coherent() && view.located == Inserted(old(view.located), ops[..k])
    {
      assert ops[..k + 1][..k] == ops[..k];
      match ops[k] {
        case Search(entry, picks) =>
          if entry.Some? {
            var found := view.Walk(entry.value, picks, evicted);
          }
        case Insert(node, entry, picks, m, surplus, linked) =>
          var neighbors := view.InsertNode(node, entry, picks, evicted, m, surplus, linked);
      }
    }
    assert ops[..|ops|] == ops;
    list := view.GetEdgesCached(probe, true, evicted);
  }

  /** Why the node must not be cached yet: linking drops its neighbour from the cache and leaves its own list, which is stale. */
  lemma CachedNodeGoesStale(graph: map<nat, seq<nat>>, cache: map<nat, seq<nat>>, node: nat, neighbor: nat)
    requires node != neighbor && node in cache && cache[node] == Adjacent(graph, node)
    ensures var append := (s: seq<nat>, n: nat) => s + [n]; var left := cache - {neighbor};
            node in left && left[node] != Adjacent(Changed(graph, BothWays(node, [neighbor]), append), node)
  {
    var append := (s: seq<nat>, n: nat) => s + [n];
    var edges := [(node, neighbor), (neighbor, node)];
    var none: seq<(nat, nat)> := [];
    assert none + edges == edges;
    assert BothWays(node, [neighbor]) == edges;
    assert edges[..1] == [(node, neighbor)] && [(node, neighbor)][..0] == [];
    var own := Adjacent(graph, node);
    assert append(own, neighbor) == own + [neighbor];
    assert Changed(graph, [(node, neighbor)], append) == graph[node := own + [neighbor]];
    ChangedOnce(graph[node := own + [neighbor]], graph, edges, append, node);
    assert |own + [neighbor]| == |own| + 1;
  }

  lemma ChangedOnce(before: map<nat, seq<nat>>, graph: map<nat, seq<nat>>, edges: seq<(nat, nat)>,
                    change: (seq<nat>, nat) -> seq<nat>, id: nat)
    requires edges != [] && edges[|edges| - 1].0 != id && before == Changed(graph, edges[..|edges| - 1], change)
    ensures Adjacent(Changed(graph, edges, change), id) == Adjacent(before, id)
  {}
}
