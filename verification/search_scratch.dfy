/**
 Epoch-stamped visited marks (include/astervec_index.h): instead of clearing its
 marks, a search bumps a version; the versions wrap around. Every search still
 sees a fresh set.
 */
module SearchScratches {
  import opened IdTypes

  const MAP_VERSIONS: nat := 0x1_0000_0000
  const DENSE_VERSIONS: nat := 0x1_0000
  const GROWTH: nat := 4096

  class SearchScratch {
    const denseEnabled: bool

    var visitedMap: map<nat, nat>
    var visitedVersion: nat
    var visitedDense: seq<nat>
    var denseVersion: nat

    /** The ids visited since the search began. */
    ghost var visited: set<nat>
    ghost var begun: bool

    predicate Dense(id: nat) {
      denseEnabled && id < UPDATE_ID_BIT
    }

    /** No stamp is ahead of the version it was made with. */
    ghost predicate StampsOk()
      reads this
    {
      && visitedVersion < MAP_VERSIONS && denseVersion < DENSE_VERSIONS
      && (forall id :: id in visitedMap ==> !Dense(id) && visitedMap[id] <= visitedVersion)
      && (forall i :: 0 <= i < |visitedDense| ==> visitedDense[i] <= denseVersion)
    }

    ghost predicate Marked(id: nat)
      reads this
    {
      if Dense(id) then id < |visitedDense| && visitedDense[id] == denseVersion
      else id in visitedMap && visitedMap[id] == visitedVersion
    }

    /** In a search, exactly the visited ids carry the current stamp. */
    ghost predicate Valid()
      reads this
    {
      StampsOk() && (begun ==> visitedVersion > 0 && (denseEnabled ==> denseVersion > 0)
                               && forall id: nat :: Marked(id) <==> id in visited)
    }

    constructor (denseEnabled: bool)
      ensures Valid() && !begun && this.denseEnabled == denseEnabled
    {
      this.denseEnabled := denseEnabled;
      visitedMap, visitedVersion, visitedDense, denseVersion := map[], 0, [], 0;
      visited, begun := {}, false;
    }

    /** Starts a search: nothing is visited, also when a version wraps around. */
    method BeginSearch()
      requires Valid()
      modifies this
      ensures Valid() && begun && visited == {}
    {
      visitedVersion := (visitedVersion + 1) % MAP_VERSIONS;
      if visitedVersion == 0 {
        visitedMap := map[];
        visitedVersion := 1;
      }
      if denseEnabled {
        denseVersion := (denseVersion + 1) % DENSE_VERSIONS;
        if denseVersion == 0 {
          visitedDense := seq(|visitedDense|, _ => 0);
          denseVersion := 1;
        }
      }
      visited, begun := {}, true;
    }

    /** Marks an id and tells whether this was its first visit in the search. */
    method VisitedInsert(id: nat) returns (first: bool)
      requires Valid() && begun
      modifies this
      ensures Valid() && begun
      ensures first == (id !in old(visited)) && visited == old(visited) + {id}
    {
      assert Marked(id) <==> id in visited;
      if Dense(id) {
        if id >= |visitedDense| {
          visitedDense := visitedDense + seq(id + GROWTH - |visitedDense|, _ => 0);
        }
        first := visitedDense[id] != denseVersion;
        visitedDense := visitedDense[id := denseVersion];
      } else {
        first := id !in visitedMap || visitedMap[id] != visitedVersion;
        visitedMap := visitedMap[id := visitedVersion];
      }
      visited := visited + {id};
    }
  }

  /** What fresh sets would answer: an id is new if it has not occurred before in the same search. */
  function FirstVisit(ids: seq<nat>, k: nat): bool
    requires k < |ids|
  {
    ids[k] !in ids[..k]
  }

  /** Any number of searches on one scratch, each answered as by a fresh set. */
  method RunSearches(denseEnabled: bool, searches: seq<seq<nat>>) returns (answers: seq<seq<bool>>)
    ensures |answers| == |searches|
    ensures forall s :: 0 <= s < |searches| ==> |answers[s]| == |searches[s]|
    ensures forall s, k :: 0 <= s < |searches| && 0 <= k < |searches[s]| ==> answers[s][k] == FirstVisit(searches[s], k)
  {
    var scratch := new SearchScratch(denseEnabled);
    answers := [];
    for s := 0 to |searches|
      invariant fresh(scratch) && scratch.Valid() && |answers| == s
      invariant forall t :: 0 <= t < s ==> |answers[t]| == |searches[t]|
      invariant forall t, k :: 0 <= t < s && 0 <= k < |searches[t]| ==> answers[t][k] == FirstVisit(searches[t], k)
    {
      scratch.BeginSearch();
      var row := RunSearch(scratch, searches[s]);
      answers := answers + [row];
    }
  }

  method RunSearch(scratch: SearchScratch, ids: seq<nat>) returns (row: seq<bool>)
    requires scratch.Valid() && scratch.begun && scratch.visited == {}
    modifies scratch
    ensures scratch.Valid() && |row| == |ids|
    ensures forall k :: 0 <= k < |ids| ==> row[k] == FirstVisit(ids, k)
  {
    row := [];
    for k := 0 to |ids|
      invariant scratch.Valid() && scratch.begun && |row| == k
      invariant forall id :: id in scratch.visited <==> id in ids[..k]
      invariant forall j :: 0 <= j < k ==> row[j] == FirstVisit(ids, j)
    {
      assert ids[..k + 1] == ids[..k] + [ids[k]];
      var first := scratch.VisitedInsert(ids[k]);
      row := row + [first];
    }
  }
}
