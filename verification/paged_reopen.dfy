/**
 Checkpoint metadata of the paged vector store (include/disk_vector.h): what is
 saved of the allocator and the id maps, and how the slot lists are rebuilt.
 */
module PagedReopen {
  import opened Basics
  import opened IdTypes
  import opened PagedTiers
  import opened PagedAlloc
  import opened PagedIds

  datatype Meta = Meta(version: nat, vectorsPerPage: nat, pages: seq<PageMeta>, keys: seq<nat>,
                       idLoc: map<nat, Loc>, updateLoc: map<nat, Loc>)

  const MAX_KNOWN_VERSION: nat := 2

  predicate InUsedSlots(pages: seq<PageMeta>, l: Loc) {
    l.page < |pages| && l.slot < pages[l.page].usedSlots
  }

  /** What a reader of the metadata checks; update locations are not checked. */
  ghost predicate Accepted(m: Meta, n: nat) {
    1 <= m.version <= MAX_KNOWN_VERSION && m.vectorsPerPage == n && PagesAccepted(m, n)
  }

  ghost predicate PagesAccepted(m: Meta, n: nat) {
    && (forall p :: 0 <= p < |m.pages| ==> m.pages[p].usedSlots <= n)
    && (forall id :: id in m.idLoc ==> InUsedSlots(m.pages, m.idLoc[id]))
  }

  /** The metadata of a store whose slots hold `want` and are owned as in `owner`, none left over. */
  ghost predicate Describes<R>(m: Meta, n: nat, want: map<Loc, R>, owner: map<Loc, nat>) {
    && m.version == MAX_KNOWN_VERSION && m.vectorsPerPage == n > 0
    && NoDup(m.keys) && PagesOk(m.pages, |m.keys|, n) && OwnedOk(m.pages, want.Keys) && Complete(m.pages, want.Keys)
    && IdsOk(m.idLoc, m.updateLoc, owner) && owner.Keys == want.Keys && Tight(m.pages, n)
  }

  lemma DescribedIsAccepted<R>(m: Meta, n: nat, want: map<Loc, R>, owner: map<Loc, nat>)
    requires Describes(m, n, want, owner)
    ensures Accepted(m, n)
  {}

  // ----- Slots in use -----

  /** Every slot of one of the id maps that lies below its page's used slots. */
  ghost function InUse(m: Meta): set<Loc> {
    (set id | id in m.idLoc :: m.idLoc[id]) +
    (set id | id in m.updateLoc && InUsedSlots(m.pages, m.updateLoc[id]) :: m.updateLoc[id])
  }

  /** Of a described store that is every handed-out slot. */
  lemma DescribedInUse<R>(m: Meta, n: nat, want: map<Loc, R>, owner: map<Loc, nat>)
    requires Describes(m, n, want, owner)
    ensures InUse(m) == want.Keys
  {
    forall l | l in want
      ensures l in InUse(m)
    {
      var id := owner[l];
      if id < UPDATE_ID_BIT {
        assert m.idLoc[id] == l;
      } else {
        assert InUsedSlots(m.pages, m.updateLoc[id]);
      }
    }
  }

  // ----- Rebuilding the slot lists -----

  /** The free slots among the first `upTo` of a page. */
  function FreeOn(inUse: set<Loc>, p: nat, upTo: nat): seq<Loc> {
    if upTo == 0 then []
    else if Loc(p, upTo - 1) in inUse then FreeOn(inUse, p, upTo - 1)
    else FreeOn(inUse, p, upTo - 1) + [Loc(p, upTo - 1)]
  }

  /** The free slots of a section on its first pages. */
  function FreeIn(pages: seq<PageMeta>, inUse: set<Loc>, x: nat, upTo: nat): seq<Loc>
    requires upTo <= |pages|
  {
    if upTo == 0 then []
    else if pages[upTo - 1].sectionIdx == x then
      FreeIn(pages, inUse, x, upTo - 1) + FreeOn(inUse, upTo - 1, pages[upTo - 1].usedSlots)
    else FreeIn(pages, inUse, x, upTo - 1)
  }

  /** The pages of a section with room, among the first ones. */
  function OpenIn(pages: seq<PageMeta>, n: nat, x: nat, upTo: nat): seq<nat>
    requires upTo <= |pages|
  {
    if upTo == 0 then []
    else if pages[upTo - 1].sectionIdx == x && pages[upTo - 1].usedSlots < n then
      OpenIn(pages, n, x, upTo - 1) + [upTo - 1]
    else OpenIn(pages, n, x, upTo - 1)
  }

  lemma {:induction false} FreeOnHas(inUse: set<Loc>, p: nat, upTo: nat, l: Loc)
    ensures l in FreeOn(inUse, p, upTo) <==> l.page == p && l.slot < upTo && l !in inUse
  {
    if upTo > 0 {
      FreeOnHas(inUse, p, upTo - 1, l);
      assert Loc(l.page, l.slot) == l;
    }
  }

  /** The rebuilt free list offers a slot iff it is below its page's used slots and nobody owns it. */
  lemma {:induction false} FreeInHas(pages: seq<PageMeta>, inUse: set<Loc>, x: nat, upTo: nat, l: Loc)
    requires upTo <= |pages|
    ensures l in FreeIn(pages, inUse, x, upTo) <==>
              l.page < upTo && pages[l.page].sectionIdx == x && l.slot < pages[l.page].usedSlots && l !in inUse
  {
    if upTo > 0 {
      FreeInHas(pages, inUse, x, upTo - 1, l);
      FreeOnHas(inUse, upTo - 1, pages[upTo - 1].usedSlots, l);
    }
  }

  lemma {:induction false} FreeOnOnce(inUse: set<Loc>, p: nat, upTo: nat)
    ensures NoDup(FreeOn(inUse, p, upTo))
  {
    if upTo > 0 {
      FreeOnOnce(inUse, p, upTo - 1);
      FreeOnHas(inUse, p, upTo - 1, Loc(p, upTo - 1));
    }
  }

  /** And no slot twice. */
  lemma {:induction false} FreeInOnce(pages: seq<PageMeta>, inUse: set<Loc>, x: nat, upTo: nat)
    requires upTo <= |pages|
    ensures NoDup(FreeIn(pages, inUse, x, upTo))
  {
    if upTo > 0 {
      FreeInOnce(pages, inUse, x, upTo - 1);
      var before, more := FreeIn(pages, inUse, x, upTo - 1), FreeOn(inUse, upTo - 1, pages[upTo - 1].usedSlots);
      FreeOnOnce(inUse, upTo - 1, pages[upTo - 1].usedSlots);
      forall l | l in before
        ensures l !in more
      {
        FreeInHas(pages, inUse, x, upTo - 1, l);
        FreeOnHas(inUse, upTo - 1, pages[upTo - 1].usedSlots, l);
      }
      NoDupConcat(before, more);
    }
  }

  lemma NoDupConcat<T>(a: seq<T>, b: seq<T>)
    requires NoDup(a) && NoDup(b) && forall x :: x in a ==> x !in b
    ensures NoDup(a + b)
  {
    var c := a + b;
    forall i, j | 0 <= i < j < |c|
      ensures c[i] != c[j]
    {
      if i < |a| <= j {
        assert c[i] == a[i] && c[j] == b[j - |a|];
        assert a[i] in a && b[j - |a|] in b;
      }
    }
  }

  lemma {:induction false} OpenInOk(pages: seq<PageMeta>, n: nat, x: nat, upTo: nat)
    requires upTo <= |pages|
    ensures NoDup(OpenIn(pages, n, x, upTo))
    ensures forall p: nat :: p in OpenIn(pages, n, x, upTo) <==> p < upTo && HasRoom(pages, n, x, p)
  {
    if upTo > 0 {
      var before := OpenIn(pages, n, x, upTo - 1);
      OpenInOk(pages, n, x, upTo - 1);
      assert upTo - 1 !in before;
      if HasRoom(pages, n, x, upTo - 1) {
        NoDupConcat(before, [upTo - 1]);
      }
    }
  }

  /** The lists hold, section by section, what the first pages give. */
  ghost predicate Rebuilt(lists: seq<SlotLists>, pages: seq<PageMeta>, n: nat, inUse: set<Loc>, upTo: nat)
    requires |lists| == SHARDS && upTo <= |pages|
  {
    forall x: nat :: RebuiltFor(lists, pages, n, inUse, upTo, x)
  }

  ghost predicate RebuiltFor(lists: seq<SlotLists>, pages: seq<PageMeta>, n: nat, inUse: set<Loc>, upTo: nat, x: nat)
    requires |lists| == SHARDS && upTo <= |pages|
  {
    && ListAt(lists[Shard(x)].openPages, x) == OpenIn(pages, n, x, upTo)
    && ListAt(lists[Shard(x)].freeSlots, x) == FreeIn(pages, inUse, x, upTo)
  }

  /** One more page's room and free slots. */
  function AddPage(lists: seq<SlotLists>, pages: seq<PageMeta>, n: nat, inUse: set<Loc>, p: nat): (after: seq<SlotLists>)
    requires |lists| == SHARDS && p < |pages|
    ensures |after| == SHARDS
  {
    var x := pages[p].sectionIdx;
    var listed := if pages[p].usedSlots < n then SetOpen(lists, x, ListAt(lists[Shard(x)].openPages, x) + [p]) else lists;
    SetFree(listed, x, ListAt(listed[Shard(x)].freeSlots, x) + FreeOn(inUse, p, pages[p].usedSlots))
  }

  lemma AddPageRebuilds(lists: seq<SlotLists>, pages: seq<PageMeta>, n: nat, inUse: set<Loc>, p: nat)
    requires |lists| == SHARDS && p < |pages| && Rebuilt(lists, pages, n, inUse, p)
    ensures Rebuilt(AddPage(lists, pages, n, inUse, p), pages, n, inUse, p + 1)
  {
    var x := pages[p].sectionIdx;
    var open := ListAt(lists[Shard(x)].openPages, x) + [p];
    var listed := if pages[p].usedSlots < n then SetOpen(lists, x, open) else lists;
    var free := ListAt(listed[Shard(x)].freeSlots, x) + FreeOn(inUse, p, pages[p].usedSlots);
    var after, next := AddPage(lists, pages, n, inUse, p), p + 1;
    forall y: nat
      ensures RebuiltFor(after, pages, n, inUse, next, y)
    {
      hide SetOpen, SetFree, ListAt, FreeOn, Shard;
      assert RebuiltFor(lists, pages, n, inUse, p, y) && RebuiltFor(lists, pages, n, inUse, p, x);
      SetOpenLists(lists, x, open, y);
      SetOpenLists(lists, x, open, x);
      SetFreeLists(listed, x, free, y);
    }
  }

  /** Rebuilt for a store without ownerless slots, the lists offer exactly the room on its pages. */
  lemma RebuiltListsOk(lists: seq<SlotLists>, pages: seq<PageMeta>, n: nat, used: set<Loc>)
    requires |lists| == SHARDS && Rebuilt(lists, pages, n, used, |pages|) && Complete(pages, used)
    ensures ListsOk(lists, pages, n, used)
  {
    hide RebuiltFor, OpenOk, FreeOk, ListAt, Shard, Complete;
    forall x: nat
      ensures OpenOk(pages, n, x, ListAt(lists[Shard(x)].openPages, x))
      ensures FreeOk(pages, used, x, ListAt(lists[Shard(x)].freeSlots, x))
    {
      assert RebuiltFor(lists, pages, n, used, |pages|, x);
      RebuiltSection(lists, pages, n, used, x);
    }
  }

  lemma RoomOnPages(pages: seq<PageMeta>, n: nat, x: nat)
    ensures forall p: nat :: HasRoom(pages, n, x, p) ==> p < |pages|
  {}

  lemma RebuiltSection(lists: seq<SlotLists>, pages: seq<PageMeta>, n: nat, used: set<Loc>, x: nat)
    requires |lists| == SHARDS && RebuiltFor(lists, pages, n, used, |pages|, x) && Complete(pages, used)
    ensures OpenOk(pages, n, x, ListAt(lists[Shard(x)].openPages, x))
    ensures FreeOk(pages, used, x, ListAt(lists[Shard(x)].freeSlots, x))
  {
    hide HasRoom, ListAt, Shard, OpenIn, Complete;
    OpenInOk(pages, n, x, |pages|);
    assert forall p: nat :: HasRoom(pages, n, x, p) ==> p < |pages| by { RoomOnPages(pages, n, x); }
    NothingToOffer(pages, used, x);
  }

  /** Without ownerless slots there is nothing to offer again. */
  lemma NothingToOffer(pages: seq<PageMeta>, used: set<Loc>, x: nat)
    requires Complete(pages, used)
    ensures FreeIn(pages, used, x, |pages|) == []
  {
    hide FreeIn, Complete;
    var free := FreeIn(pages, used, x, |pages|);
    if free != [] {
      FreeInHas(pages, used, x, |pages|, free[0]);
      EverySlotOwned(pages, used, free[0]);
    }
  }

  // ----- Section keys -----

  function KeyIndex(keys: seq<nat>): map<nat, nat> {
    if keys == [] then map[] else KeyIndex(keys[..|keys| - 1])[keys[|keys| - 1] := |keys| - 1]
  }

  /** Distinct keys index back to where they stand. */
  lemma {:induction false} KeyIndexOk(keys: seq<nat>)
    requires NoDup(keys)
    ensures SectionsOk(KeyIndex(keys), keys)
  {
    if keys != [] {
      var n := |keys| - 1;
      KeyIndexOk(keys[..n]);
      forall i | 0 <= i < |keys|
        ensures keys[i] in KeyIndex(keys) && KeyIndex(keys)[keys[i]] == i
      {
        if i < n {
          assert keys[..n][i] == keys[i];
        }
      }
    }
  }

  lemma KeysOnce(keyToIdx: map<nat, nat>, keys: seq<nat>)
    requires SectionsOk(keyToIdx, keys)
    ensures NoDup(keys)
  {}

  /** Takes the page entries over, refusing a page with more slots than fit. */
  method ReadPages(saved: seq<PageMeta>, n: nat) returns (ok: bool, pages: seq<PageMeta>)
    ensures ok == forall p :: 0 <= p < |saved| ==> saved[p].usedSlots <= n
    ensures ok ==> pages == saved
  {
    pages := [];
    for p := 0 to |saved|
      invariant pages == saved[..p] && forall q :: 0 <= q < p ==> saved[q].usedSlots <= n
    {
      if saved[p].usedSlots > n {
        return false, pages;
      }
      pages := pages + [saved[p]];
    }
    return true, pages;
  }

  method IndexKeys(keys: seq<nat>) returns (index: map<nat, nat>)
    ensures index == KeyIndex(keys)
  {
    index := map[];
    for i := 0 to |keys|
      invariant index == KeyIndex(keys[..i])
    {
      assert keys[..i + 1][..i] == keys[..i];
      index := index[keys[i] := i];
    }
    assert keys[..|keys|] == keys;
  }

  /** Marks the slots the two id maps use: a direct id outside the used slots is an error, an update id is skipped. */
  method MarkInUse(m: Meta) returns (ok: bool, inUse: set<Loc>)
    ensures ok == forall id :: id in m.idLoc ==> InUsedSlots(m.pages, m.idLoc[id])
    ensures ok <==> forall id :: id in m.idLoc ==>
              m.idLoc[id].page < |m.pages| && m.idLoc[id].slot < m.pages[m.idLoc[id].page].usedSlots
    ensures ok ==> inUse == InUse(m)
  {
    inUse := {};
    var todo := m.idLoc.Keys;
    while todo != {}
      invariant todo <= m.idLoc.Keys
      invariant forall id :: id in m.idLoc && id !in todo ==> InUsedSlots(m.pages, m.idLoc[id])
      invariant inUse == set id | id in m.idLoc && id !in todo :: m.idLoc[id]
    {
      var id :| id in todo;
      if !InUsedSlots(m.pages, m.idLoc[id]) {
        return false, inUse;
      }
      inUse := inUse + {m.idLoc[id]};
      todo := todo - {id};
    }
    ghost var direct := inUse;
    todo := m.updateLoc.Keys;
    while todo != {}
      invariant todo <= m.updateLoc.Keys
      invariant inUse == direct + set id | id in m.updateLoc && id !in todo && InUsedSlots(m.pages, m.updateLoc[id]) :: m.updateLoc[id]
    {
      var id :| id in todo;
      if InUsedSlots(m.pages, m.updateLoc[id]) {
        inUse := inUse + {m.updateLoc[id]};
      }
      todo := todo - {id};
    }
    return true, inUse;
  }

  /** Collects the free slots among a page's used ones. */
  method FreeSlotsOn(inUse: set<Loc>, p: nat, upTo: nat) returns (free: seq<Loc>)
    ensures free == FreeOn(inUse, p, upTo)
  {
    free := [];
    for slot := 0 to upTo
      invariant free == FreeOn(inUse, p, slot)
    {
      if Loc(p, slot) !in inUse {
        free := free + [Loc(p, slot)];
      }
    }
  }

  /** Rebuilds open pages and free slots page by page. */
  method RebuildLists(pages: seq<PageMeta>, n: nat, inUse: set<Loc>) returns (lists: seq<SlotLists>)
    ensures |lists| == SHARDS && Rebuilt(lists, pages, n, inUse, |pages|)
  {
    hide SetOpen, SetFree, RebuiltFor;
    lists := seq(SHARDS, _ => SlotLists(map[], map[]));
    NothingRebuilt(lists, pages, n, inUse);
    for p := 0 to |pages|
      invariant |lists| == SHARDS && Rebuilt(lists, pages, n, inUse, p)
    {
      AddPageRebuilds(lists, pages, n, inUse, p);
      var x := pages[p].sectionIdx;
      if pages[p].usedSlots < n {
        lists := SetOpen(lists, x, ListAt(lists[Shard(x)].openPages, x) + [p]);
      }
      var free := FreeSlotsOn(inUse, p, pages[p].usedSlots);
      lists := SetFree(lists, x, ListAt(lists[Shard(x)].freeSlots, x) + free);
    }
  }

  lemma NothingRebuilt(lists: seq<SlotLists>, pages: seq<PageMeta>, n: nat, inUse: set<Loc>)
    requires |lists| == SHARDS && forall k :: 0 <= k < SHARDS ==> lists[k] == SlotLists(map[], map[])
    ensures Rebuilt(lists, pages, n, inUse, 0)
  {
    forall x: nat
      ensures RebuiltFor(lists, pages, n, inUse, 0, x)
    {}
  }
}
