/**
 Slot allocation of the paged vector store (include/disk_vector.h): sections own
 pages, pages hand out slots in order, and every list a slot may be taken from
 offers only slots that nobody owns.
 */
module PagedAlloc {
  import opened Basics
  import opened PagedTiers

  function ListAt<T>(m: map<nat, seq<T>>, x: nat): seq<T> {
    if x in m then m[x] else []
  }

  /** Keys and indices of the sections name each other. */
  ghost predicate SectionsOk(keyToIdx: map<nat, nat>, keys: seq<nat>) {
    && (forall i :: 0 <= i < |keys| ==> keys[i] in keyToIdx && keyToIdx[keys[i]] == i)
    && (forall key :: key in keyToIdx ==> keyToIdx[key] < |keys| && keys[keyToIdx[key]] == key)
  }

  ghost predicate PagesOk(pages: seq<PageMeta>, sections: nat, n: nat) {
    forall p :: 0 <= p < |pages| ==> pages[p].sectionIdx < sections && 1 <= pages[p].usedSlots <= n
  }

  /** Owned slots are handed-out slots. */
  ghost predicate OwnedOk(pages: seq<PageMeta>, used: set<Loc>) {
    forall l :: l in used ==> l.page < |pages| && l.slot < pages[l.page].usedSlots
  }

  /** Every handed-out slot has an owner. */
  ghost predicate Complete(pages: seq<PageMeta>, used: set<Loc>) {
    forall p: nat, s: nat :: p < |pages| && s < pages[p].usedSlots ==> Loc(p, s) in used
  }

  ghost predicate HasRoom(pages: seq<PageMeta>, n: nat, x: nat, p: nat) {
    p < |pages| && pages[p].sectionIdx == x && pages[p].usedSlots < n
  }

  /** The pages of the section with room, each once: none is forgotten. */
  ghost predicate OpenOk(pages: seq<PageMeta>, n: nat, x: nat, open: seq<nat>) {
    NoDup(open) && forall p: nat :: p in open <==> HasRoom(pages, n, x, p)
  }

  /** A section starts a page only when its others are full, so only its last one has room. */
  ghost predicate Tight(pages: seq<PageMeta>, n: nat) {
    forall p, q :: 0 <= p < q < |pages| && pages[p].sectionIdx == pages[q].sectionIdx ==> pages[p].usedSlots == n
  }

  ghost predicate FreeOk(pages: seq<PageMeta>, used: set<Loc>, x: nat, free: seq<Loc>) {
    && NoDup(free)
    && forall i :: 0 <= i < |free| ==>
         && free[i].page < |pages| && pages[free[i].page].sectionIdx == x
         && 0 < free[i].slot < pages[free[i].page].usedSlots && free[i] !in used
  }

  ghost predicate ListsOk(lists: seq<SlotLists>, pages: seq<PageMeta>, n: nat, used: set<Loc>)
    requires |lists| == SHARDS
  {
    forall x: nat ::
      && OpenOk(pages, n, x, ListAt(lists[Shard(x)].openPages, x))
      && FreeOk(pages, used, x, ListAt(lists[Shard(x)].freeSlots, x))
  }

  ghost predicate AllocOk(pages: seq<PageMeta>, keyToIdx: map<nat, nat>, keys: seq<nat>, lists: seq<SlotLists>,
                             n: nat, used: set<Loc>)
    requires |lists| == SHARDS
  {
    && SectionsOk(keyToIdx, keys) && PagesOk(pages, |keys|, n) && OwnedOk(pages, used)
    && ListsOk(lists, pages, n, used) && Tight(pages, n)
  }

  // ----- What tight packing saves -----

  function PagesIn(pages: seq<PageMeta>, x: nat): nat {
    if pages == [] then 0
    else PagesIn(pages[..|pages| - 1], x) + (if pages[|pages| - 1].sectionIdx == x then 1 else 0)
  }

  function SlotsIn(pages: seq<PageMeta>, x: nat): nat {
    if pages == [] then 0
    else SlotsIn(pages[..|pages| - 1], x) + (if pages[|pages| - 1].sectionIdx == x then pages[|pages| - 1].usedSlots else 0)
  }

  lemma {:induction false} FullPages(pages: seq<PageMeta>, n: nat, x: nat)
    requires forall p :: 0 <= p < |pages| && pages[p].sectionIdx == x ==> pages[p].usedSlots == n
    ensures SlotsIn(pages, x) == PagesIn(pages, x) * n
  {
    if pages != [] {
      FullPages(pages[..|pages| - 1], n, x);
    }
  }

  /** A section has as many pages as its slots need, and not one more. */
  lemma {:induction false} PagesNeeded(pages: seq<PageMeta>, sections: nat, n: nat, x: nat)
    requires Tight(pages, n) && PagesOk(pages, sections, n)
    ensures SlotsIn(pages, x) <= PagesIn(pages, x) * n
    ensures PagesIn(pages, x) > 0 ==> (PagesIn(pages, x) - 1) * n < SlotsIn(pages, x)
  {
    if pages != [] {
      var front, last := pages[..|pages| - 1], pages[|pages| - 1];
      if last.sectionIdx == x {
        FullPages(front, n, x);
      } else {
        PagesNeeded(front, sections, n, x);
      }
    }
  }

  /** Where the section's next slot is: the free slot listed last, else on its page with room, else on a new page. */
  ghost predicate NextSlot(pages: seq<PageMeta>, free: seq<Loc>, n: nat, x: nat, l: Loc, pages': seq<PageMeta>) {
    if free != [] then
      l == free[|free| - 1] && pages' == pages
    else if l.page < |pages| then
      HasRoom(pages, n, x, l.page) && l.slot == pages[l.page].usedSlots && pages' == Handed(pages, l.page)
    else
      l == Loc(|pages|, 0) && pages' == pages + [PageMeta(x, 1)] && forall p: nat :: !HasRoom(pages, n, x, p)
  }

  // ----- Steps -----

  function SetFree(lists: seq<SlotLists>, x: nat, free: seq<Loc>): (after: seq<SlotLists>)
    requires |lists| == SHARDS
    ensures |after| == SHARDS
  {
    lists[Shard(x) := lists[Shard(x)].(freeSlots := lists[Shard(x)].freeSlots[x := free])]
  }

  function SetOpen(lists: seq<SlotLists>, x: nat, open: seq<nat>): (after: seq<SlotLists>)
    requires |lists| == SHARDS
    ensures |after| == SHARDS
  {
    lists[Shard(x) := lists[Shard(x)].(openPages := lists[Shard(x)].openPages[x := open])]
  }

  lemma SetFreeLists(lists: seq<SlotLists>, x: nat, free: seq<Loc>, y: nat)
    requires |lists| == SHARDS
    ensures var after := SetFree(lists, x, free);
            && ListAt(after[Shard(y)].openPages, y) == ListAt(lists[Shard(y)].openPages, y)
            && ListAt(after[Shard(y)].freeSlots, y) == if y == x then free else ListAt(lists[Shard(y)].freeSlots, y)
  {}

  lemma SetOpenLists(lists: seq<SlotLists>, x: nat, open: seq<nat>, y: nat)
    requires |lists| == SHARDS
    ensures var after := SetOpen(lists, x, open);
            && ListAt(after[Shard(y)].openPages, y) == (if y == x then open else ListAt(lists[Shard(y)].openPages, y))
            && ListAt(after[Shard(y)].freeSlots, y) == ListAt(lists[Shard(y)].freeSlots, y)
  {}

  lemma SectionLists(lists: seq<SlotLists>, pages: seq<PageMeta>, n: nat, used: set<Loc>, x: nat)
    requires |lists| == SHARDS && ListsOk(lists, pages, n, used)
    ensures OpenOk(pages, n, x, ListAt(lists[Shard(x)].openPages, x))
    ensures FreeOk(pages, used, x, ListAt(lists[Shard(x)].freeSlots, x))
  {
    hide OpenOk, FreeOk, ListAt, Shard;
  }

  /** Taking the last free slot of a section. */
  lemma TakeFree(lists: seq<SlotLists>, pages: seq<PageMeta>, n: nat, used: set<Loc>, x: nat)
    requires |lists| == SHARDS && ListsOk(lists, pages, n, used) && OwnedOk(pages, used)
    requires ListAt(lists[Shard(x)].freeSlots, x) != []
    ensures var free := ListAt(lists[Shard(x)].freeSlots, x); var l := free[|free| - 1];
            && l !in used && l.page < |pages| && pages[l.page].sectionIdx == x && 0 < l.slot < pages[l.page].usedSlots
            && ListsOk(SetFree(lists, x, free[..|free| - 1]), pages, n, used + {l})
            && OwnedOk(pages, used + {l})
  {
    hide OpenOk, FreeOk, OwnedOk, SetFree, ListAt, Shard;
    var free := ListAt(lists[Shard(x)].freeSlots, x);
    SectionLists(lists, pages, n, used, x);
    LastFree(pages, used, x, free);
    var l := free[|free| - 1];
    OwnedMore(pages, used, l);
    var after := SetFree(lists, x, free[..|free| - 1]);
    forall y: nat
      ensures OpenOk(pages, n, y, ListAt(after[Shard(y)].openPages, y))
      ensures FreeOk(pages, used + {l}, y, ListAt(after[Shard(y)].freeSlots, y))
    {
      SectionLists(lists, pages, n, used, y);
      SetFreeLists(lists, x, free[..|free| - 1], y);
      if y == x {
        FreeShorter(pages, used, x, free);
      } else {
        FreeElsewhere(pages, used, y, ListAt(lists[Shard(y)].freeSlots, y), l);
      }
    }
  }

  lemma LastFree(pages: seq<PageMeta>, used: set<Loc>, x: nat, free: seq<Loc>)
    requires FreeOk(pages, used, x, free) && free != []
    ensures var l := free[|free| - 1];
            l !in used && l.page < |pages| && pages[l.page].sectionIdx == x && 0 < l.slot < pages[l.page].usedSlots
  {
    hide NoDup;
  }

  lemma OwnedMore(pages: seq<PageMeta>, used: set<Loc>, l: Loc)
    requires OwnedOk(pages, used) && l.page < |pages| && l.slot < pages[l.page].usedSlots
    ensures OwnedOk(pages, used + {l})
  {}

  lemma FreeShorter(pages: seq<PageMeta>, used: set<Loc>, x: nat, free: seq<Loc>)
    requires FreeOk(pages, used, x, free) && free != []
    ensures FreeOk(pages, used + {free[|free| - 1]}, x, free[..|free| - 1])
  {}

  lemma FreeElsewhere(pages: seq<PageMeta>, used: set<Loc>, y: nat, free: seq<Loc>, l: Loc)
    requires FreeOk(pages, used, y, free) && l.page < |pages| && pages[l.page].sectionIdx != y
    ensures FreeOk(pages, used + {l}, y, free)
  {}

  /** The pages with one more slot of page `p` handed out. */
  function Handed(pages: seq<PageMeta>, p: nat): seq<PageMeta>
    requires p < |pages|
  {
    pages[p := pages[p].(usedSlots := pages[p].usedSlots + 1)]
  }

  lemma HandedPages(pages: seq<PageMeta>, sections: nat, n: nat, used: set<Loc>, p: nat)
    requires OwnedOk(pages, used) && PagesOk(pages, sections, n) && p < |pages| && pages[p].usedSlots < n
    ensures var l := Loc(p, pages[p].usedSlots);
            && l !in used && PagesOk(Handed(pages, p), sections, n) && OwnedOk(Handed(pages, p), used + {l})
            && (Complete(pages, used) ==> Complete(Handed(pages, p), used + {l}))
            && (Tight(pages, n) ==> Tight(Handed(pages, p), n))
  {}

  /** What stays of the section's open pages once its last one has handed out a slot. */
  function StillOpen(pages: seq<PageMeta>, n: nat, open: seq<nat>): seq<nat>
    requires open != [] && open[|open| - 1] < |pages|
  {
    var p := open[|open| - 1];
    if pages[p].usedSlots + 1 < n then open[..|open| - 1] + [p] else open[..|open| - 1]
  }

  lemma StillOpenOk(pages: seq<PageMeta>, n: nat, x: nat, open: seq<nat>)
    requires OpenOk(pages, n, x, open) && open != []
    ensures var p := open[|open| - 1];
            HasRoom(pages, n, x, p) && OpenOk(Handed(pages, p), n, x, StillOpen(pages, n, open))
  {
    var front, p := open[..|open| - 1], open[|open| - 1];
    assert front + [p] == open && p in open && p !in front;
    forall q: nat
      ensures q in StillOpen(pages, n, open) <==> HasRoom(Handed(pages, p), n, x, q)
    {
      assert q in open <==> HasRoom(pages, n, x, q);
      assert q in open <==> q in front || q == p;
    }
  }

  /** Taking the next slot of the section's last open page, which stays open while it has room. */
  lemma TakeOpen(lists: seq<SlotLists>, pages: seq<PageMeta>, n: nat, used: set<Loc>, x: nat)
    requires |lists| == SHARDS && ListsOk(lists, pages, n, used) && ListAt(lists[Shard(x)].openPages, x) != []
    ensures var open := ListAt(lists[Shard(x)].openPages, x); var p := open[|open| - 1];
            && HasRoom(pages, n, x, p)
            && ListsOk(SetOpen(lists, x, StillOpen(pages, n, open)), Handed(pages, p), n,
                       used + {Loc(p, pages[p].usedSlots)})
  {
    var open := ListAt(lists[Shard(x)].openPages, x);
    var p := open[|open| - 1];
    hide SetOpen, OpenOk, FreeOk, ListAt, Handed, StillOpen, Shard;
    SectionLists(lists, pages, n, used, x);
    StillOpenOk(pages, n, x, open);
    var left := StillOpen(pages, n, open);
    var after := SetOpen(lists, x, left);
    forall y: nat
      ensures OpenOk(Handed(pages, p), n, y, ListAt(after[Shard(y)].openPages, y))
      ensures FreeOk(Handed(pages, p), used + {Loc(p, pages[p].usedSlots)}, y, ListAt(after[Shard(y)].freeSlots, y))
    {
      SectionLists(lists, pages, n, used, y);
      SetOpenLists(lists, x, left, y);
      HandedKeepsFree(pages, used, p, y, ListAt(lists[Shard(y)].freeSlots, y));
      if y != x {
        HandedKeepsOpen(pages, n, p, y, ListAt(lists[Shard(y)].openPages, y));
      }
    }
  }

  lemma HandedKeepsFree(pages: seq<PageMeta>, used: set<Loc>, p: nat, y: nat, free: seq<Loc>)
    requires p < |pages| && FreeOk(pages, used, y, free)
    ensures FreeOk(Handed(pages, p), used + {Loc(p, pages[p].usedSlots)}, y, free)
  {}

  lemma HandedKeepsOpen(pages: seq<PageMeta>, n: nat, p: nat, y: nat, open: seq<nat>)
    requires p < |pages| && OpenOk(pages, n, y, open) && pages[p].sectionIdx != y
    ensures OpenOk(Handed(pages, p), n, y, open)
  {}

  lemma FreshPages(pages: seq<PageMeta>, sections: nat, n: nat, used: set<Loc>, x: nat)
    requires OwnedOk(pages, used) && PagesOk(pages, sections, n) && x < sections && n > 0
    ensures var p := |pages|; var more := pages + [PageMeta(x, 1)]; var l := Loc(p, 0);
            && (forall s: nat :: Loc(p, s) !in used)
            && PagesOk(more, sections, n) && OwnedOk(more, used + {l})
            && (Complete(pages, used) ==> Complete(more, used + {l}))
            && (Tight(pages, n) && (forall q: nat :: !HasRoom(pages, n, x, q)) ==> Tight(more, n))
  {
    var p := |pages|; var more := pages + [PageMeta(x, 1)];
    if Tight(pages, n) && forall q: nat :: !HasRoom(pages, n, x, q) {
      forall i, j | 0 <= i < j < |more| && more[i].sectionIdx == more[j].sectionIdx
        ensures more[i].usedSlots == n
      {
        assert !HasRoom(pages, n, x, i);
      }
    }
  }

  /** A section without open pages has no room anywhere. */
  lemma NoRoom(lists: seq<SlotLists>, pages: seq<PageMeta>, n: nat, used: set<Loc>, x: nat)
    requires |lists| == SHARDS && ListsOk(lists, pages, n, used) && ListAt(lists[Shard(x)].openPages, x) == []
    ensures forall p: nat :: !HasRoom(pages, n, x, p)
  {
    hide HasRoom, FreeOk, ListAt, Shard;
    assert OpenOk(pages, n, x, []);
    forall p: nat
      ensures !HasRoom(pages, n, x, p)
    {
      assert p in [] <==> HasRoom(pages, n, x, p);
    }
  }

  /** Starting a page for the section: its slot 0 is handed out, the rest is open. */
  lemma TakeFresh(lists: seq<SlotLists>, pages: seq<PageMeta>, n: nat, used: set<Loc>, x: nat)
    requires |lists| == SHARDS && ListsOk(lists, pages, n, used)
    ensures var open := ListAt(lists[Shard(x)].openPages, x);
            ListsOk(if n > 1 then SetOpen(lists, x, open + [|pages|]) else lists, pages + [PageMeta(x, 1)], n,
                    used + {Loc(|pages|, 0)})
  {
    var p, more, l := |pages|, pages + [PageMeta(x, 1)], Loc(|pages|, 0);
    var open := ListAt(lists[Shard(x)].openPages, x);
    var after := if n > 1 then SetOpen(lists, x, open + [p]) else lists;
    hide SetOpen, OpenOk, FreeOk, ListAt, Shard;
    forall y: nat
      ensures OpenOk(more, n, y, ListAt(after[Shard(y)].openPages, y))
      ensures FreeOk(more, used + {l}, y, ListAt(after[Shard(y)].freeSlots, y))
    {
      SectionLists(lists, pages, n, used, y);
      SetOpenLists(lists, x, open + [p], y);
      MoreFree(pages, used, y, ListAt(lists[Shard(y)].freeSlots, y), x);
      MoreOpen(pages, n, y, ListAt(lists[Shard(y)].openPages, y), x);
    }
  }

  lemma MoreFree(pages: seq<PageMeta>, used: set<Loc>, y: nat, free: seq<Loc>, x: nat)
    requires FreeOk(pages, used, y, free)
    ensures FreeOk(pages + [PageMeta(x, 1)], used + {Loc(|pages|, 0)}, y, free)
  {}

  /** The new page is open for its own section, unless one slot is all it has. */
  lemma MoreOpen(pages: seq<PageMeta>, n: nat, y: nat, open: seq<nat>, x: nat)
    requires OpenOk(pages, n, y, open)
    ensures OpenOk(pages + [PageMeta(x, 1)], n, y, if y == x && n > 1 then open + [|pages|] else open)
  {
    var more, now := pages + [PageMeta(x, 1)], if y == x && n > 1 then open + [|pages|] else open;
    forall p: nat
      ensures p in now <==> HasRoom(more, n, y, p)
    {
      assert p in open <==> HasRoom(pages, n, y, p);
    }
    assert |pages| !in open by {
      assert !HasRoom(pages, n, y, |pages|);
    }
  }

  /** With every handed-out slot owned, no list of free slots offers anything. */
  lemma NothingFree(lists: seq<SlotLists>, pages: seq<PageMeta>, n: nat, used: set<Loc>, x: nat)
    requires |lists| == SHARDS && ListsOk(lists, pages, n, used) && Complete(pages, used)
    ensures ListAt(lists[Shard(x)].freeSlots, x) == []
  {
    var free := ListAt(lists[Shard(x)].freeSlots, x);
    assert FreeOk(pages, used, x, free);
    if free != [] {
      EverySlotOwned(pages, used, free[0]);
    }
  }

  lemma EverySlotOwned(pages: seq<PageMeta>, used: set<Loc>, l: Loc)
    requires Complete(pages, used) && l.page < |pages| && l.slot < pages[l.page].usedSlots
    ensures l in used
  {
    assert Loc(l.page, l.slot) in used;
  }

  // ----- Allocation does not disturb buffers or file -----

  /** More pages, of which nothing is wanted yet, and the old ones in their sections. */
  ghost predicate Extends<R>(before: seq<PageMeta>, after: seq<PageMeta>, want: map<Loc, R>) {
    && |before| <= |after| && (forall p :: 0 <= p < |before| ==> after[p].sectionIdx == before[p].sectionIdx)
    && (forall p: nat, s: nat :: p >= |before| ==> Loc(p, s) !in want)
  }

  lemma AllocationKeepsTiers<R>(file: map<nat, seq<R>>, shards: seq<SectionShard<R>>, pages: seq<PageMeta>,
                                pages': seq<PageMeta>, n: nat, zero: R, want: map<Loc, R>)
    requires BufsOk(shards, pages, n, want) && FileOk(file, shards, pages, n, zero, want)
    requires Extends(pages, pages', want)
    ensures BufsOk(shards, pages', n, want) && FileOk(file, shards, pages', n, zero, want)
  {
    forall k | 0 <= k < SHARDS
      ensures ShardBufsOk(shards[k], k, pages', n, want)
    {
      assert ShardBufsOk(shards[k], k, pages, n, want);
    }
    forall p: nat | p < |pages'| && !Holds(shards, pages', p)
      ensures FileAgrees(file, n, zero, p, want)
    {
      if p < |pages| {
        assert !Holds(shards, pages, p);
      }
    }
  }

  lemma NothingBeyond<R>(pages: seq<PageMeta>, want: map<Loc, R>)
    requires OwnedOk(pages, want.Keys)
    ensures forall p: nat, s: nat :: p >= |pages| ==> Loc(p, s) !in want
  {}
}
