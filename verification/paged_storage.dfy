/**
 PagedVectorStorage (include/disk_vector.h): a slot allocator, write buffers, a
 page cache and a file that together behave like a map from id to record.
 */
module PagedStorage {
  import opened IdTypes
  import opened PagedTiers
  import opened PagedAlloc
  import opened PagedBatch
  import opened PagedIds
  import opened PagedReopen

  class PagedVectorStorage<R(==)> {
    const vpp: nat
    const zero: R
    const maxCachedPages: nat
    const writeBufCap: nat

    var pages: seq<PageMeta>
    var idLoc: map<nat, Loc>
    var updateLoc: map<nat, Loc>
    var sectionKeyToIdx: map<nat, nat>
    var sectionIdxToKey: seq<nat>
    var lists: seq<SlotLists>
    var shards: seq<SectionShard<R>>
    var buffered: nat
    var cacheSlots: seq<CachedPage<R>>
    var pageToSlot: map<nat, nat>
    var cachedCount: nat
    var fifoHand: nat
    var file: map<nat, seq<R>>

    ghost var want: map<Loc, R>
    ghost var owner: map<Loc, nat>
    ghost var saved: map<Loc, R>
    ghost var loads: seq<nat>

    /** Buffers and file agree with `w` on every page. */
    ghost predicate Agreeing(w: map<Loc, R>)
      reads this`shards, this`pages, this`file
    {
      vpp > 0 && |shards| == SHARDS && BufsOk(shards, pages, vpp, w) && FileOk(file, shards, pages, vpp, zero, w)
    }

    /** And the live buffers are counted. */
    ghost predicate Tiers(w: map<Loc, R>)
      reads this`shards, this`pages, this`file, this`buffered
    {
      Agreeing(w) && buffered == LiveBufs(shards)
    }

    ghost predicate LoadOrder()
      reads this`loads, this`cacheSlots, this`fifoHand, this`cachedCount
    {
      Fifo(loads, cacheSlots, fifoHand, cachedCount, maxCachedPages)
    }

    /** Every cached page agrees with `w`, and the slots are used first in, first out. */
    ghost predicate Cached(w: map<Loc, R>)
      reads this`loads, this`cacheSlots, this`fifoHand, this`cachedCount, this`pageToSlot
    {
      && CacheOk(cacheSlots, pageToSlot, cachedCount, vpp, w) && LoadOrder()
    }

    /** As Cached, except perhaps for the cached copy of page `p`. */
    ghost predicate CachedBut(w: map<Loc, R>, p: nat)
      reads this`loads, this`cacheSlots, this`fifoHand, this`cachedCount, this`pageToSlot
    {
      && CacheIndex(cacheSlots, pageToSlot, cachedCount) && LoadOrder()
      && CacheAgreesBut(cacheSlots, cachedCount, vpp, w, p)
    }

    lemma CachedAllBut(w: map<Loc, R>, p: nat)
      requires Cached(w)
      ensures CachedBut(w, p)
    {}

    /** The file still has every record of the last sync. */
    ghost predicate Saved(w: map<Loc, R>)
      reads this`saved, this`file
    {
      && (forall l :: l in saved ==> l in w && w[l] == saved[l])
      && FileHas(file, vpp, zero, saved)
    }

    /** A store over an existing file, empty until a checkpoint is loaded. */
    constructor (vpp: nat, zero: R, maxCachedPages: nat, writeBufCap: nat, file: map<nat, seq<R>>)
      requires vpp > 0 && forall p :: p in file ==> |file[p]| == vpp
      ensures this.vpp == vpp && this.zero == zero && this.file == file
      ensures this.maxCachedPages == maxCachedPages && this.writeBufCap == writeBufCap
      ensures Valid() && Contents() == map[] && Complete(pages, want.Keys) && saved == map[]
      ensures buffered == 0
    {
      this.vpp, this.zero, this.maxCachedPages, this.writeBufCap := vpp, zero, maxCachedPages, writeBufCap;
      this.file := file;
      pages, idLoc, updateLoc, sectionKeyToIdx, sectionIdxToKey := [], map[], map[], map[], [];
      lists := NoLists();
      shards, buffered := NoShards(), 0;
      cacheSlots, pageToSlot, cachedCount, fifoHand := [], map[], 0, 0;
      want, owner, saved, loads := map[], map[], map[], [];
      new;
      hide AllocOk, BufsOk, FileOk, CacheOk, Fifo, FileHas, QueuesOk;
      EmptyTiers(file, vpp, zero, maxCachedPages, writeBufCap);
      EmptyAlloc(vpp);
    }

    // ----- Writing -----

    /** Writes a buffer's page to the file and refreshes the cached copy. */
    method FlushSectionWriteBuf(b: WriteBuf<R>)
      requires CacheIndex(cacheSlots, pageToSlot, cachedCount)
      modifies this`file, this`cacheSlots
      ensures b.pageId in pageToSlot ==> pageToSlot[b.pageId] < |old(cacheSlots)|
      ensures file == old(file)[b.pageId := b.data]
      ensures cacheSlots == Recache(old(cacheSlots), pageToSlot, b.pageId, b.data)
    {
      file := file[b.pageId := b.data];
      if b.pageId in pageToSlot {
        cacheSlots := cacheSlots[pageToSlot[b.pageId] := CachedPage(b.pageId, b.data)];
      }
    }

    /** If the page is cached, puts the record into the cached copy too. */
    method UpdateCacheAfterWrite(p: nat, slot: nat, record: R)
      requires CacheIndex(cacheSlots, pageToSlot, cachedCount) && slot < vpp && cachedCount <= maxCachedPages
      requires p in pageToSlot ==> |cacheSlots[pageToSlot[p]].data| == vpp
      modifies this`cacheSlots
      ensures p in pageToSlot ==> pageToSlot[p] < |old(cacheSlots)|
      ensures cacheSlots == if p in pageToSlot
                            then Recache(old(cacheSlots), pageToSlot, p, old(cacheSlots)[pageToSlot[p]].data[slot := record])
                            else old(cacheSlots)
    {
      if maxCachedPages == 0 {
        return;
      }
      if p in pageToSlot {
        var c := pageToSlot[p];
        cacheSlots := cacheSlots[c := CachedPage(p, cacheSlots[c].data[slot := record])];
      }
    }

    /** Moves the queue's front entry to its back. */
    method RequeueFront(k: nat)
      requires Tiers(want) && k < SHARDS && shards[k].bufOrder != []
      modifies this`shards
      ensures Tiers(want)
      ensures shards == old(shards)[k := RequeuedShard(old(shards)[k])]
    {
      var q := shards[k].bufOrder;
      SetQueueKeeps(file, shards, pages, vpp, zero, want, k, q[1..] + [q[0]]);
      shards := shards[k := shards[k].(bufOrder := q[1..] + [q[0]])];
    }

    /** Takes the queue's front entry off and flushes and drops its buffer, if it still has one. */
    method EvictFront(k: nat)
      requires Tiers(want) && Cached(want) && Saved(want) && k < SHARDS && shards[k].bufOrder != []
      modifies this`shards, this`buffered, this`file, this`cacheSlots
      ensures Tiers(want) && Cached(want) && Saved(want)
      ensures shards == old(shards)[k := EvictedShard(old(shards)[k])]
    {
      hide BufsOk, FileOk, CacheOk, FileHas, Fifo, DropBuf, EvictedShard;
      ghost var before := shards;
      var victim := shards[k].bufOrder[0];
      var rest := shards[k].bufOrder[1..];
      SetQueueKeeps(file, shards, pages, vpp, zero, want, k, rest);
      shards := shards[k := shards[k].(bufOrder := rest)];
      if victim in shards[k].writeBufs {
        CachedAllBut(want, shards[k].writeBufs[victim].pageId);
        DropVictim(k, victim);
        PopThenDrop(before, k);
      } else {
        PopStale(before, k);
      }
    }

    method DropVictim(k: nat, victim: nat)
      requires Tiers(want) && Saved(want) && k < SHARDS && victim in shards[k].writeBufs
      requires CachedBut(want, shards[k].writeBufs[victim].pageId)
      modifies this`shards, this`buffered, this`file, this`cacheSlots
      ensures Tiers(want) && Cached(want) && Saved(want)
      ensures shards == DropBuf(old(shards), victim) && Shard(victim) == k
    {
      hide BufsOk, FileOk, CacheOk, Agrees, FileHas, FileAgrees, Fifo;
      BufInShard(shards, pages, vpp, want, k, victim);
      FlushBuffer(victim);
      DropBufKeepsBufs(shards, pages, vpp, want, victim);
      LiveBufsUpdate(shards, k, shards[k].(writeBufs := shards[k].writeBufs - {victim}));
      assert |shards[k].writeBufs - {victim}| == |shards[k].writeBufs| - 1 by {
        assert (shards[k].writeBufs - {victim}).Keys == shards[k].writeBufs.Keys - {victim};
      }
      LiveBufsAtLeast(shards, k);
      FileAfterDrop(file, shards, pages, vpp, zero, want, victim);
      shards := shards[k := shards[k].(writeBufs := shards[k].writeBufs - {victim})];
      buffered := buffered - 1;
    }

    /** Flushing a live buffer keeps every tier, and puts the file in charge of its page. */
    method FlushBuffer(x: nat)
      requires Agreeing(want) && Saved(want) && x in BufOf(shards, x)
      requires CachedBut(want, BufOf(shards, x)[x].pageId)
      modifies this`file, this`cacheSlots
      ensures Agreeing(want) && Cached(want) && Saved(want)
      ensures file == old(file)[BufOf(shards, x)[x].pageId := BufOf(shards, x)[x].data]
      ensures FileAgrees(file, vpp, zero, BufOf(shards, x)[x].pageId, want)
    {
      hide BufsOk, FileOk, CacheIndex, CacheAgrees, Agrees, FileHas, FileAgrees, Fifo;
      var b := BufOf(shards, x)[x];
      BufIsOk(shards, pages, vpp, want, x);
      BufAgrees(b, x, Shard(x), pages, vpp, want);
      FlushKeeps(file, shards, pages, vpp, zero, want, x);
      SavedAfterWrite(file, vpp, zero, want, saved, b.pageId, b.data);
      RecacheKeeps(cacheSlots, pageToSlot, cachedCount, vpp, want, b.pageId, b.data);
      RecacheKeepsOrder(loads, cacheSlots, pageToSlot, fifoHand, cachedCount, maxCachedPages, b.pageId, b.data);
      FlushSectionWriteBuf(b);
    }

    /**
     Flushes and drops the shard's oldest other buffers until it is within its
     share. Stale queue entries are skipped and the section's own are put back.
     */
    method EvictOverCap(x: nat)
      requires Tiers(want) && Cached(want) && Saved(want) && writeBufCap > 0
      requires x in BufOf(shards, x) && QueueOk(shards[Shard(x)], writeBufCap, 1)
      requires forall k :: 0 <= k < SHARDS && k != Shard(x) ==> QueueOk(shards[k], writeBufCap, 0)
      modifies this`shards, this`buffered, this`file, this`cacheSlots
      ensures Tiers(want) && Cached(want) && Saved(want)
      ensures QueuesOk(shards, writeBufCap)
      ensures x in BufOf(shards, x) && BufOf(shards, x)[x] == old(BufOf(shards, x)[x])
      ensures exists n: nat :: EvictedOldest(old(shards)[Shard(x)], shards[Shard(x)], x, PerShard(writeBufCap), n)
      ensures forall k :: 0 <= k < SHARDS && k != Shard(x) ==> shards[k] == old(shards)[k]
    {
      hide BufsOk, FileOk, CacheOk, FileHas, Fifo, QueueOk, EvictedOldest, RequeuedShard, EvictedShard;
      hide Shard, PerShard, Others, Ahead, LiveBufs;
      var k := Shard(x);
      ghost var n: nat := 0;
      NothingEvicted(shards[k], x, PerShard(writeBufCap));
      while |shards[k].writeBufs| > PerShard(writeBufCap) && shards[k].bufOrder != []
        invariant Tiers(want) && Cached(want) && Saved(want)
        invariant x in BufOf(shards, x) && BufOf(shards, x)[x] == old(BufOf(shards, x)[x])
        invariant QueueOk(shards[k], writeBufCap, 1)
        invariant shards == old(shards)[k := shards[k]]
        invariant EvictedOldest(old(shards)[k], shards[k], x, PerShard(writeBufCap), n)
        decreases Others(shards[k].bufOrder, x), Ahead(shards[k].bufOrder, x)
      {
        EvictionRound(shards[k], writeBufCap, x);
        if shards[k].bufOrder[0] == x {
          RequeuesOldest(old(shards)[k], shards[k], x, PerShard(writeBufCap), n);
          RequeueFront(k);
        } else {
          EvictsOldest(old(shards)[k], shards[k], x, PerShard(writeBufCap), n);
          EvictFront(k);
          n := n + 1;
        }
      }
      WithinCap(shards[k], writeBufCap);
    }

    /** Everything a write relies on and keeps. */
    ghost predicate Sound(w: map<Loc, R>)
      reads this`shards, this`pages, this`file, this`buffered, this`loads, this`cacheSlots, this`fifoHand, this`cachedCount, this`pageToSlot, this`saved
    {
      Tiers(w) && Cached(w) && Saved(w) && QueuesOk(shards, writeBufCap)
    }

    lemma SoundTiers()
      requires Sound(want)
      ensures Tiers(want) && |shards| == SHARDS
    {}

    /** Gives the section a zero-filled buffer for page `p`, evicting or flushing as needed. */
    method StartBuffer(x: nat, p: nat)
      requires Sound(want) && p < |pages| && pages[p].sectionIdx == x && !Holds(shards, pages, p)
      requires forall s: nat :: Loc(p, s) !in want
      modifies this`shards, this`buffered, this`file, this`cacheSlots
      ensures Sound(want) && x in BufOf(shards, x) && BufOf(shards, x)[x].pageId == p
    {
      hide BufsOk, FileOk, CacheOk, FileHas, Fifo, FileAgrees, Agrees, EvictedOldest, PerShard, LiveBufs, QueuesOk, LoadOrder;
      var b := WriteBuf(p, Zeros(vpp, zero));
      ZerosAgree(p, vpp, zero, want);
      BufOkIs(b, x, pages, vpp, want);
      if x in BufOf(shards, x) {
        CachedAllBut(want, BufOf(shards, x)[x].pageId);
        FlushBuffer(x);
        SetBufKeeps(file, shards, pages, vpp, zero, want, x, b);
        ReplaceBufCounts(shards, x, b, writeBufCap);
        shards := SetBuf(shards, x, b);
      } else {
        AddBuffer(x, b);
      }
    }

    method AddBuffer(x: nat, b: WriteBuf<R>)
      requires Sound(want) && BufOk(b, x, Shard(x), pages, vpp, want) && x !in BufOf(shards, x)
      modifies this`shards, this`buffered, this`file, this`cacheSlots
      ensures Sound(want) && x in BufOf(shards, x) && BufOf(shards, x)[x] == b
      ensures writeBufCap == 0 ==> shards == SetBuf(old(shards), x, b)
      ensures writeBufCap > 0 ==>
                var was := SetBuf(old(shards), x, b)[Shard(x)];
                exists n: nat :: EvictedOldest(was.(bufOrder := was.bufOrder + [x]), shards[Shard(x)], x, PerShard(writeBufCap), n)
      ensures forall k :: 0 <= k < SHARDS && k != Shard(x) ==> shards[k] == old(shards)[k]
    {
      hide BufsOk, FileOk, CacheOk, FileHas, Fifo, BufOk, QueueOk, EvictedOldest, PerShard, LiveBufs, LoadOrder;
      SetBufKeeps(file, shards, pages, vpp, zero, want, x, b);
      AddBufCounts(shards, x, b, writeBufCap);
      shards := SetBuf(shards, x, b);
      buffered := buffered + 1;
      if writeBufCap > 0 {
        EnqueueBack(Shard(x), x);
        EvictOverCap(x);
      }
    }

    method EnqueueBack(k: nat, x: nat)
      requires Tiers(want) && k < SHARDS
      modifies this`shards
      ensures Tiers(want)
      ensures shards == old(shards)[k := old(shards)[k].(bufOrder := old(shards)[k].bufOrder + [x])]
    {
      hide BufsOk, FileOk;
      SetQueueKeeps(file, shards, pages, vpp, zero, want, k, shards[k].bufOrder + [x]);
      shards := shards[k := shards[k].(bufOrder := shards[k].bufOrder + [x])];
    }
  
    /**
     Puts a record into the buffer of its section, started anew for the first slot
     of a page. Says no when the page is half written and not in the buffer, since
     nothing here knows what its other slots have; then nothing wanted is touched.
     */
    method WriteToSectionBuffer(x: nat, p: nat, slot: nat, record: R) returns (ok: bool)
      requires Sound(want) && p < |pages| && pages[p].sectionIdx == x && slot < vpp
      requires Loc(p, slot) !in want && (slot == 0 ==> forall s: nat :: Loc(p, s) !in want)
      modifies this`shards, this`buffered, this`file, this`cacheSlots, this`want
      ensures Sound(want) && ok == (old(Holds(shards, pages, p)) || slot == 0)
      ensures ok ==> want == old(want)[Loc(p, slot) := record]
      ensures !ok ==> want == old(want) && !Holds(shards, pages, p)
      ensures ok ==> (Holds(shards, pages, p) <==> slot + 1 < vpp)
    {
      hide BufsOk, FileOk, CacheOk, FileHas, Fifo, FileAgrees, Agrees, QueueOk;
      var holdsPage := x in BufOf(shards, x) && BufOf(shards, x)[x].pageId == p;
      if !holdsPage && slot != 0 {
        return false;
      }
      if !holdsPage {
        StartBuffer(x, p);
      }
      WriteHeld(x, p, slot, record);
      return true;
    }

    /** Writes a record into the buffer holding its page; a full page is flushed. */
    method WriteHeld(x: nat, p: nat, slot: nat, record: R)
      requires Sound(want) && x in BufOf(shards, x) && BufOf(shards, x)[x].pageId == p && slot < vpp
      requires Loc(p, slot) !in want
      modifies this`shards, this`buffered, this`file, this`cacheSlots, this`want
      ensures Sound(want) && want == old(want)[Loc(p, slot) := record]
      ensures if slot + 1 < vpp then x in BufOf(shards, x) && BufOf(shards, x)[x].pageId == p else x !in BufOf(shards, x)
    {
      hide BufsOk, FileOk, CacheOk, FileHas, FileAgrees, Agrees, QueueOk, Fifo, CacheAgreesBut;
      BufferRecord(x, p, slot, record);
      if slot + 1 >= vpp {
        FlushFullPage(x);
        CachedMendable(p, slot);
      }
      MendCache(p, slot, record);
    }

    /** The cached copy of page `p`, once `record` is put into it, has what is wanted. */
    ghost predicate Mendable(p: nat, slot: nat, record: R)
      requires slot < vpp
      reads this`loads, this`cacheSlots, this`fifoHand, this`cachedCount, this`pageToSlot, this`want
    {
      && CachedBut(want, p)
      && (p in pageToSlot ==>
            var data := cacheSlots[pageToSlot[p]].data;
            |data| == vpp && Agrees(data[slot := record], p, vpp, want))
    }

    method MendCache(p: nat, slot: nat, record: R)
      requires slot < vpp && Mendable(p, slot, record)
      modifies this`cacheSlots
      ensures Cached(want)
    {
      hide Agrees, CacheAgreesBut, CacheAgrees, Fifo;
      ghost var data := if p in pageToSlot then cacheSlots[pageToSlot[p]].data[slot := record] else [];
      RecacheKeeps(cacheSlots, pageToSlot, cachedCount, vpp, want, p, data);
      RecacheKeepsOrder(loads, cacheSlots, pageToSlot, fifoHand, cachedCount, maxCachedPages, p, data);
      UpdateCacheAfterWrite(p, slot, record);
    }

    lemma CachedMendable(p: nat, slot: nat)
      requires Cached(want) && slot < vpp && Loc(p, slot) in want
      ensures Mendable(p, slot, want[Loc(p, slot)])
    {
      if p in pageToSlot {
        var data := cacheSlots[pageToSlot[p]].data;
        assert Agrees(data, p, vpp, want);
        assert data[slot := want[Loc(p, slot)]] == data;
      }
    }

    /** Copies the record into the buffer that holds its page; from here on it is wanted. */
    method BufferRecord(x: nat, p: nat, slot: nat, record: R)
      requires Sound(want) && x in BufOf(shards, x) && BufOf(shards, x)[x].pageId == p && slot < vpp
      requires Loc(p, slot) !in want
      modifies this`shards, this`want
      ensures want == old(want)[Loc(p, slot) := record]
      ensures Tiers(want) && Saved(want) && QueuesOk(shards, writeBufCap) && Mendable(p, slot, record)
      ensures x in BufOf(shards, x) && BufOf(shards, x)[x].pageId == p
    {
      hide BufsOk, FileOk, FileHas, Agrees, QueueOk, Fifo;
      BufferedWrite(file, shards, pages, vpp, zero, want, x, slot, record);
      var b := BufOf(shards, x)[x];
      var b' := WriteBuf(p, b.data[slot := record]);
      ReplaceBufCounts(shards, x, b', writeBufCap);
      RecordWanted(p, slot, record);
      shards := SetBuf(shards, x, b');
      want := want[Loc(p, slot) := record];
    }

    /** What the cache still lacks once one more record of page `p` is wanted. */
    lemma RecordWanted(p: nat, slot: nat, record: R)
      requires Cached(want) && slot < vpp
      ensures CachedBut(want[Loc(p, slot) := record], p)
      ensures p in pageToSlot ==>
                var data := cacheSlots[pageToSlot[p]].data;
                |data| == vpp && Agrees(data[slot := record], p, vpp, want[Loc(p, slot) := record])
    {
      CacheAgreesElsewhere(cacheSlots, cachedCount, vpp, want, Loc(p, slot), record);
      if p in pageToSlot {
        var data := cacheSlots[pageToSlot[p]].data;
        assert Agrees(data, p, vpp, want);
        AgreesSet(data, p, vpp, want, slot, record);
      }
    }

    /** A full page goes to the file and its buffer is given up. */
    method FlushFullPage(x: nat)
      requires Tiers(want) && Saved(want) && QueuesOk(shards, writeBufCap) && x in BufOf(shards, x)
      requires CachedBut(want, BufOf(shards, x)[x].pageId)
      modifies this`shards, this`buffered, this`file, this`cacheSlots
      ensures Sound(want) && x !in BufOf(shards, x)
    {
      hide BufsOk, FileOk, CacheOk, FileHas, Fifo, FileAgrees, Agrees;
      DropBufQueues(shards, x, writeBufCap);
      DropVictim(Shard(x), x);
    }

    /**
     Writes a record straight to its place in the file and the cache. That is
     what reads then find, unless a buffer holds the page.
     */
    method WriteRecord(p: nat, slot: nat, record: R)
      requires Sound(want) && p < |pages| && slot < vpp
      modifies this`file, this`cacheSlots, this`want, this`saved
      ensures !Holds(shards, pages, p) ==>
                && Sound(want) && want == old(want)[Loc(p, slot) := record]
                && saved == Rewritten(old(saved), Loc(p, slot), record)
      ensures Holds(shards, pages, p) ==> want == old(want) && Tiers(want)
    {
      hide BufsOk, FileOk, FileHas, Fifo, QueuesOk, CacheAgrees, CacheIndex, Holds, Rewritten, FilePage, LiveBufs;
      ghost var held := Holds(shards, pages, p);
      PageSizes(p);
      if held {
        BehindBuffer(file, shards, pages, vpp, zero, want, p, FilePage(file, p, vpp, zero)[slot := record]);
      } else {
        DirectWrite(file, shards, pages, vpp, zero, want, Loc(p, slot), record);
        DirectSaved(p, slot, record);
        CacheMended(p, slot, record);
      }
      file := file[p := FilePage(file, p, vpp, zero)[slot := record]];
      UpdateCacheAfterWrite(p, slot, record);
      if !held {
        want, saved := want[Loc(p, slot) := record], Rewritten(saved, Loc(p, slot), record);
      }
    }

    /** Put into the cached copy too, the record leaves the cache as wanted. */
    lemma CacheMended(p: nat, slot: nat, record: R)
      requires Sound(want) && slot < vpp
      ensures p in pageToSlot ==> |cacheSlots[pageToSlot[p]].data| == vpp
      ensures var data := if p in pageToSlot then cacheSlots[pageToSlot[p]].data[slot := record] else [];
              && CacheOk(Recache(cacheSlots, pageToSlot, p, data), pageToSlot, cachedCount, vpp, want[Loc(p, slot) := record])
              && Fifo(loads, Recache(cacheSlots, pageToSlot, p, data), fifoHand, cachedCount, maxCachedPages)
    {
      hide BufsOk, FileOk, FileHas, Fifo, Agrees, QueuesOk, CacheAgreesBut, CacheAgrees;
      RecordWanted(p, slot, record);
      var data := if p in pageToSlot then cacheSlots[pageToSlot[p]].data[slot := record] else [];
      RecacheKeeps(cacheSlots, pageToSlot, cachedCount, vpp, want[Loc(p, slot) := record], p, data);
      RecacheKeepsOrder(loads, cacheSlots, pageToSlot, fifoHand, cachedCount, maxCachedPages, p, data);
    }

    lemma PageSizes(p: nat)
      requires Sound(want)
      ensures |FilePage(file, p, vpp, zero)| == vpp && cachedCount <= maxCachedPages
      ensures p in pageToSlot ==> |cacheSlots[pageToSlot[p]].data| == vpp
    {
      if p in pageToSlot {
        assert Agrees(cacheSlots[pageToSlot[p]].data, p, vpp, want);
      }
    }

    lemma DirectSaved(p: nat, slot: nat, record: R)
      requires Sound(want) && p < |pages| && slot < vpp && !Holds(shards, pages, p)
      ensures |FilePage(file, p, vpp, zero)| == vpp
      ensures var l := Loc(p, slot); var kept := Rewritten(saved, l, record);
              && (forall k :: k in kept ==> k in want[l := record] && want[l := record][k] == kept[k])
              && FileHas(file[p := FilePage(file, p, vpp, zero)[slot := record]], vpp, zero, kept)
    {
      hide Agrees, BufsOk, CacheOk, Fifo, QueuesOk;
      var page := FilePage(file, p, vpp, zero);
      assert FileAgrees(file, vpp, zero, p, want);
      PageSizes(p);
      AgreesSet(page, p, vpp, want, slot, record);
      RewrittenSaved(file, vpp, zero, want, saved, Loc(p, slot), record, page[slot := record]);
    }

    // ----- Reading -----

    /** No live buffer is left when the counter says so: the fast path of every read. */
    lemma NothingBuffered(p: nat)
      requires Tiers(want) && buffered == 0 && p < |pages|
      ensures !Holds(shards, pages, p)
    {
      LiveBufsAtLeast(shards, Shard(pages[p].sectionIdx));
    }

    /** The record in the write buffer, if one holds the page. */
    method TryReadFromWriteBuf(p: nat, slot: nat) returns (hit: bool, r: R)
      requires Tiers(want) && p < |pages| && Loc(p, slot) in want
      ensures hit == Holds(shards, pages, p)
      ensures hit ==> r == want[Loc(p, slot)]
    {
      r := zero;
      if buffered == 0 {
        NothingBuffered(p);
        return false, r;
      }
      var x := pages[p].sectionIdx;
      if x !in BufOf(shards, x) || BufOf(shards, x)[x].pageId != p {
        return false, r;
      }
      BufIsOk(shards, pages, vpp, want, x);
      return true, BufOf(shards, x)[x].data[slot];
    }

    method TryReadFromCache(p: nat, slot: nat) returns (hit: bool, r: R)
      requires Sound(want) && Loc(p, slot) in want
      ensures hit == (p in pageToSlot)
      ensures hit ==> r == want[Loc(p, slot)]
    {
      r := zero;
      if maxCachedPages == 0 || p !in pageToSlot {
        return false, r;
      }
      var c := pageToSlot[p];
      assert Agrees(cacheSlots[c].data, p, vpp, want);
      return true, cacheSlots[c].data[slot];
    }

    /** The record in the file, for a page no buffer holds. */
    method ReadFile(p: nat, slot: nat) returns (r: R)
      requires Sound(want) && p < |pages| && Loc(p, slot) in want && !Holds(shards, pages, p)
      ensures r == want[Loc(p, slot)]
    {
      assert FileAgrees(file, vpp, zero, p, want);
      r := FilePage(file, p, vpp, zero)[slot];
    }

    lemma LoadedIffCached(p: nat)
      requires Sound(want)
      ensures |loads| == cachedCount && (p in pageToSlot <==> p in loads)
    {
      LoadsAreCached(loads, cacheSlots, pageToSlot, fifoHand, cachedCount, maxCachedPages, p);
    }

    /** Reads a page from the file, lays the write buffer over it, and caches it. */
    method LoadPageToCache(p: nat)
      requires Sound(want) && p < |pages|
      modifies this`cacheSlots, this`pageToSlot, this`cachedCount, this`fifoHand, this`loads
      ensures Sound(want) 
      ensures maxCachedPages > 0 ==> p in pageToSlot
      ensures loads == LoadOf(old(loads), maxCachedPages, p)
    {
      hide BufsOk, FileOk, FileHas, FileAgrees, Agrees, QueueOk, Fifo;
      LoadedIffCached(p);
      if maxCachedPages == 0 || p in pageToSlot {
        return;
      }
      var data := FilePage(file, p, vpp, zero);
      if buffered != 0 {
        var x := pages[p].sectionIdx;
        if x in BufOf(shards, x) && BufOf(shards, x)[x].pageId == p {
          data := BufOf(shards, x)[x].data;
        }
      } else {
        NothingBuffered(p);
      }
      SeenAgrees(file, shards, pages, p, vpp, zero, want);
      PublishPage(p, data);
    }

    /** Puts a page into a free cache slot, or into the one the hand points at. */
    method PublishPage(p: nat, data: seq<R>)
      requires Cached(want) && maxCachedPages > 0 && p !in pageToSlot && Agrees(data, p, vpp, want)
      modifies this`cacheSlots, this`pageToSlot, this`cachedCount, this`fifoHand, this`loads
      ensures Cached(want) && p in pageToSlot
      ensures loads == (if old(cachedCount) < maxCachedPages then old(loads) else old(loads)[1..]) + [p]
    {
      hide Agrees, CacheOk, Fifo;
      var slot;
      if cachedCount < maxCachedPages {
        PublishFresh(cacheSlots, pageToSlot, cachedCount, maxCachedPages, vpp, want, loads, fifoHand, p, data);
        slot := cachedCount;
        cachedCount := cachedCount + 1;
        if slot >= |cacheSlots| {
          cacheSlots := cacheSlots + [CachedPage(p, data)];
        }
        loads := loads + [p];
      } else {
        PublishInstead(cacheSlots, pageToSlot, cachedCount, maxCachedPages, vpp, want, loads, fifoHand, p, data);
        slot := fifoHand;
        fifoHand := (fifoHand + 1) % maxCachedPages;
        pageToSlot := pageToSlot - {cacheSlots[slot].pageId};
        loads := loads[1..] + [p];
      }
      cacheSlots := cacheSlots[slot := CachedPage(p, data)];
      pageToSlot := pageToSlot[p := slot];
    }
  
    // ----- Allocation -----

    ghost predicate Allocated(used: set<Loc>)
      reads this`lists, this`pages, this`sectionKeyToIdx, this`sectionIdxToKey
    {
      |lists| == SHARDS && vpp > 0 && AllocOk(pages, sectionKeyToIdx, sectionIdxToKey, lists, vpp, used)
    }

    /** The index of a section, made up on the first use of its key. */
    method SectionIndex(key: nat) returns (x: nat)
      requires Allocated(want.Keys) && Sound(want)
      modifies this`sectionKeyToIdx, this`sectionIdxToKey
      ensures Allocated(want.Keys) && Sound(want) && x < |sectionIdxToKey| && sectionIdxToKey[x] == key
    {
      hide BufsOk, FileOk, CacheOk, FileHas, Fifo, ListsOk, QueuesOk, OwnedOk;
      if key in sectionKeyToIdx {
        x := sectionKeyToIdx[key];
      } else {
        x := |sectionIdxToKey|;
        sectionKeyToIdx := sectionKeyToIdx[key := x];
        sectionIdxToKey := sectionIdxToKey + [key];
      }
    }

    /** The location is the next slot of the section with the key, of those in `before` and `lists'`. */
    ghost predicate Placed(before: seq<PageMeta>, lists': seq<SlotLists>, l: Loc, key: nat)
      reads this`pages, this`sectionIdxToKey
    {
      && |lists'| == SHARDS && l.page < |pages|
      && var x := pages[l.page].sectionIdx;
         && x < |sectionIdxToKey| && sectionIdxToKey[x] == key
         && NextSlot(before, ListAt(lists'[Shard(x)].freeSlots, x), vpp, x, l, pages)
    }

    /**
     Hands out a slot of the section: a free one, else the next one of its last
     open page, else slot 0 of a fresh page.
     */
    method AllocateSlotForSection(key: nat) returns (p: nat, slot: nat, x: nat)
      requires Allocated(want.Keys) && Sound(want)
      modifies this`sectionKeyToIdx, this`sectionIdxToKey, this`lists, this`pages
      ensures Sound(want) && Loc(p, slot) !in want && Allocated(want.Keys + {Loc(p, slot)})
      ensures p < |pages| && slot < vpp && pages[p].sectionIdx == x < |sectionIdxToKey| && sectionIdxToKey[x] == key
      ensures slot == 0 ==> forall s: nat :: Loc(p, s) !in want
      ensures Placed(old(pages), old(lists), Loc(p, slot), key)
      ensures old(Complete(pages, want.Keys)) ==> Complete(pages, want.Keys + {Loc(p, slot)})
    {
      hide BufsOk, FileOk, CacheOk, FileHas, Fifo, ListsOk, Complete, QueuesOk, OwnedOk, PagesOk, Tight, NextSlot;
      x := SectionIndex(key);
      var free := ListAt(lists[Shard(x)].freeSlots, x);
      if free != [] {
        p, slot := AllocateFree(x);
        return;
      }
      var open := ListAt(lists[Shard(x)].openPages, x);
      if open != [] {
        p, slot := AllocateOpen(x);
        return;
      }
      p := AllocatePage(x);
      slot := 0;
    }

    method AllocateFree(x: nat) returns (p: nat, slot: nat)
      requires Allocated(want.Keys) && Sound(want) && ListAt(lists[Shard(x)].freeSlots, x) != []
      modifies this`lists
      ensures Sound(want) && Loc(p, slot) !in want && Allocated(want.Keys + {Loc(p, slot)})
      ensures p < |pages| && 0 < slot < vpp && pages[p].sectionIdx == x
      ensures |old(lists)| == SHARDS && NextSlot(old(pages), ListAt(old(lists)[Shard(x)].freeSlots, x), vpp, x, Loc(p, slot), pages)
      ensures old(Complete(pages, want.Keys)) ==> Complete(pages, want.Keys + {Loc(p, slot)})
    {
      hide BufsOk, FileOk, CacheOk, FileHas, Fifo, ListsOk, SetFree, QueuesOk, Tight;
      var free := ListAt(lists[Shard(x)].freeSlots, x);
      var l := free[|free| - 1];
      TakeFree(lists, pages, vpp, want.Keys, x);
      lists := SetFree(lists, x, free[..|free| - 1]);
      assert Loc(l.page, l.slot) == l;
      return l.page, l.slot;
    }

    method AllocateOpen(x: nat) returns (p: nat, slot: nat)
      requires Allocated(want.Keys) && Sound(want)
      requires ListAt(lists[Shard(x)].freeSlots, x) == [] && ListAt(lists[Shard(x)].openPages, x) != []
      modifies this`lists, this`pages
      ensures Sound(want) && Loc(p, slot) !in want && Allocated(want.Keys + {Loc(p, slot)})
      ensures p < |pages| && 0 < slot < vpp && pages[p].sectionIdx == x
      ensures NextSlot(old(pages), [], vpp, x, Loc(p, slot), pages)
      ensures old(Complete(pages, want.Keys)) ==> Complete(pages, want.Keys + {Loc(p, slot)})
    {
      hide BufsOk, FileOk, CacheOk, FileHas, Fifo, ListsOk, Complete, SetOpen, QueuesOk, OwnedOk, Tight;
      var open := ListAt(lists[Shard(x)].openPages, x);
      TakeOpen(lists, pages, vpp, want.Keys, x);
      p := open[|open| - 1];
      HandedPages(pages, |sectionIdxToKey|, vpp, want.Keys, p);
      slot := pages[p].usedSlots;
      var left := if slot + 1 < vpp then open[..|open| - 1] + [p] else open[..|open| - 1];
      NothingBeyond(pages, want);
      MorePagesSound(Handed(pages, p));
      lists := SetOpen(lists, x, left);
      pages := Handed(pages, p);
    }

    method AllocatePage(x: nat) returns (p: nat)
      requires Allocated(want.Keys) && Sound(want) && x < |sectionIdxToKey|
      requires ListAt(lists[Shard(x)].freeSlots, x) == [] && ListAt(lists[Shard(x)].openPages, x) == []
      modifies this`lists, this`pages
      ensures Sound(want) && Allocated(want.Keys + {Loc(p, 0)})
      ensures p < |pages| && pages[p].sectionIdx == x && forall s: nat :: Loc(p, s) !in want
      ensures NextSlot(old(pages), [], vpp, x, Loc(p, 0), pages)
      ensures old(Complete(pages, want.Keys)) ==> Complete(pages, want.Keys + {Loc(p, 0)})
    {
      hide BufsOk, FileOk, CacheOk, FileHas, Fifo, ListsOk, Complete, SetOpen, QueuesOk, OwnedOk, Tight, HasRoom;
      var open := ListAt(lists[Shard(x)].openPages, x);
      NoRoom(lists, pages, vpp, want.Keys, x);
      FreshPages(pages, |sectionIdxToKey|, vpp, want.Keys, x);
      TakeFresh(lists, pages, vpp, want.Keys, x);
      NothingBeyond(pages, want);
      p := |pages|;
      MorePagesSound(pages + [PageMeta(x, 1)]);
      pages := pages + [PageMeta(x, 1)];
      if vpp > 1 {
        lists := SetOpen(lists, x, open + [p]);
      }
    }

    /** Handing out slots leaves what is stored alone. */
    lemma MorePagesSound(pages': seq<PageMeta>)
      requires Sound(want) && Extends(pages, pages', want)
      ensures BufsOk(shards, pages', vpp, want) && FileOk(file, shards, pages', vpp, zero, want)
    {
      AllocationKeepsTiers(file, shards, pages, pages', vpp, zero, want);
    }

    // ----- Ids -----

    /** Direct ids and update ids are located by different maps. */
    predicate Located(id: nat)
      reads this`idLoc, this`updateLoc
    {
      if id < UPDATE_ID_BIT then id in idLoc else id in updateLoc
    }

    function LocOf(id: nat): Loc
      requires Located(id)
      reads this`idLoc, this`updateLoc
    {
      if id < UPDATE_ID_BIT then idLoc[id] else updateLoc[id]
    }

    ghost predicate Valid()
      reads this
    {
      && Sound(want) && Allocated(want.Keys)
      && IdsOk(idLoc, updateLoc, owner) && owner.Keys == want.Keys
    }

    /** The map from id to record the store stands for. */
    ghost function Contents(): map<nat, R>
      reads this`idLoc, this`updateLoc, this`want
    {
      Records(idLoc, updateLoc, want)
    }

    lemma LocatedWanted(id: nat)
      requires Valid() && Located(id)
      ensures LocOf(id) in want && LocOf(id).page < |pages| && LocOf(id).slot < vpp
      ensures Loc(LocOf(id).page, LocOf(id).slot) == LocOf(id)
      ensures id in Contents() && Contents()[id] == want[LocOf(id)]
    {
      assert id < UPDATE_ID_BIT ==> id !in updateLoc;
    }

    lemma NotStored(id: nat)
      requires Valid() && id !in Contents()
      ensures !Located(id)
    {
      hide Valid, Contents;
      if Located(id) {
        LocatedWanted(id);
      }
    }

    /** Every slot handed out belongs to one id, and to one only; none is left to give again. */
    lemma OneOwner(p: nat, slot: nat)
      requires Valid() && Complete(pages, want.Keys) && p < |pages| && slot < pages[p].usedSlots
      ensures Loc(p, slot) in owner && Located(owner[Loc(p, slot)]) && LocOf(owner[Loc(p, slot)]) == Loc(p, slot)
      ensures forall id :: Located(id) && LocOf(id) == Loc(p, slot) ==> id == owner[Loc(p, slot)]
      ensures forall x: nat :: ListAt(lists[Shard(x)].freeSlots, x) == []
      ensures forall q :: p < q < |pages| && pages[q].sectionIdx == pages[p].sectionIdx ==> pages[p].usedSlots == vpp
    {
      hide Sound, SectionsOk, PagesOk;
      assert Loc(p, slot) in want;
      forall x: nat
        ensures ListAt(lists[Shard(x)].freeSlots, x) == []
      {
        NothingFree(lists, pages, vpp, want.Keys, x);
      }
    }

    /** Allocates a slot and writes the record there, through the section's buffer or directly. */
    method PlaceRecord(record: R, sectionKey: nat) returns (l: Loc)
      requires Sound(want) && Allocated(want.Keys)
      modifies this`sectionKeyToIdx, this`sectionIdxToKey, this`lists, this`pages
      modifies this`shards, this`buffered, this`file, this`cacheSlots, this`want, this`saved
      ensures Sound(want) && Allocated(want.Keys) && saved == old(saved)
      ensures l !in old(want) && want == old(want)[l := record]
      ensures Placed(old(pages), old(lists), l, sectionKey)
      ensures old(Complete(pages, want.Keys)) ==> Complete(pages, want.Keys)
      ensures |shards| == SHARDS && (l.slot == 0 && vpp > 1 ==> Holds(shards, pages, l.page))
    {
      hide BufsOk, FileOk, CacheOk, FileHas, Fifo, AllocOk, Complete, QueuesOk, Holds, Placed, LoadOrder, LiveBufs;
      var p, slot, x := AllocateSlotForSection(sectionKey);
      ghost var used := want.Keys + {Loc(p, slot)};
      var ok := WriteToSectionBuffer(x, p, slot, record);
      if !ok {
        WriteRecord(p, slot, record);
      }
      assert want.Keys == used;
      return Loc(p, slot);
    }

    method AssignLocation(id: nat, l: Loc)
      requires !Located(id) && l !in owner && IdsOk(idLoc, updateLoc, owner)
      modifies this`idLoc, this`updateLoc, this`owner
      ensures idLoc == Direct(old(idLoc), id, l) && updateLoc == Indirect(old(updateLoc), id, l)
      ensures owner == old(owner)[l := id] && IdsOk(idLoc, updateLoc, owner)
      ensures Located(id) && LocOf(id) == l
    {
      AssignIds(idLoc, updateLoc, owner, id, l);
      owner := owner[l := id];
      if id < UPDATE_ID_BIT {
        idLoc := idLoc[id := l];
      } else {
        updateLoc := updateLoc[id := l];
      }
    }

    /**
     Stores a record under a new id, on the section's next slot; its location is published
     last. No slot changes hands.
     The first record of a page that has room for more stays in a buffer.
     */
    method StoreEncoded(id: nat, record: R, sectionKey: nat)
      requires Valid() && !Located(id)
      modifies this
      ensures Valid() && Contents() == old(Contents())[id := record]
      ensures saved == old(saved) && forall l :: l in old(owner) ==> l in owner && owner[l] == old(owner)[l]
      ensures Located(id) && Placed(old(pages), old(lists), LocOf(id), sectionKey)
      ensures old(Complete(pages, want.Keys)) ==> Complete(pages, want.Keys)
      ensures Located(id) && |shards| == SHARDS && (LocOf(id).slot == 0 && vpp > 1 ==> Holds(shards, pages, LocOf(id).page))
    {
      hide Sound, Allocated, Complete, IdsOk, Records, Direct, Indirect, Holds, Placed;
      var l := PlaceRecord(record, sectionKey);
      AssignRecords(idLoc, updateLoc, owner, old(want), id, l, record);
      AssignLocation(id, l);
    }

    /** Reads one record: write buffer, then cache, then the page loaded into the cache, then the file. */
    method ReadVector(id: nat) returns (r: R)
      requires Valid() && Located(id)
      modifies this`cacheSlots, this`pageToSlot, this`cachedCount, this`fifoHand, this`loads
      ensures Valid() && Contents() == old(Contents()) && r == Contents()[id]
      ensures |shards| == SHARDS && var p := LocOf(id).page;
              && (maxCachedPages > 0 && !Holds(shards, pages, p) ==> p in pageToSlot)
              && loads == if Holds(shards, pages, p) then old(loads) else LoadOf(old(loads), maxCachedPages, p)
    {
      hide Sound, Tiers, Allocated, IdsOk, Records, Holds;
      LoadedIffCached(LocOf(id).page);
      LocatedWanted(id);
      var p, slot := LocOf(id).page, LocOf(id).slot;
      var hit;
      SoundTiers();
      hit, r := TryReadFromWriteBuf(p, slot);
      if hit {
        return;
      }
      if maxCachedPages > 0 {
        hit, r := TryReadFromCache(p, slot);
        if hit {
          return;
        }
        LoadPageToCache(p);
        hit, r := TryReadFromCache(p, slot);
        if hit {
          return;
        }
      }
      r := ReadFile(p, slot);
    }

    // ----- Reading in batches -----

    /** What a located id reads back as. */
    ghost function Expected(id: nat): R
      reads this`idLoc, this`updateLoc, this`want
    {
      if Located(id) && LocOf(id) in want then want[LocOf(id)] else zero
    }

    /** A miss is an id of the batch with its place, on a page no buffer holds. */
    ghost predicate MissOk(m: Miss, ids: seq<nat>)
      reads this`idLoc, this`updateLoc, this`want, this`pages, this`shards
    {
      && m.idx < |ids| && Located(ids[m.idx]) && LocOf(ids[m.idx]) == Loc(m.page, m.slot) && Loc(m.page, m.slot) in want
      && |shards| == SHARDS && m.page < |pages| && !Holds(shards, pages, m.page)
    }

    ghost predicate MissesOk(misses: seq<Miss>, ids: seq<nat>)
      reads this`idLoc, this`updateLoc, this`want, this`pages, this`shards
    {
      forall m :: m in misses ==> MissOk(m, ids)
    }

    /** The first `n` results are there, except for the misses. */
    ghost predicate Answered(buf: seq<R>, ids: seq<nat>, n: nat, misses: seq<Miss>)
      requires n <= |ids| <= |buf|
      reads this`idLoc, this`updateLoc, this`want
    {
      forall i :: 0 <= i < n ==> buf[i] == Expected(ids[i]) || Missing(misses, i)
    }

    /** Of the first `n` ids, those on pages no buffer holds are among the misses. */
    ghost predicate AllMissed(ids: seq<nat>, n: nat, misses: seq<Miss>)
      requires n <= |ids|
      reads this`idLoc, this`updateLoc, this`pages, this`shards
    {
      forall i :: 0 <= i < n && Located(ids[i]) && Unheld(LocOf(ids[i]).page) ==> Missing(misses, i)
    }

    ghost predicate Unheld(p: nat)
      reads this`pages, this`shards
    {
      |shards| == SHARDS && !Holds(shards, pages, p)
    }

    /** A batch has to load a page iff it has an id there and neither a buffer nor the cache has the page. */
    ghost predicate ToLoad(ids: seq<nat>, p: nat)
      reads this`idLoc, this`updateLoc, this`pages, this`shards, this`loads
    {
      Unheld(p) && p !in loads && exists i :: 0 <= i < |ids| && Located(ids[i]) && LocOf(ids[i]).page == p
    }

    /** Pass 1a: the write buffers, without the cache. */
    method ReadBuffered(ids: seq<nat>, out: array<R>) returns (ok: bool, misses: seq<Miss>)
      requires Valid() && |ids| <= out.Length
      modifies out
      ensures ok == forall i :: 0 <= i < |ids| ==> Located(ids[i])
      ensures ok ==> MissesOk(misses, ids) && Answered(out[..], ids, |ids|, misses) && AllMissed(ids, |ids|, misses)
    {
      hide Sound, Tiers, Allocated, IdsOk, Records, Holds;
      misses := [];
      for i := 0 to |ids|
        invariant forall j :: 0 <= j < i ==> Located(ids[j])
        invariant MissesOk(misses, ids) && Answered(out[..], ids, i, misses) && AllMissed(ids, i, misses)
      {
        if !Located(ids[i]) {
          return false, misses;
        }
        LocatedWanted(ids[i]);
        SoundTiers();
        var l := LocOf(ids[i]);
        var hit, r := TryReadFromWriteBuf(l.page, l.slot);
        ghost var before := misses;
        if hit {
          out[i] := r;
        } else {
          misses := misses + [Miss(i, l.page, l.slot)];
          assert misses[|before|].idx == i;
        }
        StillMissing(before, misses);
      }
      return true, misses;
    }

    /** Pass 1b: the cache, for what the buffers did not have. */
    method ReadCached(ids: seq<nat>, out: array<R>, misses: seq<Miss>) returns (left: seq<Miss>)
      requires Valid() && |ids| <= out.Length && MissesOk(misses, ids) && Answered(out[..], ids, |ids|, misses)
      modifies out
      ensures MissesOk(left, ids) && Answered(out[..], ids, |ids|, left)
      ensures forall m :: m in left <==> m in misses && m.page !in pageToSlot
    {
      hide Sound, Allocated, IdsOk, Records, Holds;
      left := [];
      for k := 0 to |misses|
        invariant MissesOk(left, ids) && Answered(out[..], ids, |ids|, left + misses[k..])
        invariant forall m :: m in left <==> m in misses[..k] && m.page !in pageToSlot
      {
        var m := misses[k];
        assert MissOk(m, ids);
        assert misses[..k + 1] == misses[..k] + [m];
        ghost var before := left + misses[k..];
        var hit, r := TryReadFromCache(m.page, m.slot);
        if hit {
          out[m.idx] := r;
          assert misses[k..] == [m] + misses[k + 1..];
          OneLess(left, m, misses[k + 1..]);
        } else {
          assert left + misses[k..] == left + [m] + misses[k + 1..];
          left := left + [m];
        }
      }
      assert left + misses[|misses|..] == left;
      assert misses[..|misses|] == misses;
    }

    /** Pass 2, first half: each page with a miss is loaded once. */
    method LoadPages(unique: seq<nat>)
      requires Valid() && forall p :: p in unique ==> p < |pages|
      modifies this`cacheSlots, this`pageToSlot, this`cachedCount, this`fifoHand, this`loads
      ensures Valid() && loads == LoadAll(old(loads), maxCachedPages, unique)
    {
      hide Sound, Allocated, IdsOk, Records;
      for k := 0 to |unique|
        invariant Valid() && loads == LoadAll(old(loads), maxCachedPages, unique[..k])
      {
        assert unique[k] in unique && unique[..k + 1][..k] == unique[..k];
        LoadPageToCache(unique[k]);
      }
      assert unique[..|unique|] == unique;
    }

    /** Pass 2, second half: from the cache, or from the file if the page did not stay. */
    method ReadLoaded(ids: seq<nat>, out: array<R>, misses: seq<Miss>)
      requires Valid() && |ids| <= out.Length && MissesOk(misses, ids) && Answered(out[..], ids, |ids|, misses)
      modifies out
      ensures Answered(out[..], ids, |ids|, [])
    {
      hide Sound, Allocated, IdsOk, Records, Holds;
      for k := 0 to |misses|
        invariant Answered(out[..], ids, |ids|, misses[k..])
      {
        var m := misses[k];
        assert MissOk(m, ids);
        var hit, r := TryReadFromCache(m.page, m.slot);
        if !hit {
          r := ReadFile(m.page, m.slot);
        }
        out[m.idx] := r;
        assert misses[k..] == [] + [m] + misses[k + 1..];
        OneLess([], m, misses[k + 1..]);
      }
    }

    /**
     Reads a batch into `out`: buffers, then cache, then the pages of the misses. Of these
     each is loaded once, in page order, and no other page is.
     */
    method ReadVectorsBatchFlat(ids: seq<nat>, out: array<R>) returns (ok: bool, ghost loaded: seq<nat>)
      requires Valid() && |ids| <= out.Length
      modifies out, this`cacheSlots, this`pageToSlot, this`cachedCount, this`fifoHand, this`loads
      ensures Valid() && Contents() == old(Contents())
      ensures ok == forall i :: 0 <= i < |ids| ==> Located(ids[i])
      ensures ok ==> forall i :: 0 <= i < |ids| ==> ids[i] in Contents() && out[i] == Contents()[ids[i]]
      ensures ok ==> Ascending(loaded) && forall p :: p in loaded <==> old(ToLoad(ids, p))
      ensures loads == if ok then LoadAll(old(loads), maxCachedPages, loaded) else old(loads)
    {
      hide Sound, Allocated, IdsOk, Records, Holds, Sorted, Ascending, LocOf, AllMissed, ToLoad, LoadAll, OnMiss;
      var misses, left;
      loaded := [];
      ok, misses := ReadBuffered(ids, out);
      if !ok {
        return;
      }
      left := ReadCached(ids, out, misses);
      ToLoadIs(ids, misses, left);
      misses := SortByPage(left);
      var unique := UniquePages(misses);
      assert forall p :: OnMiss(misses, p) <==> OnMiss(left, p) by { SameMisses(misses, left); }
      loaded := unique;
      OnPages(ids, left);
      LoadPages(unique);
      ReadLoaded(ids, out, misses);
      AllAnswered(ids, out[..]);
    }

    lemma OnPages(ids: seq<nat>, misses: seq<Miss>)
      requires MissesOk(misses, ids)
      ensures forall p: nat :: OnMiss(misses, p) ==> p < |pages|
    {
      hide Holds;
    }

    /** What is left to load is what was missed and is not cached. */
    lemma ToLoadIs(ids: seq<nat>, misses: seq<Miss>, left: seq<Miss>)
      requires Valid() && MissesOk(misses, ids) && AllMissed(ids, |ids|, misses)
      requires forall m :: m in left <==> m in misses && m.page !in pageToSlot
      ensures forall p :: OnMiss(left, p) <==> ToLoad(ids, p)
    {
      hide Sound, Allocated, IdsOk, Records, Holds;
      forall p
        ensures OnMiss(left, p) <==> ToLoad(ids, p)
      {
        LoadedIffCached(p);
        if OnMiss(left, p) {
          var m :| m in left && m.page == p;
          assert MissOk(m, ids);
        }
        if ToLoad(ids, p) {
          var i :| 0 <= i < |ids| && Located(ids[i]) && LocOf(ids[i]).page == p;
          assert Missing(misses, i);
          var m :| m in misses && m.idx == i;
          assert MissOk(m, ids);
          assert m in left;
        }
      }
    }

    lemma AllAnswered(ids: seq<nat>, buf: seq<R>)
      requires Valid() && |ids| <= |buf| && Answered(buf, ids, |ids|, [])
      requires forall i :: 0 <= i < |ids| ==> Located(ids[i])
      ensures forall i :: 0 <= i < |ids| ==> ids[i] in Contents() && buf[i] == Contents()[ids[i]]
    {
      hide Sound, Allocated, IdsOk, Records, LocOf, Contents, Located;
      forall i | 0 <= i < |ids|
        ensures ids[i] in Contents() && buf[i] == Contents()[ids[i]]
      {
        LocatedWanted(ids[i]);
        assert !Missing([], i);
      }
    }

    // ----- Overwriting -----

    /** What a read of a slot finds: the buffer's copy, else the cache's, else the file's. */
    ghost function Look(l: Loc): R
      requires |shards| == SHARDS && l.page < |pages|
      reads this`shards, this`pages, this`file, this`cacheSlots, this`pageToSlot
    {
      var data := if Holds(shards, pages, l.page) then Seen(file, shards, pages, l.page, vpp, zero)
                  else if l.page in pageToSlot && pageToSlot[l.page] < |cacheSlots| then cacheSlots[pageToSlot[l.page]].data
                  else FilePage(file, l.page, vpp, zero);
      if l.slot < |data| then data[l.slot] else zero
    }

    /** Of a page in a buffer, reads see that buffer. */
    lemma LookOfHeld(l: Loc)
      requires |shards| == SHARDS && l.page < |pages| && Holds(shards, pages, l.page)
      ensures Look(l) == Buffered(shards, pages, l, zero)
    {}

    /** Reads find what is wanted. */
    lemma LookFindsWanted(l: Loc)
      requires Sound(want) && l in want && l.page < |pages|
      ensures |shards| == SHARDS && Look(l) == want[l]
      ensures Holds(shards, pages, l.page) ==> Buffered(shards, pages, l, zero) == want[l]
    {
      hide QueuesOk, Saved, LoadOrder;
      assert Loc(l.page, l.slot) == l;
      SeenAgrees(file, shards, pages, l.page, vpp, zero, want);
      if l.page in pageToSlot {
        assert Agrees(cacheSlots[pageToSlot[l.page]].data, l.page, vpp, want);
      }
    }

    /**
     Stores a record under an id that has a slot already. The write goes past the
     write buffer: unless a buffer holds its page, reads see the new record and the
     store is as if it had been stored in place of the old one. With the page in a
     buffer, the record in the buffer stays, and reads still find that one.
     */
    method Overwrite(id: nat, record: R)
      requires Valid() && Located(id)
      modifies this`file, this`cacheSlots, this`want, this`saved
      ensures LocOf(id).page < |pages| && |shards| == SHARDS && id in old(Contents())
      ensures Look(LocOf(id)) == record <==> !Holds(shards, pages, LocOf(id).page) || old(Contents())[id] == record
      ensures !Holds(shards, pages, LocOf(id).page) ==> Valid() && Contents() == old(Contents())[id := record]
      ensures Holds(shards, pages, LocOf(id).page) ==> Tiers(want) && want == old(want)
    {
      hide Sound, Allocated, IdsOk, Records, Holds, Look, Rewritten, BufsOk, FileOk;
      LocatedWanted(id);
      var l := LocOf(id);
      LookFindsWanted(l);
      ReassignRecords(idLoc, updateLoc, owner, want, id, record);
      WriteRecord(l.page, l.slot, record);
      if !Holds(shards, pages, l.page) {
        assert want.Keys == old(want.Keys);
        LookFindsWanted(l);
      } else {
        LookOfHeld(l);
      }
    }

    // ----- Flushing -----

    method FlushShard(k: nat)
      requires Agreeing(want) && Cached(want) && Saved(want) && k < SHARDS
      modifies this`shards, this`file, this`cacheSlots
      ensures Agreeing(want) && Cached(want) && Saved(want)
      ensures shards == old(shards)[k := SectionShard(map[], [])]
    {
      hide BufsOk, FileOk, FileHas, Fifo, FileAgrees, CacheOk, CacheAgreesBut;
      var todo := shards[k].writeBufs.Keys;
      while todo != {}
        invariant shards == old(shards) && todo <= shards[k].writeBufs.Keys
        invariant Agreeing(want) && Cached(want) && Saved(want)
        invariant forall x :: x in shards[k].writeBufs && x !in todo ==>
                    FileAgrees(file, vpp, zero, shards[k].writeBufs[x].pageId, want)
      {
        var x :| x in todo;
        BufInShard(shards, pages, vpp, want, k, x);
        CachedAllBut(want, shards[k].writeBufs[x].pageId);
        ghost var before := file;
        FlushBuffer(x);
        FlushedElsewhere(before, vpp, zero, want, shards[k].writeBufs[x].pageId, shards[k].writeBufs[x].data);
        todo := todo - {x};
      }
      ClearShard(file, shards, pages, vpp, zero, want, k);
      shards := shards[k := SectionShard(map[], [])];
    }

    /** Writes every buffer to the file and drops them all. */
    method FlushWrites()
      requires Sound(want) && Allocated(want.Keys)
      modifies this`shards, this`file, this`cacheSlots, this`buffered
      ensures Sound(want) && FileHas(file, vpp, zero, want)
    {
      hide BufsOk, FileOk, FileHas, Fifo, CacheOk, QueueOk, AllocOk;
      for k := 0 to SHARDS
        invariant Agreeing(want) && Cached(want) && Saved(want)
        invariant forall j :: 0 <= j < k ==> shards[j] == SectionShard(map[], [])
      {
        FlushShard(k);
      }
      buffered := 0;
      NothingHeld(file, shards, pages, vpp, zero, want, writeBufCap);
      WantedOnPages();
    }

    lemma WantedOnPages()
      requires Allocated(want.Keys)
      requires forall p: nat :: p < |pages| ==> FileAgrees(file, vpp, zero, p, want)
      requires forall p :: p in file ==> |file[p]| == vpp
      ensures FileHas(file, vpp, zero, want)
    {
      NothingBeyond(pages, want);
    }

    /** Flushes everything and syncs the file: if that succeeds, every record is saved. */
    method SyncData(synced: bool) returns (ok: bool)
      requires Valid()
      modifies this`shards, this`file, this`cacheSlots, this`buffered, this`saved
      ensures Valid() && Contents() == old(Contents())
      ensures ok == synced && saved == if ok then want else old(saved)
    {
      hide Tiers, FileHas, Cached, QueuesOk, Allocated, IdsOk, Records;
      FlushWrites();
      if synced {
        saved := want;
      }
      return synced;
    }

    // ----- Checkpoint and reopen -----

    /** Saves the allocator and the id maps. */
    method SerializeMetadata() returns (m: Meta)
      requires Valid()
      ensures Complete(pages, want.Keys) ==> Describes(m, vpp, want, owner)
      ensures Records(m.idLoc, m.updateLoc, want) == Contents()
    {
      KeysOnce(sectionKeyToIdx, sectionIdxToKey);
      m := Meta(MAX_KNOWN_VERSION, vpp, pages, sectionIdxToKey, idLoc, updateLoc);
    }

    /** The fields are those of the metadata, the lists rebuilt, buffers and cache empty. */
    ghost predicate Installed(m: Meta)
      reads this
    {
      && pages == m.pages && sectionIdxToKey == m.keys && sectionKeyToIdx == KeyIndex(m.keys)
      && idLoc == m.idLoc && updateLoc == m.updateLoc && shards == NoShards()
      && |lists| == SHARDS && Rebuilt(lists, pages, vpp, InUse(m), |pages|)
      && cacheSlots == [] && pageToSlot == map[] && cachedCount == 0 && fifoHand == 0 && loads == []
    }

    method ResetPageCache()
      modifies this`cacheSlots, this`pageToSlot, this`cachedCount, this`fifoHand, this`loads
      ensures cacheSlots == [] && pageToSlot == map[] && cachedCount == 0 && fifoHand == 0 && loads == []
    {
      cacheSlots, pageToSlot, cachedCount, fifoHand, loads := [], map[], 0, 0, [];
    }

    method InstallMaps(m: Meta)
      modifies this`sectionIdxToKey, this`sectionKeyToIdx, this`idLoc, this`updateLoc
      ensures sectionIdxToKey == m.keys && sectionKeyToIdx == KeyIndex(m.keys)
      ensures idLoc == m.idLoc && updateLoc == m.updateLoc
    {
      sectionIdxToKey := m.keys;
      sectionKeyToIdx := IndexKeys(m.keys);
      idLoc, updateLoc := m.idLoc, m.updateLoc;
    }

    method InstallMetadata(m: Meta) returns (ok: bool)
      requires m.vectorsPerPage == vpp
      modifies this`pages, this`sectionIdxToKey, this`sectionKeyToIdx, this`idLoc, this`updateLoc, this`shards, this`lists
      modifies this`cacheSlots, this`pageToSlot, this`cachedCount, this`fifoHand, this`loads
      ensures ok == PagesAccepted(m, vpp)
      ensures ok ==> Installed(m)
    {
      hide Rebuilt, InUse, KeyIndex, InUsedSlots, NoShards;
      ok, pages := ReadPages(m.pages, vpp);
      if !ok {
        return;
      }
      InstallMaps(m);
      shards := NoShards();
      var inUse;
      ok, inUse := MarkInUse(m);
      if !ok {
        return;
      }
      lists := RebuildLists(pages, vpp, inUse);
      ResetPageCache();
    }

    /**
     Loads saved metadata and rebuilds the slot lists; refuses metadata of another
     shape and direct ids outside the used slots. Over a file that still has the
     records the metadata was saved with, the store is back as it was then.
     */
    method DeserializeMetadata(m: Meta, ghost wanted: map<Loc, R>, ghost owners: map<Loc, nat>) returns (ok: bool)
      requires buffered == 0 && vpp > 0
      modifies this
      ensures ok == Accepted(m, vpp) && file == old(file) && buffered == 0
      ensures ok ==> |lists| == SHARDS && pages == m.pages && Rebuilt(lists, pages, vpp, InUse(m), |pages|)
      ensures Describes(m, vpp, wanted, owners) && FileHas(file, vpp, zero, wanted) ==>
                && ok && Valid() && Contents() == Records(m.idLoc, m.updateLoc, wanted)
                && want == wanted && saved == wanted && owner == owners && Complete(pages, want.Keys)
    {
      hide Rebuilt, InUse, Describes, FileHas, Valid, Complete, PagesAccepted, Records, KeyIndex, NoShards, IdsOk;
      if Describes(m, vpp, wanted, owners) {
        DescribedIsAccepted(m, vpp, wanted, owners);
      }
      if m.version < 1 || m.version > MAX_KNOWN_VERSION || m.vectorsPerPage != vpp {
        return false;
      }
      ok := InstallMetadata(m);
      if !ok {
        return;
      }
      want, owner, saved := wanted, owners, wanted;
      if Describes(m, vpp, wanted, owners) && FileHas(file, vpp, zero, wanted) {
        ReopenedValid(m);
      }
    }

    lemma ReopenedValid(m: Meta)
      requires Describes(m, vpp, want, owner) && FileHas(file, vpp, zero, want) && saved == want
      requires Installed(m) && buffered == 0
      ensures Valid() && Complete(pages, want.Keys)
    {
      hide Rebuilt, InUse, FileHas, ListsOk, IdsOk;
      DescribedInUse(m, vpp, want, owner);
      RebuiltListsOk(lists, pages, vpp, want.Keys);
      KeyIndexOk(m.keys);
      ReopenedTiers(file, pages, vpp, zero, want, maxCachedPages, writeBufCap);
    }
  }

  lemma DropBufQueues<R>(shards: seq<SectionShard<R>>, x: nat, cap: nat)
    requires |shards| == SHARDS && QueuesOk(shards, cap)
    ensures QueuesOk(DropBuf(shards, x), cap)
  {
    var k := Shard(x);
    FewerBufs(shards[k].writeBufs, x);
    assert QueueOk(shards[k], cap, 0);
  }

  /** The loop only stops within the cap: over it, the queue cannot be empty. */
  lemma WithinCap<R>(sh: SectionShard<R>, cap: nat)
    requires cap > 0 && QueueOk(sh, cap, 1)
    requires |sh.writeBufs| <= PerShard(cap) || sh.bufOrder == []
    ensures QueueOk(sh, cap, 0)
  {
    assert |sh.writeBufs.Keys| == |sh.writeBufs|;
    if sh.writeBufs.Keys != {} {
      var x :| x in sh.writeBufs.Keys;
      assert x in sh.bufOrder;
    }
  }

  lemma BufOkIs<R>(b: WriteBuf<R>, x: nat, pages: seq<PageMeta>, n: nat, want: map<Loc, R>)
    requires b.pageId < |pages| && pages[b.pageId].sectionIdx == x && Agrees(b.data, b.pageId, n, want)
    ensures BufOk(b, x, Shard(x), pages, n, want)
  {}

  lemma ReplaceBufCounts<R>(shards: seq<SectionShard<R>>, x: nat, b: WriteBuf<R>, cap: nat)
    requires |shards| == SHARDS && x in BufOf(shards, x) && QueuesOk(shards, cap)
    ensures QueuesOk(SetBuf(shards, x, b), cap) && LiveBufs(SetBuf(shards, x, b)) == LiveBufs(shards)
  {
    var k := Shard(x);
    var sh := shards[k].(writeBufs := shards[k].writeBufs[x := b]);
    LiveBufsUpdate(shards, k, sh);
    assert sh.writeBufs.Keys == shards[k].writeBufs.Keys;
    assert |sh.writeBufs| == |sh.writeBufs.Keys| && |shards[k].writeBufs| == |shards[k].writeBufs.Keys|;
  }

  lemma AddBufCounts<R>(shards: seq<SectionShard<R>>, x: nat, b: WriteBuf<R>, cap: nat)
    requires |shards| == SHARDS && x !in BufOf(shards, x) && QueuesOk(shards, cap)
    ensures var after := SetBuf(shards, x, b); var k := Shard(x);
            && LiveBufs(after) == LiveBufs(shards) + 1
            && (cap == 0 ==> QueuesOk(after, cap))
            && (cap > 0 ==> QueueOk(after[k].(bufOrder := after[k].bufOrder + [x]), cap, 1))
            && (forall j :: 0 <= j < SHARDS && j != k ==> QueueOk(after[j], cap, 0))
  {
    var k := Shard(x);
    var sh := shards[k].(writeBufs := shards[k].writeBufs[x := b]);
    LiveBufsUpdate(shards, k, sh);
    assert sh.writeBufs.Keys == shards[k].writeBufs.Keys + {x};
    assert |sh.writeBufs| == |sh.writeBufs.Keys| && |shards[k].writeBufs| == |shards[k].writeBufs.Keys|;
    assert QueueOk(shards[k], cap, 0);
  }

  lemma BufInShard<R>(shards: seq<SectionShard<R>>, pages: seq<PageMeta>, n: nat, want: map<Loc, R>, k: nat, x: nat)
    requires BufsOk(shards, pages, n, want) && k < SHARDS && x in shards[k].writeBufs
    ensures Shard(x) == k
  {
    assert ShardBufsOk(shards[k], k, pages, n, want);
  }

  /** With the page's records in the file, nobody needs its buffer. */
  lemma FileAfterDrop<R>(file: map<nat, seq<R>>, shards: seq<SectionShard<R>>, pages: seq<PageMeta>, n: nat, zero: R,
                         want: map<Loc, R>, x: nat)
    requires |shards| == SHARDS && FileOk(file, shards, pages, n, zero, want) && x in BufOf(shards, x)
    requires FileAgrees(file, n, zero, BufOf(shards, x)[x].pageId, want)
    ensures FileOk(file, DropBuf(shards, x), pages, n, zero, want)
  {
    hide FileAgrees, DropBuf;
    DropBufOf(shards, x);
    var after := DropBuf(shards, x);
    forall p: nat | p < |pages| && !Holds(after, pages, p)
      ensures FileAgrees(file, n, zero, p, want)
    {
      if pages[p].sectionIdx != x {
        HoldsOther(shards, after, pages, x, p);
      }
    }
  }

  /** Writing a page as it is wanted keeps what an earlier sync put into it. */
  lemma SavedAfterWrite<R>(file: map<nat, seq<R>>, n: nat, zero: R, want: map<Loc, R>, saved: map<Loc, R>, p: nat, data: seq<R>)
    requires forall l :: l in saved ==> l in want && want[l] == saved[l]
    requires FileHas(file, n, zero, saved) && Agrees(data, p, n, want)
    ensures FileHas(file[p := data], n, zero, saved)
  {
    hide Agrees;
    var written := file[p := data];
    forall q: nat
      ensures FileAgrees(written, n, zero, q, saved)
    {
      assert FileAgrees(file, n, zero, q, saved);
      if q == p {
        AgreesFewer(data, p, n, want, saved);
      }
    }
  }

  // ----- The empty store -----

  function NoLists(): (l: seq<SlotLists>)
    ensures |l| == SHARDS
  {
    seq(SHARDS, _ => SlotLists(map[], map[]))
  }

  function NoShards<R>(): (s: seq<SectionShard<R>>)
    ensures |s| == SHARDS
  {
    seq(SHARDS, _ => SectionShard(map[], []))
  }

  lemma {:induction false} NoBufsNoneLive<R>(shards: seq<SectionShard<R>>)
    requires forall k :: 0 <= k < |shards| ==> shards[k].writeBufs == map[]
    ensures LiveBufs(shards) == 0
  {
    if shards != [] {
      NoBufsNoneLive(shards[..|shards| - 1]);
    }
  }

  lemma EmptyTiers<R>(file: map<nat, seq<R>>, n: nat, zero: R, max: nat, cap: nat)
    requires forall p :: p in file ==> |file[p]| == n
    ensures var want: map<Loc, R> := map[]; var shards := NoShards();
            && BufsOk(shards, [], n, want) && FileOk(file, shards, [], n, zero, want) && LiveBufs(shards) == 0
            && QueuesOk(shards, cap) && CacheOk([], map[], 0, n, want) && Fifo<R>([], [], 0, 0, max)
            && FileHas(file, n, zero, want)
  {
    NoBufsNoneLive<R>(NoShards());
  }

  lemma EmptyAlloc(n: nat)
    ensures AllocOk([], map[], [], NoLists(), n, {})
  {}

  /** The record a page's write buffer holds for a slot. */
  ghost function Buffered<R>(shards: seq<SectionShard<R>>, pages: seq<PageMeta>, l: Loc, zero: R): R
    requires |shards| == SHARDS && l.page < |pages| && Holds(shards, pages, l.page)
  {
    var x := pages[l.page].sectionIdx;
    var data := BufOf(shards, x)[x].data;
    if l.slot < |data| then data[l.slot] else zero
  }

  // ----- Saved records -----

  /** A saved record that is overwritten in place is saved as it is now. */
  function Rewritten<R>(saved: map<Loc, R>, l: Loc, r: R): map<Loc, R> {
    if l in saved then saved[l := r] else saved
  }

  lemma RewrittenSaved<R>(file: map<nat, seq<R>>, n: nat, zero: R, want: map<Loc, R>, saved: map<Loc, R>, l: Loc, r: R,
                          data: seq<R>)
    requires forall k :: k in saved ==> k in want && want[k] == saved[k]
    requires FileHas(file, n, zero, saved) && Agrees(data, l.page, n, want[l := r])
    ensures var kept := Rewritten(saved, l, r);
            && (forall k :: k in kept ==> k in want[l := r] && want[l := r][k] == kept[k])
            && FileHas(file[l.page := data], n, zero, kept)
  {
    hide Agrees;
    var written, kept := file[l.page := data], Rewritten(saved, l, r);
    forall q: nat
      ensures FileAgrees(written, n, zero, q, kept)
    {
      assert FileAgrees(file, n, zero, q, saved);
      if q == l.page {
        AgreesFewer(data, q, n, want[l := r], kept);
      } else {
        AgreesElsewhere(FilePage(file, q, n, zero), q, n, saved, l, r);
      }
    }
  }

  // ----- Flushing -----

  lemma FlushedElsewhere<R>(file: map<nat, seq<R>>, n: nat, zero: R, want: map<Loc, R>, p: nat, data: seq<R>)
    ensures forall q: nat :: q != p && FileAgrees(file, n, zero, q, want) ==> FileAgrees(file[p := data], n, zero, q, want)
  {
    hide Agrees;
  }

  /** With all of a shard's buffers in the file, nobody needs the shard's buffers. */
  lemma ClearShard<R>(file: map<nat, seq<R>>, shards: seq<SectionShard<R>>, pages: seq<PageMeta>, n: nat, zero: R,
                      want: map<Loc, R>, k: nat)
    requires k < SHARDS && BufsOk(shards, pages, n, want) && FileOk(file, shards, pages, n, zero, want)
    requires forall x :: x in shards[k].writeBufs ==> FileAgrees(file, n, zero, shards[k].writeBufs[x].pageId, want)
    ensures var after := shards[k := SectionShard(map[], [])];
            BufsOk(after, pages, n, want) && FileOk(file, after, pages, n, zero, want)
  {
    hide FileAgrees, BufOk;
    var after := shards[k := SectionShard(map[], [])];
    forall j | 0 <= j < SHARDS
      ensures ShardBufsOk(after[j], j, pages, n, want)
    {
      assert ShardBufsOk(shards[j], j, pages, n, want);
    }
    forall p: nat | p < |pages| && !Holds(after, pages, p)
      ensures FileAgrees(file, n, zero, p, want)
    {
      var x := pages[p].sectionIdx;
      if Holds(shards, pages, p) && Shard(x) == k {
        assert x in shards[k].writeBufs;
      }
    }
  }

  /** Without buffers the file is in charge of every page. */
  lemma NothingHeld<R>(file: map<nat, seq<R>>, shards: seq<SectionShard<R>>, pages: seq<PageMeta>, n: nat, zero: R,
                       want: map<Loc, R>, cap: nat)
    requires |shards| == SHARDS && FileOk(file, shards, pages, n, zero, want)
    requires forall k :: 0 <= k < SHARDS ==> shards[k] == SectionShard(map[], [])
    ensures forall p: nat :: p < |pages| ==> FileAgrees(file, n, zero, p, want)
    ensures forall p :: p in file ==> |file[p]| == n
    ensures LiveBufs(shards) == 0 && QueuesOk(shards, cap)
  {
    hide FileAgrees;
    NoBufsNoneLive(shards);
    forall p: nat | p < |pages|
      ensures FileAgrees(file, n, zero, p, want)
    {
      assert !Holds(shards, pages, p);
    }
  }

  lemma ReopenedTiers<R>(file: map<nat, seq<R>>, pages: seq<PageMeta>, n: nat, zero: R, want: map<Loc, R>, max: nat, cap: nat)
    requires FileHas(file, n, zero, want)
    ensures var shards := NoShards();
            && BufsOk(shards, pages, n, want) && FileOk(file, shards, pages, n, zero, want) && LiveBufs(shards) == 0
            && QueuesOk(shards, cap) && CacheOk([], map[], 0, n, want) && Fifo<R>([], [], 0, 0, max)
  {
    NoBufsNoneLive<R>(NoShards());
    forall p | p in file
      ensures |file[p]| == n
    {
      assert FileAgrees(file, n, zero, p, want);
    }
  }

  /** With pages for two records: the only record of a store is on a page still in a buffer. */
  lemma OnlyRecordFirst(store: PagedVectorStorage<nat>, id: nat)
    requires store.Valid() && Complete(store.pages, store.want.Keys) && store.Located(id) && store.Contents().Keys == {id}
    ensures store.LocOf(id).slot == 0
  {
    hide store.Sound;
    store.LocatedWanted(id);
    var l := store.LocOf(id);
    assert l in store.want.Keys;
    store.OneOwner(l.page, 0);
    var first := store.owner[Loc(l.page, 0)];
    store.LocatedWanted(first);
  }

  /** A run on which the overwrite is not seen: 1 is stored, 2 stored over it, and 1 read back. */
  method OverwriteUnseen() returns (hit: bool, r: nat)
    ensures hit && r == 1
  {
    hide PagedVectorStorage.Valid, PagedVectorStorage.Tiers, PagedVectorStorage.Contents, Holds, Complete;
    var store := new PagedVectorStorage<nat>(2, 0, 0, 8, map[]);
    store.NotStored(7);
    store.StoreEncoded(7, 1, 0);
    OnlyRecordFirst(store, 7);
    store.LocatedWanted(7);
    var l := store.LocOf(7);
    store.Overwrite(7, 2);
    hit, r := store.TryReadFromWriteBuf(l.page, l.slot);
  }
}
