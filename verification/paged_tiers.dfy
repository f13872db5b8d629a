/**
 The tiers of the paged vector store (include/disk_vector.h) as values: section
 write buffers, the FIFO page cache and the file. A page is a sequence of record
 slots; `want` says which record each assigned slot must read back as.
 */
module PagedTiers {
  import opened Basics

  datatype Loc = Loc(page: nat, slot: nat)

  datatype PageMeta = PageMeta(sectionIdx: nat, usedSlots: nat)

  datatype WriteBuf<R> = WriteBuf(pageId: nat, data: seq<R>)

  /** A section shard's slot lists: pages with room, and slots given back. */
  datatype SlotLists = SlotLists(openPages: map<nat, seq<nat>>, freeSlots: map<nat, seq<Loc>>)

  /** A section shard's write buffers and the queue of their creation. */
  datatype SectionShard<R> = SectionShard(writeBufs: map<nat, WriteBuf<R>>, bufOrder: seq<nat>)

  datatype CachedPage<R> = CachedPage(pageId: nat, data: seq<R>)

  const SHARDS: nat := 64

  function Shard(section: nat): (s: nat)
    ensures s < SHARDS
  {
    section % SHARDS
  }

  function Zeros<R>(n: nat, zero: R): (z: seq<R>)
    ensures |z| == n
  {
    seq(n, _ => zero)
  }

  /** A page of the file; what was never written reads as zeros. */
  function FilePage<R>(file: map<nat, seq<R>>, p: nat, n: nat, zero: R): seq<R> {
    if p in file then file[p] else Zeros(n, zero)
  }

  // ----- Agreement with the wanted records -----

  ghost predicate Agrees<R>(data: seq<R>, p: nat, n: nat, want: map<Loc, R>) {
    |data| == n && forall s: nat :: Loc(p, s) in want ==> s < n && data[s] == want[Loc(p, s)]
  }

  ghost predicate FileAgrees<R>(file: map<nat, seq<R>>, n: nat, zero: R, p: nat, want: map<Loc, R>) {
    Agrees(FilePage(file, p, n, zero), p, n, want)
  }

  /** The file holds every record of `saved`. */
  ghost predicate FileHas<R>(file: map<nat, seq<R>>, n: nat, zero: R, saved: map<Loc, R>) {
    forall p: nat :: FileAgrees(file, n, zero, p, saved)
  }

  /** A section's buffer, if it has one. */
  function BufOf<R>(shards: seq<SectionShard<R>>, x: nat): (b: map<nat, WriteBuf<R>>)
    requires |shards| == SHARDS
  {
    shards[Shard(x)].writeBufs
  }

  predicate Holds<R>(shards: seq<SectionShard<R>>, pages: seq<PageMeta>, p: nat)
    requires |shards| == SHARDS
  {
    p < |pages| &&
    var x := pages[p].sectionIdx;
    x in BufOf(shards, x) && BufOf(shards, x)[x].pageId == p
  }

  /** One live buffer: filed under its section's shard, for a page of that section, with that page's records. */
  ghost predicate BufOk<R>(b: WriteBuf<R>, x: nat, k: nat, pages: seq<PageMeta>, n: nat, want: map<Loc, R>) {
    && Shard(x) == k && b.pageId < |pages| && pages[b.pageId].sectionIdx == x
    && Agrees(b.data, b.pageId, n, want)
  }

  ghost predicate ShardBufsOk<R>(sh: SectionShard<R>, k: nat, pages: seq<PageMeta>, n: nat, want: map<Loc, R>) {
    forall x :: x in sh.writeBufs ==> BufOk(sh.writeBufs[x], x, k, pages, n, want)
  }

  ghost predicate BufsOk<R>(shards: seq<SectionShard<R>>, pages: seq<PageMeta>, n: nat, want: map<Loc, R>) {
    |shards| == SHARDS && forall k :: 0 <= k < SHARDS ==> ShardBufsOk(shards[k], k, pages, n, want)
  }

  /** A page no buffer holds reads its wanted records from the file. */
  ghost predicate FileOk<R>(file: map<nat, seq<R>>, shards: seq<SectionShard<R>>, pages: seq<PageMeta>, n: nat,
                            zero: R, want: map<Loc, R>)
    requires |shards| == SHARDS
  {
    && (forall p :: p in file ==> |file[p]| == n)
    && (forall p: nat :: p < |pages| && !Holds(shards, pages, p) ==> FileAgrees(file, n, zero, p, want))
  }

  // ----- The page cache -----

  ghost predicate CacheIndex<R>(cache: seq<CachedPage<R>>, index: map<nat, nat>, count: nat) {
    && count <= |cache|
    && (forall p :: p in index ==> index[p] < count && cache[index[p]].pageId == p)
    && (forall c :: 0 <= c < count ==> cache[c].pageId in index && index[cache[c].pageId] == c)
  }

  ghost predicate CacheAgrees<R>(cache: seq<CachedPage<R>>, count: nat, n: nat, want: map<Loc, R>)
    requires count <= |cache|
  {
    forall c :: 0 <= c < count ==> Agrees(cache[c].data, cache[c].pageId, n, want)
  }

  ghost predicate CacheOk<R>(cache: seq<CachedPage<R>>, index: map<nat, nat>, count: nat, n: nat, want: map<Loc, R>) {
    CacheIndex(cache, index, count) && CacheAgrees(cache, count, n, want)
  }

  // ----- Live buffers are counted -----

  function LiveBufs<R>(shards: seq<SectionShard<R>>): nat {
    if shards == [] then 0 else LiveBufs(shards[..|shards| - 1]) + |shards[|shards| - 1].writeBufs|
  }

  lemma {:induction false} LiveBufsUpdate<R>(shards: seq<SectionShard<R>>, k: nat, sh: SectionShard<R>)
    requires k < |shards|
    ensures LiveBufs(shards[k := sh]) == LiveBufs(shards) - |shards[k].writeBufs| + |sh.writeBufs|
  {
    var n := |shards| - 1;
    if k < n {
      assert shards[k := sh][..n] == shards[..n][k := sh];
      LiveBufsUpdate(shards[..n], k, sh);
    } else {
      assert shards[k := sh][..n] == shards[..n];
    }
  }

  lemma {:induction false} LiveBufsAtLeast<R>(shards: seq<SectionShard<R>>, k: nat)
    requires k < |shards|
    ensures LiveBufs(shards) >= |shards[k].writeBufs|
  {
    var n := |shards| - 1;
    if k < n {
      LiveBufsAtLeast(shards[..n], k);
    }
  }

  // ----- How single steps keep the tiers -----

  /** Adding a wanted record at a slot of one page concerns that page only. */
  lemma AgreesElsewhere<R>(data: seq<R>, p: nat, n: nat, want: map<Loc, R>, l: Loc, r: R)
    requires Agrees(data, p, n, want) && l.page != p
    ensures Agrees(data, p, n, want[l := r])
  {}

  lemma AgreesSet<R>(data: seq<R>, p: nat, n: nat, want: map<Loc, R>, s: nat, r: R)
    requires Agrees(data, p, n, want) && s < n
    ensures Agrees(data[s := r], p, n, want[Loc(p, s) := r])
  {}

  /** A page without wanted records may be started from zeros. */
  lemma ZerosAgree<R>(p: nat, n: nat, zero: R, want: map<Loc, R>)
    requires forall s: nat :: Loc(p, s) !in want
    ensures Agrees(Zeros(n, zero), p, n, want)
  {}

  /** Less is wanted, and the rest agrees still. */
  lemma AgreesFewer<R>(data: seq<R>, p: nat, n: nat, want: map<Loc, R>, fewer: map<Loc, R>)
    requires Agrees(data, p, n, want) && forall l :: l in fewer ==> l in want && want[l] == fewer[l]
    ensures Agrees(data, p, n, fewer)
  {}

  // ----- Buffers -----

  function SetBuf<R>(shards: seq<SectionShard<R>>, x: nat, b: WriteBuf<R>): seq<SectionShard<R>>
    requires |shards| == SHARDS
  {
    var sh := shards[Shard(x)];
    shards[Shard(x) := sh.(writeBufs := sh.writeBufs[x := b])]
  }

  function DropBuf<R>(shards: seq<SectionShard<R>>, x: nat): seq<SectionShard<R>>
    requires |shards| == SHARDS
  {
    var sh := shards[Shard(x)];
    shards[Shard(x) := sh.(writeBufs := sh.writeBufs - {x})]
  }

  lemma BufIsOk<R>(shards: seq<SectionShard<R>>, pages: seq<PageMeta>, n: nat, want: map<Loc, R>, x: nat)
    requires BufsOk(shards, pages, n, want) && x in BufOf(shards, x)
    ensures BufOk(BufOf(shards, x)[x], x, Shard(x), pages, n, want)
    ensures Holds(shards, pages, BufOf(shards, x)[x].pageId)
  {
    assert ShardBufsOk(shards[Shard(x)], Shard(x), pages, n, want);
  }

  /** Only its own page's holding status depends on a section's buffer. */
  lemma HoldsOther<R>(before: seq<SectionShard<R>>, after: seq<SectionShard<R>>, pages: seq<PageMeta>, x: nat, p: nat)
    requires |before| == SHARDS && |after| == SHARDS && p < |pages| && pages[p].sectionIdx != x
    requires forall y :: y != x ==> (y in BufOf(after, y) <==> y in BufOf(before, y))
    requires forall y :: y != x && y in BufOf(before, y) ==> BufOf(after, y)[y] == BufOf(before, y)[y]
    ensures Holds(after, pages, p) == Holds(before, pages, p)
  {}

  lemma SetBufOf<R>(shards: seq<SectionShard<R>>, x: nat, b: WriteBuf<R>)
    requires |shards| == SHARDS
    ensures var after := SetBuf(shards, x, b);
            && |after| == SHARDS && x in BufOf(after, x) && BufOf(after, x)[x] == b
            && (forall y :: y != x ==> (y in BufOf(after, y) <==> y in BufOf(shards, y)))
            && (forall y :: y != x && y in BufOf(shards, y) ==> BufOf(after, y)[y] == BufOf(shards, y)[y])
  {}

  lemma DropBufOf<R>(shards: seq<SectionShard<R>>, x: nat)
    requires |shards| == SHARDS
    ensures var after := DropBuf(shards, x);
            && |after| == SHARDS && x !in BufOf(after, x)
            && (forall y :: y != x ==> (y in BufOf(after, y) <==> y in BufOf(shards, y)))
            && (forall y :: y != x && y in BufOf(shards, y) ==> BufOf(after, y)[y] == BufOf(shards, y)[y])
  {}

  /** Giving a section a buffer with its page's records; an earlier page of it is safe in the file. */
  lemma SetBufKeeps<R>(file: map<nat, seq<R>>, shards: seq<SectionShard<R>>, pages: seq<PageMeta>, n: nat, zero: R,
                       want: map<Loc, R>, x: nat, b: WriteBuf<R>)
    requires BufsOk(shards, pages, n, want) && FileOk(file, shards, pages, n, zero, want)
    requires BufOk(b, x, Shard(x), pages, n, want)
    requires x in BufOf(shards, x) ==>
               BufOf(shards, x)[x].pageId == b.pageId || FileAgrees(file, n, zero, BufOf(shards, x)[x].pageId, want)
    ensures var after := SetBuf(shards, x, b);
            BufsOk(after, pages, n, want) && FileOk(file, after, pages, n, zero, want)
  {
    hide FileAgrees, BufOk, SetBuf;
    var after := SetBuf(shards, x, b);
    SetBufKeepsBufs(shards, pages, n, want, x, b);
    SetBufOf(shards, x, b);
    forall p: nat | p < |pages| && !Holds(after, pages, p)
      ensures FileAgrees(file, n, zero, p, want)
    {
      if pages[p].sectionIdx != x {
        HoldsOther(shards, after, pages, x, p);
      }
    }
  }

  lemma SetBufKeepsBufs<R>(shards: seq<SectionShard<R>>, pages: seq<PageMeta>, n: nat, want: map<Loc, R>, x: nat,
                           b: WriteBuf<R>)
    requires BufsOk(shards, pages, n, want) && BufOk(b, x, Shard(x), pages, n, want)
    ensures BufsOk(SetBuf(shards, x, b), pages, n, want)
  {
    hide BufOk;
    var after := SetBuf(shards, x, b);
    forall k | 0 <= k < SHARDS
      ensures ShardBufsOk(after[k], k, pages, n, want)
    {
      assert ShardBufsOk(shards[k], k, pages, n, want);
    }
  }

  /** Flushing a buffer writes its page as wanted; dropping it afterwards leaves the file in charge. */
  lemma FlushKeeps<R>(file: map<nat, seq<R>>, shards: seq<SectionShard<R>>, pages: seq<PageMeta>, n: nat, zero: R,
                      want: map<Loc, R>, x: nat)
    requires BufsOk(shards, pages, n, want) && FileOk(file, shards, pages, n, zero, want)
    requires x in BufOf(shards, x)
    ensures var b := BufOf(shards, x)[x]; var written := file[b.pageId := b.data];
            && FileOk(written, shards, pages, n, zero, want)
            && FileAgrees(written, n, zero, b.pageId, want)
            && BufsOk(DropBuf(shards, x), pages, n, want)
            && FileOk(written, DropBuf(shards, x), pages, n, zero, want)
  {
    hide DropBuf, Agrees;
    BufIsOk(shards, pages, n, want, x);
    var b := BufOf(shards, x)[x];
    var written := file[b.pageId := b.data];
    BufAgrees(b, x, Shard(x), pages, n, want);
    DropBufKeepsBufs(shards, pages, n, want, x);
    DropBufOf(shards, x);
    var after := DropBuf(shards, x);
    forall p: nat | p < |pages| && !Holds(shards, pages, p)
      ensures FileAgrees(written, n, zero, p, want)
    {
      assert FileAgrees(file, n, zero, p, want);
    }
    forall p: nat | p < |pages| && !Holds(after, pages, p)
      ensures FileAgrees(written, n, zero, p, want)
    {
      if pages[p].sectionIdx != x {
        HoldsOther(shards, after, pages, x, p);
      }
    }
  }

  lemma BufAgrees<R>(b: WriteBuf<R>, x: nat, k: nat, pages: seq<PageMeta>, n: nat, want: map<Loc, R>)
    requires BufOk(b, x, k, pages, n, want)
    ensures Agrees(b.data, b.pageId, n, want) && |b.data| == n
  {}

  lemma DropBufKeepsBufs<R>(shards: seq<SectionShard<R>>, pages: seq<PageMeta>, n: nat, want: map<Loc, R>, x: nat)
    requires BufsOk(shards, pages, n, want)
    ensures BufsOk(DropBuf(shards, x), pages, n, want)
  {
    hide BufOk;
    var after := DropBuf(shards, x);
    forall k | 0 <= k < SHARDS
      ensures ShardBufsOk(after[k], k, pages, n, want)
    {
      assert ShardBufsOk(shards[k], k, pages, n, want);
    }
  }

  /** Writing a record into the buffer that holds its page. */
  lemma BufferedWrite<R>(file: map<nat, seq<R>>, shards: seq<SectionShard<R>>, pages: seq<PageMeta>, n: nat, zero: R,
                         want: map<Loc, R>, x: nat, s: nat, r: R)
    requires BufsOk(shards, pages, n, want) && FileOk(file, shards, pages, n, zero, want)
    requires x in BufOf(shards, x) && s < n
    ensures var b := BufOf(shards, x)[x];
            |b.data| == n &&
            var after := SetBuf(shards, x, WriteBuf(b.pageId, b.data[s := r]));
            var wanted := want[Loc(b.pageId, s) := r];
            BufsOk(after, pages, n, wanted) && FileOk(file, after, pages, n, zero, wanted)
  {
    hide Agrees, SetBuf;
    BufIsOk(shards, pages, n, want, x);
    var b := BufOf(shards, x)[x];
    BufAgrees(b, x, Shard(x), pages, n, want);
    var set' := WriteBuf(b.pageId, b.data[s := r]);
    var after := SetBuf(shards, x, set');
    var wanted := want[Loc(b.pageId, s) := r];
    AgreesSet(b.data, b.pageId, n, want, s, r);
    SetBufOf(shards, x, set');
    WantedElsewhere(shards, pages, n, want, x, Loc(b.pageId, s), r, set');
    forall p: nat | p < |pages| && !Holds(after, pages, p)
      ensures FileAgrees(file, n, zero, p, wanted)
    {
      if pages[p].sectionIdx != x {
        HoldsOther(shards, after, pages, x, p);
      }
      assert FileAgrees(file, n, zero, p, want);
      AgreesElsewhere(FilePage(file, p, n, zero), p, n, want, Loc(b.pageId, s), r);
    }
  }

  lemma WantedElsewhere<R>(shards: seq<SectionShard<R>>, pages: seq<PageMeta>, n: nat, want: map<Loc, R>, x: nat, l: Loc,
                           r: R, b: WriteBuf<R>)
    requires BufsOk(shards, pages, n, want) && l.page < |pages| && pages[l.page].sectionIdx == x
    requires BufOk(b, x, Shard(x), pages, n, want[l := r])
    ensures BufsOk(SetBuf(shards, x, b), pages, n, want[l := r])
  {
    hide Agrees;
    var after := SetBuf(shards, x, b);
    forall k, y | 0 <= k < SHARDS && y in after[k].writeBufs
      ensures BufOk(after[k].writeBufs[y], y, k, pages, n, want[l := r])
    {
      assert ShardBufsOk(shards[k], k, pages, n, want);
      if y != x {
        var c := shards[k].writeBufs[y];
        assert after[k].writeBufs[y] == c;
        AgreesElsewhere(c.data, c.pageId, n, want, l, r);
      }
    }
  }

  /** Behind a buffer the file may say anything. */
  lemma BehindBuffer<R>(file: map<nat, seq<R>>, shards: seq<SectionShard<R>>, pages: seq<PageMeta>, n: nat, zero: R,
                        want: map<Loc, R>, p: nat, data: seq<R>)
    requires |shards| == SHARDS && FileOk(file, shards, pages, n, zero, want)
    requires p < |pages| && Holds(shards, pages, p) && |data| == n
    ensures FileOk(file[p := data], shards, pages, n, zero, want)
  {
    hide Agrees, Holds;
    var written := file[p := data];
    forall q: nat | q < |pages| && !Holds(shards, pages, q)
      ensures FileAgrees(written, n, zero, q, want)
    {
      assert FileAgrees(file, n, zero, q, want);
      assert FilePage(written, q, n, zero) == FilePage(file, q, n, zero);
    }
  }

  /** Writing a record straight to the file, for a page no buffer holds. */
  lemma DirectWrite<R>(file: map<nat, seq<R>>, shards: seq<SectionShard<R>>, pages: seq<PageMeta>, n: nat, zero: R,
                       want: map<Loc, R>, l: Loc, r: R)
    requires BufsOk(shards, pages, n, want) && FileOk(file, shards, pages, n, zero, want)
    requires l.page < |pages| && l.slot < n && !Holds(shards, pages, l.page)
    ensures |FilePage(file, l.page, n, zero)| == n
    ensures var written := file[l.page := FilePage(file, l.page, n, zero)[l.slot := r]];
            var wanted := want[l := r];
            BufsOk(shards, pages, n, wanted) && FileOk(written, shards, pages, n, zero, wanted)
  {
    hide Agrees;
    var page := FilePage(file, l.page, n, zero);
    var written := file[l.page := page[l.slot := r]];
    var wanted := want[l := r];
    assert FileAgrees(file, n, zero, l.page, want);
    AgreesSet(page, l.page, n, want, l.slot, r);
    forall k, y | 0 <= k < SHARDS && y in shards[k].writeBufs
      ensures BufOk(shards[k].writeBufs[y], y, k, pages, n, wanted)
    {
      assert ShardBufsOk(shards[k], k, pages, n, want);
      var c := shards[k].writeBufs[y];
      assert Holds(shards, pages, c.pageId);
      AgreesElsewhere(c.data, c.pageId, n, want, l, r);
    }
    forall p: nat | p < |pages| && !Holds(shards, pages, p)
      ensures FileAgrees(written, n, zero, p, wanted)
    {
      assert FileAgrees(file, n, zero, p, want);
      if p != l.page {
        AgreesElsewhere(FilePage(file, p, n, zero), p, n, want, l, r);
      }
    }
  }

  /** What reads see of a page: its buffer if one holds it, else the file. */
  function Seen<R>(file: map<nat, seq<R>>, shards: seq<SectionShard<R>>, pages: seq<PageMeta>, p: nat, n: nat, zero: R): seq<R>
    requires |shards| == SHARDS && p < |pages|
  {
    if Holds(shards, pages, p) then BufOf(shards, pages[p].sectionIdx)[pages[p].sectionIdx].data
    else FilePage(file, p, n, zero)
  }

  lemma SeenAgrees<R>(file: map<nat, seq<R>>, shards: seq<SectionShard<R>>, pages: seq<PageMeta>, p: nat, n: nat, zero: R,
                      want: map<Loc, R>)
    requires BufsOk(shards, pages, n, want) && FileOk(file, shards, pages, n, zero, want) && p < |pages|
    ensures Agrees(Seen(file, shards, pages, p, n, zero), p, n, want)
  {
    if Holds(shards, pages, p) {
      BufIsOk(shards, pages, n, want, pages[p].sectionIdx);
    } else {
      assert FileAgrees(file, n, zero, p, want);
    }
  }

  // ----- Cache updates -----

  /** The cached copy of a page, if any, replaced. */
  function Recache<R>(cache: seq<CachedPage<R>>, index: map<nat, nat>, p: nat, data: seq<R>): seq<CachedPage<R>>
    requires p in index ==> index[p] < |cache|
  {
    if p in index then cache[index[p] := CachedPage(p, data)] else cache
  }

  ghost predicate CacheAgreesBut<R>(cache: seq<CachedPage<R>>, count: nat, n: nat, want: map<Loc, R>, but: nat)
    requires count <= |cache|
  {
    forall c :: 0 <= c < count && cache[c].pageId != but ==> Agrees(cache[c].data, cache[c].pageId, n, want)
  }

  /** Replacing a page's cached copy mends that page and touches no other. */
  lemma RecacheKeeps<R>(cache: seq<CachedPage<R>>, index: map<nat, nat>, count: nat, n: nat, want: map<Loc, R>, p: nat,
                        data: seq<R>)
    requires CacheIndex(cache, index, count) && CacheAgreesBut(cache, count, n, want, p)
    requires p in index ==> Agrees(data, p, n, want)
    ensures p in index ==> index[p] < |cache|
    ensures CacheOk(Recache(cache, index, p, data), index, count, n, want)
  {
    hide Agrees;
  }

  /** A record more is wanted of one page: the other cached pages are as good as before. */
  lemma CacheAgreesElsewhere<R>(cache: seq<CachedPage<R>>, count: nat, n: nat, want: map<Loc, R>, l: Loc, r: R)
    requires count <= |cache| && CacheAgrees(cache, count, n, want)
    ensures CacheAgreesBut(cache, count, n, want[l := r], l.page)
  {
    hide Agrees;
    forall c | 0 <= c < count && cache[c].pageId != l.page
      ensures Agrees(cache[c].data, cache[c].pageId, n, want[l := r])
    {
      AgreesElsewhere(cache[c].data, cache[c].pageId, n, want, l, r);
    }
  }

  // ----- The bounded buffers of a shard -----

  function PerShard(cap: nat): nat {
    if cap / SHARDS == 0 then 1 else cap / SHARDS
  }

  /** The shards' shares add up to the cap, but every shard has one buffer at least. */
  lemma SharesFillCap(cap: nat)
    ensures cap >= SHARDS ==> PerShard(cap) * SHARDS <= cap < (PerShard(cap) + 1) * SHARDS
    ensures cap < SHARDS ==> PerShard(cap) == 1
  {}

  lemma {:induction false} LiveBufsAtMost<R>(shards: seq<SectionShard<R>>, share: nat)
    requires forall k :: 0 <= k < |shards| ==> |shards[k].writeBufs| <= share
    ensures LiveBufs(shards) <= |shards| * share
  {
    if shards != [] {
      var n := |shards| - 1;
      LiveBufsAtMost(shards[..n], share);
      assert (n + 1) * share == n * share + share;
    }
  }

  /** With every shard within its share there are no more live buffers than the cap allows. */
  lemma BuffersBounded<R>(shards: seq<SectionShard<R>>, cap: nat)
    requires |shards| == SHARDS && QueuesOk(shards, cap) && cap > 0
    ensures LiveBufs(shards) <= if cap < SHARDS then SHARDS else cap
  {
    hide PerShard, LiveBufs;
    forall k | 0 <= k < |shards|
      ensures |shards[k].writeBufs| <= PerShard(cap)
    {
      assert QueueOk(shards[k], cap, 0);
    }
    LiveBufsAtMost(shards, PerShard(cap));
    SharesFillCap(cap);
  }

  /** Every live buffer is queued for eviction, and there are at most the shard's share of them. */
  ghost predicate QueueOk<R>(sh: SectionShard<R>, cap: nat, spare: nat) {
    cap > 0 ==> |sh.writeBufs| <= PerShard(cap) + spare && Queued(sh)
  }

  ghost predicate Queued<R>(sh: SectionShard<R>) {
    forall x :: x in sh.writeBufs ==> x in sh.bufOrder
  }

  ghost predicate QueuesOk<R>(shards: seq<SectionShard<R>>, cap: nat) {
    forall k :: 0 <= k < |shards| ==> QueueOk(shards[k], cap, 0)
  }

  /** Queue entries of other sections, and how far the first of them is from the front. */
  function Others(q: seq<nat>, self: nat): nat {
    if q == [] then 0 else (if q[0] == self then 0 else 1) + Others(q[1..], self)
  }

  function Ahead(q: seq<nat>, self: nat): nat {
    if q == [] || q[0] != self then 0 else 1 + Ahead(q[1..], self)
  }

  lemma {:induction false} OthersSnoc(q: seq<nat>, self: nat, x: nat)
    ensures Others(q + [x], self) == Others(q, self) + (if x == self then 0 else 1)
    decreases q
  {
    if q == [] {
      assert q + [x] == [x];
    } else {
      assert (q + [x])[1..] == q[1..] + [x];
      OthersSnoc(q[1..], self, x);
    }
  }

  lemma {:induction false} AheadSnoc(q: seq<nat>, self: nat, x: nat)
    requires Others(q, self) > 0
    ensures Ahead(q + [x], self) == Ahead(q, self)
    decreases q
  {
    assert q[0] == (q + [x])[0];
    if q[0] == self {
      assert (q + [x])[1..] == q[1..] + [x];
      AheadSnoc(q[1..], self, x);
    }
  }

  lemma {:induction false} OthersPositive(q: seq<nat>, self: nat, x: nat)
    requires x in q && x != self
    ensures Others(q, self) > 0
    decreases q
  {
    if q[0] == self {
      assert x in q[1..];
      OthersPositive(q[1..], self, x);
    }
  }

  /** Over the cap there is a second live buffer, so the queue holds someone else to evict. */
  lemma SomeoneElse<R>(sh: SectionShard<R>, self: nat)
    requires Queued(sh) && |sh.writeBufs| > 1
    ensures Others(sh.bufOrder, self) > 0 && sh.bufOrder != []
  {
    var keys := sh.writeBufs.Keys;
    assert |keys| == |sh.writeBufs|;
    if keys <= {self} {
      SubsetSize(keys, {self});
    }
    var x :| x in keys && x != self;
    OthersPositive(sh.bufOrder, self, x);
  }

  /** Reordering a shard's queue changes nothing the reads can see. */
  lemma SetQueueKeeps<R>(file: map<nat, seq<R>>, shards: seq<SectionShard<R>>, pages: seq<PageMeta>, n: nat, zero: R,
                         want: map<Loc, R>, k: nat, q: seq<nat>)
    requires BufsOk(shards, pages, n, want) && FileOk(file, shards, pages, n, zero, want) && k < SHARDS
    ensures var after := shards[k := shards[k].(bufOrder := q)];
            && BufsOk(after, pages, n, want) && FileOk(file, after, pages, n, zero, want)
            && LiveBufs(after) == LiveBufs(shards)
  {
    hide FileAgrees, BufOk;
    var after := shards[k := shards[k].(bufOrder := q)];
    LiveBufsUpdate(shards, k, after[k]);
    forall j | 0 <= j < SHARDS
      ensures after[j].writeBufs == shards[j].writeBufs && ShardBufsOk(after[j], j, pages, n, want)
    {
      assert ShardBufsOk(shards[j], j, pages, n, want);
    }
    forall p: nat | p < |pages|
      ensures Holds(after, pages, p) == Holds(shards, pages, p)
    {}
  }

  function RequeuedShard<R>(sh: SectionShard<R>): SectionShard<R>
    requires sh.bufOrder != []
  {
    sh.(bufOrder := sh.bufOrder[1..] + [sh.bufOrder[0]])
  }

  function EvictedShard<R>(sh: SectionShard<R>): SectionShard<R>
    requires sh.bufOrder != []
  {
    sh.(bufOrder := sh.bufOrder[1..], writeBufs := sh.writeBufs - {sh.bufOrder[0]})
  }

  /** One round of the eviction loop over the cap: the queue stays complete and the loop measure falls. */
  lemma EvictionRound<R>(sh: SectionShard<R>, cap: nat, self: nat)
    requires QueueOk(sh, cap, 1) && cap > 0 && |sh.writeBufs| > PerShard(cap)
    ensures sh.bufOrder != []
    ensures sh.bufOrder[0] == self ==>
              && QueueOk(RequeuedShard(sh), cap, 1)
              && Others(RequeuedShard(sh).bufOrder, self) == Others(sh.bufOrder, self)
              && Ahead(RequeuedShard(sh).bufOrder, self) < Ahead(sh.bufOrder, self)
    ensures sh.bufOrder[0] != self ==>
              && QueueOk(EvictedShard(sh), cap, 1)
              && Others(EvictedShard(sh).bufOrder, self) < Others(sh.bufOrder, self)
              && (self in sh.writeBufs ==> self in EvictedShard(sh).writeBufs
                                           && EvictedShard(sh).writeBufs[self] == sh.writeBufs[self])
  {
    SomeoneElse(sh, self);
    var first, rest := sh.bufOrder[0], sh.bufOrder[1..];
    if first == self {
      OthersSnoc(rest, self, self);
      AheadSnoc(rest, self, self);
    } else {
      FewerBufs(sh.writeBufs, first);
    }
  }

  // ----- Which buffers are evicted -----

  /** The queue without the section's own entries. */
  function OthersOf(q: seq<nat>, self: nat): seq<nat> {
    if q == [] then [] else (if q[0] == self then [] else [q[0]]) + OthersOf(q[1..], self)
  }

  function Elements(q: seq<nat>): set<nat> {
    set x | x in q
  }

  /**
     The first `n` entries of other sections, the oldest ones, have left the queue and
     their buffers are gone; all else is as it was. There was more than the share of
     buffers before the last of them went.
   */
  ghost predicate EvictedOldest<R>(was: SectionShard<R>, now: SectionShard<R>, self: nat, share: nat, n: nat) {
    var queue := OthersOf(was.bufOrder, self);
    && n <= |queue| && OthersOf(now.bufOrder, self) == queue[n..]
    && now.writeBufs == was.writeBufs - Elements(queue[..n])
    && (n > 0 ==> |was.writeBufs - Elements(queue[..n - 1])| > share)
  }

  lemma NothingEvicted<R>(sh: SectionShard<R>, self: nat, share: nat)
    ensures EvictedOldest(sh, sh, self, share, 0)
  {
    assert sh.writeBufs - Elements([]) == sh.writeBufs;
  }

  lemma {:induction false} OthersOfSnoc(q: seq<nat>, self: nat)
    ensures OthersOf(q + [self], self) == OthersOf(q, self)
    decreases q
  {
    if q == [] {
      assert q + [self] == [self];
    } else {
      assert (q + [self])[1..] == q[1..] + [self];
      OthersOfSnoc(q[1..], self);
    }
  }

  lemma DropOneMore<R>(m: map<nat, WriteBuf<R>>, q: seq<nat>, n: nat)
    requires n < |q|
    ensures m - Elements(q[..n]) - {q[n]} == m - Elements(q[..n + 1])
  {
    assert q[..n + 1] == q[..n] + [q[n]];
    assert forall x :: x in Elements(q[..n + 1]) <==> x in Elements(q[..n]) || x == q[n];
  }

  /** The section's own entry put back. */
  lemma RequeuesOldest<R>(was: SectionShard<R>, now: SectionShard<R>, self: nat, share: nat, n: nat)
    requires EvictedOldest(was, now, self, share, n) && now.bufOrder != [] && now.bufOrder[0] == self
    ensures EvictedOldest(was, RequeuedShard(now), self, share, n) && RequeuedShard(now).writeBufs == now.writeBufs
  {
    hide Elements;
    OthersOfSnoc(now.bufOrder[1..], self);
  }

  /** Another section's front entry evicted. */
  lemma EvictsOldest<R>(was: SectionShard<R>, now: SectionShard<R>, self: nat, share: nat, n: nat)
    requires EvictedOldest(was, now, self, share, n) && now.bufOrder != [] && now.bufOrder[0] != self
    requires |now.writeBufs| > share
    ensures EvictedOldest(was, EvictedShard(now), self, share, n + 1)
  {
    hide Elements;
    var queue := OthersOf(was.bufOrder, self);
    assert OthersOf(now.bufOrder, self) == [now.bufOrder[0]] + OthersOf(now.bufOrder[1..], self);
    assert queue[n..][0] == now.bufOrder[0];
    assert queue[n..][1..] == queue[n + 1..];
    DropOneMore(was.writeBufs, queue, n);
  }

  lemma FewerBufs<R>(m: map<nat, WriteBuf<R>>, x: nat)
    ensures |m - {x}| == if x in m then |m| - 1 else |m|
  {
    assert (m - {x}).Keys == m.Keys - {x};
    assert |m - {x}| == |(m - {x}).Keys| && |m| == |m.Keys|;
  }

  // ----- Loading pages into the cache -----

  function Around(hand: nat, i: nat, n: nat): nat {
    if hand + i < n then hand + i else if hand + i < 2 * n then hand + i - n else 0
  }

  /** From the hand round to the hand, the slots hold the pages in the order they were loaded. */
  ghost predicate Fifo<R>(loads: seq<nat>, cache: seq<CachedPage<R>>, hand: nat, count: nat, max: nat) {
    && |loads| == count <= |cache| && count <= max
    && (if count < max then hand == 0 else hand < count || count == 0)
    && (forall i :: 0 <= i < count ==> LoadedAt(loads, cache, hand, count, i))
  }

  ghost predicate LoadedAt<R>(loads: seq<nat>, cache: seq<CachedPage<R>>, hand: nat, count: nat, i: nat)
    requires |loads| == count <= |cache| && i < count
  {
    loads[i] == cache[Around(hand, i, count)].pageId
  }

  /** The pages in load order once `p` is loaded: it comes last, and in a full cache the first one goes. */
  function LoadOf(loads: seq<nat>, max: nat, p: nat): seq<nat> {
    if max == 0 || p in loads then loads
    else (if |loads| < max then loads else loads[1..]) + [p]
  }

  function LoadAll(loads: seq<nat>, max: nat, pages: seq<nat>): seq<nat> {
    if pages == [] then loads else LoadOf(LoadAll(loads, max, pages[..|pages| - 1]), max, pages[|pages| - 1])
  }

  lemma LoadsAreCached<R>(loads: seq<nat>, cache: seq<CachedPage<R>>, index: map<nat, nat>, hand: nat, count: nat, max: nat, p: nat)
    requires CacheIndex(cache, index, count) && Fifo(loads, cache, hand, count, max)
    ensures p in index <==> p in loads
  {
    if p in index {
      var c := index[p];
      var i := if c >= hand then c - hand else c + count - hand;
      assert LoadedAt(loads, cache, hand, count, i);
      assert loads[i] == p;
    }
    if p in loads {
      var i :| 0 <= i < count && loads[i] == p;
      assert LoadedAt(loads, cache, hand, count, i);
    }
  }

  /** While there is room, a page goes behind the others. */
  lemma PublishFresh<R>(cache: seq<CachedPage<R>>, index: map<nat, nat>, count: nat, max: nat, n: nat, want: map<Loc, R>,
                        loads: seq<nat>, hand: nat, p: nat, data: seq<R>)
    requires CacheOk(cache, index, count, n, want) && Fifo(loads, cache, hand, count, max)
    requires count < max && p !in index && Agrees(data, p, n, want)
    ensures var grown := if count >= |cache| then cache + [CachedPage(p, data)] else cache;
            && count < |grown|
            && CacheOk(grown[count := CachedPage(p, data)], index[p := count], count + 1, n, want)
            && Fifo(loads + [p], grown[count := CachedPage(p, data)], hand, count + 1, max)
  {
    hide Agrees;
    var grown := if count >= |cache| then cache + [CachedPage(p, data)] else cache;
    var after := grown[count := CachedPage(p, data)];
    var longer, more := loads + [p], count + 1;
    forall i: nat | i < more
      ensures LoadedAt(longer, after, hand, more, i)
    {
      if i < count {
        assert LoadedAt(loads, cache, hand, count, i);
      }
    }
  }

  lemma HandMoves(hand: nat, max: nat)
    requires hand < max
    ensures (hand + 1) % max == if hand + 1 == max then 0 else hand + 1
  {}

  lemma IndexInstead<R>(cache: seq<CachedPage<R>>, index: map<nat, nat>, count: nat, n: nat, want: map<Loc, R>, c: nat,
                        p: nat, data: seq<R>)
    requires CacheOk(cache, index, count, n, want) && c < count && p !in index && Agrees(data, p, n, want)
    ensures CacheOk(cache[c := CachedPage(p, data)], (index - {cache[c].pageId})[p := c], count, n, want)
  {
    hide Agrees;
  }

  lemma FifoInstead<R>(loads: seq<nat>, cache: seq<CachedPage<R>>, hand: nat, count: nat, max: nat, p: nat, data: seq<R>)
    requires Fifo(loads, cache, hand, count, max) && count == max > 0
    ensures loads != [] && hand < max && cache[hand].pageId == loads[0]
    ensures Fifo(loads[1..] + [p], cache[hand := CachedPage(p, data)], if hand + 1 == max then 0 else hand + 1, count, max)
  {
    var after := cache[hand := CachedPage(p, data)];
    var hand' := if hand + 1 == max then 0 else hand + 1;
    assert LoadedAt(loads, cache, hand, count, 0);
    var shifted := loads[1..] + [p];
    forall i: nat | i < count
      ensures LoadedAt(shifted, after, hand', count, i)
    {
      if i + 1 < count {
        assert LoadedAt(loads, cache, hand, count, i + 1);
      }
    }
  }

  /** In a full cache the page under the hand, the one loaded longest ago, makes room. */
  lemma PublishInstead<R>(cache: seq<CachedPage<R>>, index: map<nat, nat>, count: nat, max: nat, n: nat,
                          want: map<Loc, R>, loads: seq<nat>, hand: nat, p: nat, data: seq<R>)
    requires CacheOk(cache, index, count, n, want) && Fifo(loads, cache, hand, count, max)
    requires count >= max > 0 && p !in index && Agrees(data, p, n, want)
    ensures hand < max && hand < |cache| && loads != []
    ensures var after := cache[hand := CachedPage(p, data)]; var hand' := (hand + 1) % max;
            && CacheOk(after, (index - {cache[hand].pageId})[p := hand], count, n, want)
            && Fifo(loads[1..] + [p], after, hand', count, max)
            && cache[hand].pageId == loads[0]
  {
    hide Agrees, CacheOk, LoadedAt;
    FifoInstead(loads, cache, hand, count, max, p, data);
    HandMoves(hand, max);
    IndexInstead(cache, index, count, n, want, hand, p, data);
  }

  /** Refreshing a cached copy does not change the order of loading. */
  lemma RecacheKeepsOrder<R>(loads: seq<nat>, cache: seq<CachedPage<R>>, index: map<nat, nat>, hand: nat, count: nat,
                             max: nat, p: nat, data: seq<R>)
    requires CacheIndex(cache, index, count) && Fifo(loads, cache, hand, count, max)
    ensures p in index ==> index[p] < |cache|
    ensures Fifo(loads, Recache(cache, index, p, data), hand, count, max)
  {
    var after := Recache(cache, index, p, data);
    forall i: nat | i < count
      ensures LoadedAt(loads, after, hand, count, i)
    {
      assert LoadedAt(loads, cache, hand, count, i);
    }
  }

  /** Taking the queue's front off and dropping its buffer is one eviction. */
  lemma PopThenDrop<R>(shards: seq<SectionShard<R>>, k: nat)
    requires |shards| == SHARDS && k < SHARDS && shards[k].bufOrder != [] && Shard(shards[k].bufOrder[0]) == k
    ensures var popped := shards[k := shards[k].(bufOrder := shards[k].bufOrder[1..])];
            DropBuf(popped, shards[k].bufOrder[0]) == shards[k := EvictedShard(shards[k])]
  {}

  lemma PopStale<R>(shards: seq<SectionShard<R>>, k: nat)
    requires k < |shards| && shards[k].bufOrder != [] && shards[k].bufOrder[0] !in shards[k].writeBufs
    ensures shards[k := shards[k].(bufOrder := shards[k].bufOrder[1..])] == shards[k := EvictedShard(shards[k])]
  {
    assert shards[k].writeBufs - {shards[k].bufOrder[0]} == shards[k].writeBufs;
  }
}
