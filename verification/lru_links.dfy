/**
 The intrusive links of a cache shard's slot arena (include/astervec_index.h): a
 doubly linked LRU chain through the used slots and a singly linked free list
 through the others.
 */
module LruLinks {
  import opened Basics
  import opened ProbeTable

  type Byte = x: int | 0 <= x < 256

  datatype Slot = Slot(key: nat, enc: seq<Byte>, prev: nat, next: nat)

  const BLANK := Slot(0, [], NO_SLOT, NO_SLOT)

  function NextOf(chain: seq<nat>, i: nat): nat {
    if i + 1 < |chain| then chain[i + 1] else NO_SLOT
  }

  function PrevOf(chain: seq<nat>, i: nat): nat {
    if 0 < i <= |chain| then chain[i - 1] else NO_SLOT
  }

  function HeadOf(chain: seq<nat>): nat {
    if chain == [] then NO_SLOT else chain[0]
  }

  function TailOf(chain: seq<nat>): nat {
    if chain == [] then NO_SLOT else chain[|chain| - 1]
  }

  ghost predicate ChainedAt(slots: seq<Slot>, chain: seq<nat>, i: nat)
    requires i < |chain|
  {
    && chain[i] < |slots|
    && slots[chain[i]].next == NextOf(chain, i)
    && slots[chain[i]].prev == PrevOf(chain, i)
  }

  /** `chain` is the list met from `head` by next links, and backwards by prev links. */
  ghost predicate Chained(slots: seq<Slot>, chain: seq<nat>) {
    && |slots| <= NO_SLOT && NoDup(chain)
    && forall i: nat :: i < |chain| ==> ChainedAt(slots, chain, i)
  }

  ghost predicate FreeListed(slots: seq<Slot>, free: seq<nat>) {
    && NoDup(free)
    && forall i :: 0 <= i < |free| ==> free[i] < |slots| && slots[free[i]].next == NextOf(free, i)
  }

  ghost predicate Disjoint(a: seq<nat>, b: seq<nat>) {
    forall i, j :: 0 <= i < |a| && 0 <= j < |b| ==> a[i] != b[j]
  }

  /** Same keys and payloads; links of slots outside `touched` unchanged. */
  ghost predicate OnlyLinks(before: seq<Slot>, after: seq<Slot>, touched: seq<nat>) {
    && |after| == |before|
    && (forall q :: 0 <= q < |before| ==> after[q].key == before[q].key && after[q].enc == before[q].enc)
    && (forall q :: 0 <= q < |before| && q !in touched ==> after[q] == before[q])
  }

  function Removed<T>(s: seq<T>, k: nat): seq<T>
    requires k < |s|
  {
    s[..k] + s[k + 1..]
  }

  /** link_front. */
  function LinkFront(slots: seq<Slot>, s: nat, head: nat): seq<Slot>
    requires s < |slots| && (head == NO_SLOT || head < |slots|)
  {
    var a := slots[s := slots[s].(prev := NO_SLOT, next := head)];
    if head != NO_SLOT then a[head := a[head].(prev := s)] else a
  }

  lemma LinkFrontKeeps(slots: seq<Slot>, chain: seq<nat>, s: nat)
    requires Chained(slots, chain) && s < |slots| && s !in chain
    ensures HeadOf(chain) == NO_SLOT || HeadOf(chain) < |slots|
    ensures var after := LinkFront(slots, s, HeadOf(chain));
            Chained(after, [s] + chain) && OnlyLinks(slots, after, [s] + chain)
  {
    hide OnlyLinks;
    LinkFrontTouches(slots, chain, s);
    assert NoDup([s] + chain);
    forall i: nat | i < |chain| + 1
      ensures ChainedAt(LinkFront(slots, s, HeadOf(chain)), [s] + chain, i)
    {
      LinkFrontAt(slots, chain, s, i);
    }
  }

  lemma LinkFrontTouches(slots: seq<Slot>, chain: seq<nat>, s: nat)
    requires Chained(slots, chain) && s < |slots|
    ensures HeadOf(chain) == NO_SLOT || HeadOf(chain) < |slots|
    ensures OnlyLinks(slots, LinkFront(slots, s, HeadOf(chain)), [s] + chain)
  {
    if chain != [] {
      assert ChainedAt(slots, chain, 0);
    }
  }

  lemma LinkFrontAt(slots: seq<Slot>, chain: seq<nat>, s: nat, i: nat)
    requires Chained(slots, chain) && s < |slots| && s !in chain && i < |chain| + 1
    ensures HeadOf(chain) == NO_SLOT || HeadOf(chain) < |slots|
    ensures ChainedAt(LinkFront(slots, s, HeadOf(chain)), [s] + chain, i)
  {
    if chain != [] {
      assert ChainedAt(slots, chain, 0);
    }
    if i > 0 {
      assert ChainedAt(slots, chain, i - 1);
    }
  }

  /** unlink. */
  function Unlink(slots: seq<Slot>, s: nat): seq<Slot>
    requires s < |slots|
    requires slots[s].prev == NO_SLOT || slots[s].prev < |slots|
    requires slots[s].next == NO_SLOT || slots[s].next < |slots|
  {
    var p, n := slots[s].prev, slots[s].next;
    var a := if p != NO_SLOT then slots[p := slots[p].(next := n)] else slots;
    var b := if n != NO_SLOT then a[n := a[n].(prev := p)] else a;
    b[s := b[s].(prev := NO_SLOT, next := NO_SLOT)]
  }

  ghost predicate LinksInRange(slots: seq<Slot>, s: nat)
    requires s < |slots|
  {
    && (slots[s].prev == NO_SLOT || slots[s].prev < |slots|)
    && (slots[s].next == NO_SLOT || slots[s].next < |slots|)
  }

  lemma UnlinkDefined(slots: seq<Slot>, chain: seq<nat>, k: nat)
    requires Chained(slots, chain) && k < |chain|
    ensures chain[k] < |slots| && LinksInRange(slots, chain[k])
    ensures slots[chain[k]].prev == PrevOf(chain, k) && slots[chain[k]].next == NextOf(chain, k)
    ensures PrevOf(chain, k) == NO_SLOT <==> k == 0
    ensures NextOf(chain, k) == NO_SLOT <==> k + 1 == |chain|
  {
    assert ChainedAt(slots, chain, k);
    if k > 0 {
      assert ChainedAt(slots, chain, k - 1);
    }
    if k + 1 < |chain| {
      assert ChainedAt(slots, chain, k + 1);
    }
  }

  lemma UnlinkKeeps(slots: seq<Slot>, chain: seq<nat>, k: nat)
    requires Chained(slots, chain) && k < |chain|
    ensures chain[k] < |slots| && LinksInRange(slots, chain[k])
    ensures Chained(Unlink(slots, chain[k]), Removed(chain, k))
    ensures OnlyLinks(slots, Unlink(slots, chain[k]), chain)
  {
    hide OnlyLinks, Unlink, LinksInRange, ChainedAt;
    UnlinkDefined(slots, chain, k);
    UnlinkTouches(slots, chain, k);
    NoDupRemoved(chain, k);
    forall i: nat | i < |chain| - 1
      ensures ChainedAt(Unlink(slots, chain[k]), Removed(chain, k), i)
    {
      UnlinkAt(slots, chain, k, i);
    }
  }

  lemma NoDupRemoved(chain: seq<nat>, k: nat)
    requires NoDup(chain) && k < |chain|
    ensures NoDup(Removed(chain, k)) && chain[k] !in Removed(chain, k)
  {}

  lemma UnlinkTouches(slots: seq<Slot>, chain: seq<nat>, k: nat)
    requires Chained(slots, chain) && k < |chain|
    ensures chain[k] < |slots| && LinksInRange(slots, chain[k])
    ensures OnlyLinks(slots, Unlink(slots, chain[k]), chain)
    ensures |Unlink(slots, chain[k])| == |slots|
  {
    UnlinkDefined(slots, chain, k);
  }

  /** Only the two neighbours of the unlinked slot change, and they come to know each other. */
  lemma UnlinkAt(slots: seq<Slot>, chain: seq<nat>, k: nat, i: nat)
    requires Chained(slots, chain) && k < |chain| && i < |chain| - 1
    ensures chain[k] < |slots| && LinksInRange(slots, chain[k])
    ensures ChainedAt(Unlink(slots, chain[k]), Removed(chain, k), i)
  {
    UnlinkDefined(slots, chain, k);
    var j := if i < k then i else i + 1;
    assert Removed(chain, k)[i] == chain[j];
    assert ChainedAt(slots, chain, j);
  }
}
