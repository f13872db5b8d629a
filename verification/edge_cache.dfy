/**
 One shard of the edge cache (include/astervec_index.h) is proved to be a list of
 entries (id, neighbours), newest put first and never longer than its capacity. It
 is made of slots chained in that order, the slots not in use, a table from id to
 slot, and per slot a byte string: the neighbours in the variable-length encoding
 of section 7.6 of DWARF 5.
 */
module EdgeCache {
  import opened Basics
  import opened ProbeTable
  import opened LruLinks

  type NodeId = x: int | 0 <= x < 0x1_0000_0000_0000_0000

  // ----- LEB128 -----

  function Encode(v: nat): (s: seq<Byte>)
    ensures s != []
  {
    if v < 128 then [v] else [v % 128 + 128] + Encode(v / 128)
  }

  function EncodeAll(ids: seq<NodeId>): seq<Byte> {
    if ids == [] then [] else EncodeAll(ids[..|ids| - 1]) + Encode(ids[|ids| - 1])
  }

  function Pow128(k: nat): nat {
    if k == 0 then 1 else 128 * Pow128(k - 1)
  }

  /** Ten bytes hold any id, so the decoder's shift never leaves the 64-bit word. */
  lemma {:induction false} EncodeLength(v: nat, k: nat)
    requires k > 0 && v < Pow128(k)
    ensures |Encode(v)| <= k
  {
    if v >= 128 {
      assert k > 1 by { assert Pow128(1) == 128; }
      EncodeLength(v / 128, k - 1);
    }
  }

  lemma IdTakesTenBytes(id: NodeId)
    ensures |Encode(id)| <= 10
  {
    assert Pow128(5) == 0x8_0000_0000 by { assert Pow128(3) == 0x20_0000; }
    assert Pow128(8) == 0x100_0000_0000_0000 by { assert Pow128(7) == 0x2_0000_0000_0000; }
    assert Pow128(10) == 0x40_0000_0000_0000_0000;
    EncodeLength(id, 10);
  }

  /**
     The bytes of a number: seven bits each, the lowest ones first, the top bit set on
     all but the last, and no more of them than the number needs.
   */
  lemma {:induction false} EncodedBytes(v: nat, k: nat)
    ensures v < Pow128(|Encode(v)|) && (|Encode(v)| > 1 ==> v >= Pow128(|Encode(v)| - 1))
    ensures Pow128(k) > 0 && (k < |Encode(v)| ==>
              Encode(v)[k] == v / Pow128(k) % 128 + (if k + 1 < |Encode(v)| then 128 else 0))
    decreases v, k
  {
    if v >= 128 {
      EncodedBytes(v / 128, if k == 0 then 0 else k - 1);
      if k > 0 {
        DivTwice(v, 128, Pow128(k - 1));
      }
    } else if k > 0 {
      EncodedBytes(v, k - 1);
    }
  }

  method EncodeInto(ids: seq<NodeId>) returns (enc: seq<Byte>)
    ensures enc == EncodeAll(ids)
  {
    enc := [];
    for i := 0 to |ids|
      invariant enc == EncodeAll(ids[..i])
    {
      assert ids[..i + 1][..i] == ids[..i];
      var v: nat := ids[i];
      ghost var start := enc;
      while v >= 128
        invariant enc + Encode(v) == start + Encode(ids[i])
      {
        enc := enc + [v % 128 + 128];
        v := v / 128;
      }
      enc := enc + [v];
    }
    assert ids[..|ids|] == ids;
  }

  /** The bytes read so far weigh `scale`, those to come encode `rest`. */
  lemma DecodeStep(v: nat, rest: nat, scale: nat, low: nat, high: nat)
    requires low == rest % 128 && high == rest / 128
    ensures (v + low * scale) + high * (scale * 128) == v + rest * scale
  {
    assert rest == low + high * 128;
    assert rest * scale == low * scale + (high * 128) * scale;
    assert (high * 128) * scale == high * (scale * 128);
  }

  /** Reads one id at `p`; shifting by seven bits is multiplying by 128. */
  method DecodeOne(enc: seq<Byte>, p: nat, ghost id: NodeId, ghost tail: seq<Byte>) returns (v: nat, q: nat)
    requires p <= |enc| && enc[p..] == Encode(id) + tail
    ensures v == id && p < q <= |enc| && enc[q..] == tail
  {
    v, q := 0, p;
    var scale: nat := 1;
    ghost var rest: nat := id;
    while enc[q] >= 128
      invariant p <= q < |enc| && enc[q..] == Encode(rest) + tail
      invariant v + rest * scale == id
      decreases rest
    {
      NextByte(enc, q, Encode(rest), tail);
      DecodeStep(v, rest, scale, enc[q] - 128, rest / 128);
      v := v + (enc[q] - 128) * scale;
      scale := scale * 128;
      rest := rest / 128;
      q := q + 1;
    }
    NextByte(enc, q, Encode(rest), tail);
    v := v + enc[q] * scale;
    q := q + 1;
    assert [] + tail == tail;
  }

  lemma NextByte(enc: seq<Byte>, q: nat, head: seq<Byte>, tail: seq<Byte>)
    requires q < |enc| && head != [] && enc[q..] == head + tail
    ensures enc[q] == head[0] && enc[q + 1..] == head[1..] + tail
  {
    assert enc[q] == enc[q..][0];
    assert enc[q + 1..] == enc[q..][1..];
  }

  method DecodeInto(enc: seq<Byte>, ghost ids: seq<NodeId>) returns (out: seq<NodeId>)
    requires enc == EncodeAll(ids)
    ensures out == ids
  {
    out := [];
    var p := 0;
    EncodeFront(ids);
    while p < |enc|
      invariant p <= |enc| && |out| <= |ids| && out == ids[..|out|]
      invariant enc[p..] == EncodeFrom(ids, |out|)
      decreases |enc| - p
    {
      var v, q := DecodeOne(enc, p, ids[|out|], EncodeFrom(ids, |out| + 1));
      p := q;
      out := out + [v];
    }
  }

  function EncodeFrom(ids: seq<NodeId>, k: nat): seq<Byte>
    requires k <= |ids|
    decreases |ids| - k
  {
    if k == |ids| then [] else Encode(ids[k]) + EncodeFrom(ids, k + 1)
  }

  lemma EncodeFront(ids: seq<NodeId>)
    ensures EncodeAll(ids) == EncodeFrom(ids, 0)
  {
    EncodeSplit(ids, |ids|);
    assert ids[..|ids|] == ids;
  }

  lemma {:induction false} EncodeSplit(ids: seq<NodeId>, k: nat)
    requires k <= |ids|
    ensures EncodeAll(ids[..k]) + EncodeFrom(ids, k) == EncodeFrom(ids, 0)
  {
    if k > 0 {
      EncodeSplit(ids, k - 1);
      assert ids[..k][..k - 1] == ids[..k - 1];
    }
  }

  // ----- The list of entries a shard represents, latest put first -----

  datatype Entry = Entry(id: nat, list: seq<NodeId>)

  function Position(es: seq<Entry>, id: nat): (p: nat)
    ensures p <= |es|
    ensures p < |es| ==> es[p].id == id
  {
    if es == [] then 0 else if es[0].id == id then 0 else 1 + Position(es[1..], id)
  }

  predicate Has(es: seq<Entry>, id: nat) {
    Position(es, id) < |es|
  }

  function Without(es: seq<Entry>, id: nat): seq<Entry> {
    if Has(es, id) then Removed(es, Position(es, id)) else es
  }

  /** A put moves the id to the front; a new id in a full shard evicts the least recently put one. */
  function PutFront(es: seq<Entry>, cap: nat, id: nat, list: seq<NodeId>): seq<Entry> {
    if Has(es, id) then [Entry(id, list)] + Without(es, id)
    else if |es| >= cap && es != [] then [Entry(id, list)] + es[..|es| - 1]
    else [Entry(id, list)] + es
  }

  ghost predicate DistinctIds(es: seq<Entry>) {
    forall i, j :: 0 <= i < j < |es| ==> es[i].id != es[j].id
  }

  ghost predicate IdsOk(es: seq<Entry>) {
    DistinctIds(es) && forall i :: 0 <= i < |es| ==> es[i].id != NO_ID
  }

  // ----- Slots and table against the entries -----

  ghost predicate Represents(slots: seq<Slot>, chain: seq<nat>, es: seq<Entry>) {
    && |es| == |chain|
    && forall i :: 0 <= i < |chain| ==>
         chain[i] < |slots| && slots[chain[i]].key == es[i].id && slots[chain[i]].enc == EncodeAll(es[i].list)
  }

  ghost predicate Indexed(m: map<nat, nat>, chain: seq<nat>, es: seq<Entry>) {
    && |es| == |chain|
    && (forall i :: 0 <= i < |es| ==> es[i].id in m && m[es[i].id] == chain[i])
    && (forall id :: id in m ==> Has(es, id))
  }

  lemma {:induction false} PositionIs(es: seq<Entry>, p: nat)
    requires DistinctIds(es) && p < |es|
    ensures Position(es, es[p].id) == p
  {
    if p > 0 {
      PositionIs(es[1..], p - 1);
    }
  }

  lemma {:induction false} PositionNone(es: seq<Entry>, id: nat)
    ensures Has(es, id) <==> exists i :: 0 <= i < |es| && es[i].id == id
  {
    if es != [] {
      PositionNone(es[1..], id);
      if exists i :: 0 <= i < |es| && es[i].id == id {
        var i :| 0 <= i < |es| && es[i].id == id;
        assert i > 0 ==> es[1..][i - 1].id == id;
      }
    }
  }

  lemma RemovedAt<T>(s: seq<T>, k: nat)
    requires k < |s|
    ensures |Removed(s, k)| == |s| - 1
    ensures forall i :: 0 <= i < |s| - 1 ==> Removed(s, k)[i] == s[if i < k then i else i + 1]
  {}

  lemma DistinctRemoved(es: seq<Entry>, k: nat)
    requires DistinctIds(es) && k < |es|
    ensures DistinctIds(Removed(es, k))
  {
    hide Removed;
    RemovedAt(es, k);
  }

  lemma HasRemoved(es: seq<Entry>, k: nat, id: nat)
    requires DistinctIds(es) && k < |es|
    ensures Has(Removed(es, k), id) <==> Has(es, id) && id != es[k].id
  {
    hide Removed, Has, DistinctIds;
    RemovedAt(es, k);
    var fewer := Removed(es, k);
    PositionNone(fewer, id);
    PositionNone(es, id);
    if Has(es, id) && id != es[k].id {
      var i :| 0 <= i < |es| && es[i].id == id;
      assert fewer[if i < k then i else i - 1].id == id;
    }
    if Has(fewer, id) {
      var i :| 0 <= i < |fewer| && fewer[i].id == id;
      Apart(es, if i < k then i else i + 1, k);
    }
  }

  lemma Apart(es: seq<Entry>, i: nat, j: nat)
    requires DistinctIds(es) && i < |es| && j < |es| && i != j
    ensures es[i].id != es[j].id
  {}

  lemma IndexedRemoved(m: map<nat, nat>, chain: seq<nat>, es: seq<Entry>, k: nat)
    requires Indexed(m, chain, es) && DistinctIds(es) && k < |es|
    ensures Indexed(m - {es[k].id}, Removed(chain, k), Removed(es, k)) && DistinctIds(Removed(es, k))
    ensures !Has(Removed(es, k), es[k].id)
  {
    hide Removed, Has, DistinctIds;
    var fewer := Removed(es, k);
    RemovedAt(es, k);
    RemovedAt(chain, k);
    DistinctRemoved(es, k);
    HasRemoved(es, k, es[k].id);
    forall id | id in m && id != es[k].id
      ensures Has(fewer, id)
    {
      HasRemoved(es, k, id);
    }
    forall i | 0 <= i < |fewer|
      ensures fewer[i].id in m && fewer[i].id != es[k].id && m[fewer[i].id] == Removed(chain, k)[i]
    {
      Apart(es, if i < k then i else i + 1, k);
    }
  }

  lemma IndexedAdded(m: map<nat, nat>, chain: seq<nat>, es: seq<Entry>, e: Entry, s: nat)
    requires Indexed(m, chain, es) && DistinctIds(es) && !Has(es, e.id)
    ensures Indexed(m[e.id := s], [s] + chain, [e] + es) && DistinctIds([e] + es)
  {
    hide Has;
    var more := [e] + es;
    DistinctAdded(es, e);
    forall id | id in m[e.id := s]
      ensures Has(more, id)
    {
      HasAdded(es, e, id);
    }
    forall i | 0 <= i < |more|
      ensures more[i].id in m[e.id := s] && m[e.id := s][more[i].id] == ([s] + chain)[i]
    {
      assert i > 0 ==> more[i] == es[i - 1] && more[0].id != more[i].id;
    }
  }

  lemma HasAdded(es: seq<Entry>, e: Entry, id: nat)
    ensures Has([e] + es, id) <==> id == e.id || Has(es, id)
  {
    assert ([e] + es)[1..] == es;
  }

  lemma DistinctAdded(es: seq<Entry>, e: Entry)
    requires DistinctIds(es) && !Has(es, e.id)
    ensures DistinctIds([e] + es)
  {
    hide Has;
    PositionNone(es, e.id);
  }

  ghost function Ids(es: seq<Entry>): (s: set<nat>)
    ensures |s| <= |es|
  {
    if es == [] then {} else {es[0].id} + Ids(es[1..])
  }

  lemma {:induction false} IdsOf(es: seq<Entry>, id: nat)
    requires Has(es, id)
    ensures id in Ids(es)
  {
    if es[0].id != id {
      IdsOf(es[1..], id);
    }
  }

  lemma IndexedSize(m: map<nat, nat>, chain: seq<nat>, es: seq<Entry>)
    requires Indexed(m, chain, es)
    ensures |m| <= |es|
  {
    forall id | id in m
      ensures id in Ids(es)
    {
      IdsOf(es, id);
    }
    Subset(m.Keys, Ids(es));
    assert |m| == |m.Keys|;
  }

  lemma {:induction false} Subset(a: set<nat>, b: set<nat>)
    requires a <= b
    ensures |a| <= |b|
  {
    assert |b| == |a| + |b - a| by {
      assert a + (b - a) == b;
    }
  }

  // ----- The arena -----

  /** Chain and free list are apart and, with `spare` slots in hand, make up the arena. */
  ghost predicate Arena(slots: seq<Slot>, chain: seq<nat>, free: seq<nat>, spare: nat, cap: nat) {
    && Chained(slots, chain) && FreeListed(slots, free) && Disjoint(chain, free)
    && |chain| + |free| + spare == |slots| <= cap < NO_SLOT
  }

  lemma FreeKept(before: seq<Slot>, after: seq<Slot>, touched: seq<nat>, free: seq<nat>)
    requires FreeListed(before, free) && OnlyLinks(before, after, touched) && Disjoint(touched, free)
    ensures FreeListed(after, free)
  {
    forall i | 0 <= i < |free|
      ensures after[free[i]] == before[free[i]]
    {
      assert free[i] !in touched;
    }
  }

  lemma RepresentsKept(before: seq<Slot>, after: seq<Slot>, touched: seq<nat>, chain: seq<nat>, es: seq<Entry>)
    requires Represents(before, chain, es) && OnlyLinks(before, after, touched)
    ensures Represents(after, chain, es)
  {}

  lemma RepresentsRemoved(slots: seq<Slot>, chain: seq<nat>, es: seq<Entry>, k: nat)
    requires Represents(slots, chain, es) && k < |chain|
    ensures Represents(slots, Removed(chain, k), Removed(es, k))
  {
    hide Removed;
    RemovedAt(chain, k);
    RemovedAt(es, k);
  }

  /** Unlinking takes one slot out of the chain and leaves it in hand. */
  lemma ArenaUnlink(slots: seq<Slot>, chain: seq<nat>, free: seq<nat>, cap: nat, es: seq<Entry>, k: nat)
    requires Arena(slots, chain, free, 0, cap) && Represents(slots, chain, es) && k < |chain|
    ensures chain[k] < |slots| && LinksInRange(slots, chain[k])
    ensures var after := Unlink(slots, chain[k]);
            && Arena(after, Removed(chain, k), free, 1, cap)
            && Represents(after, Removed(chain, k), Removed(es, k))
            && InHand(after, Removed(chain, k), free, chain[k])
            && after[chain[k]].key == es[k].id && after[chain[k]].enc == EncodeAll(es[k].list)
  {
    hide Chained, FreeListed, OnlyLinks, Unlink, LinksInRange, Removed, Represents;
    UnlinkDefined(slots, chain, k);
    UnlinkKeeps(slots, chain, k);
    var after := Unlink(slots, chain[k]);
    FreeKept(slots, after, chain, free);
    RepresentsKept(slots, after, chain, chain, es);
    RepresentsRemoved(after, chain, es, k);
    RemovedAt(chain, k);
    ChainIsNoDup(slots, chain);
    NoDupRemoved(chain, k);
    UnlinkTouches(slots, chain, k);
    PayloadOf(after, chain, es, k);
  }

  lemma PayloadOf(slots: seq<Slot>, chain: seq<nat>, es: seq<Entry>, k: nat)
    requires Represents(slots, chain, es) && k < |chain|
    ensures chain[k] < |slots| && slots[chain[k]].key == es[k].id && slots[chain[k]].enc == EncodeAll(es[k].list)
  {}

  lemma ChainIsNoDup(slots: seq<Slot>, chain: seq<nat>)
    requires Chained(slots, chain)
    ensures NoDup(chain)
  {}

  /** A slot that is on neither list. */
  ghost predicate InHand(slots: seq<Slot>, chain: seq<nat>, free: seq<nat>, s: nat) {
    s < |slots| && s !in chain && s !in free
  }

  /** Linking the slot in hand at the front completes the arena again. */
  lemma ArenaLinkFront(slots: seq<Slot>, chain: seq<nat>, free: seq<nat>, cap: nat, es: seq<Entry>, s: nat, e: Entry)
    requires Arena(slots, chain, free, 1, cap) && Represents(slots, chain, es) && InHand(slots, chain, free, s)
    requires slots[s].key == e.id && slots[s].enc == EncodeAll(e.list)
    ensures HeadOf(chain) == NO_SLOT || HeadOf(chain) < |slots|
    ensures var after := LinkFront(slots, s, HeadOf(chain));
            && Arena(after, [s] + chain, free, 0, cap)
            && Represents(after, [s] + chain, [e] + es)
  {
    hide Chained, FreeListed, OnlyLinks, LinkFront, Represents;
    LinkFrontKeeps(slots, chain, s);
    var after := LinkFront(slots, s, HeadOf(chain));
    FreeKept(slots, after, [s] + chain, free);
    RepresentsFront(slots, chain, es, s, e);
    RepresentsKept(slots, after, [s] + chain, [s] + chain, [e] + es);
    SameSize(slots, after, [s] + chain);
  }

  lemma SameSize(before: seq<Slot>, after: seq<Slot>, touched: seq<nat>)
    requires OnlyLinks(before, after, touched)
    ensures |after| == |before|
  {}

  lemma RepresentsFront(slots: seq<Slot>, chain: seq<nat>, es: seq<Entry>, s: nat, e: Entry)
    requires Represents(slots, chain, es) && s < |slots|
    requires slots[s].key == e.id && slots[s].enc == EncodeAll(e.list)
    ensures Represents(slots, [s] + chain, [e] + es)
  {
    forall i | 0 <= i < |chain| + 1
      ensures var c, f := ([s] + chain)[i], ([e] + es)[i];
              c < |slots| && slots[c].key == f.id && slots[c].enc == EncodeAll(f.list)
    {
      if i > 0 {
        assert ([s] + chain)[i] == chain[i - 1] && ([e] + es)[i] == es[i - 1];
      }
    }
  }

  // ----- The shard -----

  function Lookup(es: seq<Entry>, id: nat): Option<seq<NodeId>> {
    if Has(es, id) then Some(es[Position(es, id)].list) else None
  }

  class Shard {
    const table: Table
    const cap: nat
    var slots: seq<Slot>
    var count: nat
    var head: nat
    var tail: nat
    var freeHead: nat

    ghost var chain: seq<nat>
    ghost var free: seq<nat>
    ghost var entries: seq<Entry>

    ghost predicate Valid()
      reads this, table, table.keys, table.vals
    {
      && table.Valid() && 2 * cap <= table.keys.Length && cap > 0
      && Arena(slots, chain, free, 0, cap) && Represents(slots, chain, entries)
      && head == HeadOf(chain) && tail == TailOf(chain) && freeHead == HeadOf(free)
      && count == |entries| && IdsOk(entries)
      && Indexed(table.Map(), chain, entries)
    }

    constructor (capacity: nat)
      requires 0 < capacity < NO_SLOT
      ensures Valid() && fresh(table) && fresh(table.keys) && fresh(table.vals)
      ensures entries == [] && cap == capacity
    {
      cap := capacity;
      table := new Table(capacity);
      slots, count := [], 0;
      head, tail, freeHead := NO_SLOT, NO_SLOT, NO_SLOT;
      chain, free, entries := [], [], [];
    }

    /** A hit copies the list out and leaves the order alone. */
    method Get(id: nat) returns (r: Option<seq<NodeId>>)
      requires Valid() && id != NO_ID
      ensures r == Lookup(entries, id)
    {
      hide Arena, Represents, Indexed, Has, IdsOk;
      var slot := table.Find(id);
      FoundSlot(id);
      if slot == NO_SLOT {
        return None;
      }
      var list := DecodeInto(slots[slot].enc, entries[Position(entries, id)].list);
      r := Some(list);
    }

    /** What the table says about an id, in terms of the entries. */
    lemma FoundSlot(id: nat)
      requires Valid()
      ensures Has(entries, id) <==> id in table.Map()
      ensures Has(entries, id) ==>
                var p := Position(entries, id);
                && p < |entries| == |chain| && table.Map()[id] == chain[p] < |slots| <= NO_SLOT
                && slots[chain[p]].enc == EncodeAll(entries[p].list) && slots[chain[p]].key == id
    {
      PositionNone(entries, id);
    }

    /** unlink, for the slot at position `k` of the chain. */
    method UnlinkSlot(slot: nat, ghost k: nat)
      requires Arena(slots, chain, free, 0, cap) && Represents(slots, chain, entries)
      requires head == HeadOf(chain) && tail == TailOf(chain)
      requires k < |chain| && slot == chain[k]
      modifies this`slots, this`head, this`tail, this`chain, this`entries
      ensures chain == Removed(old(chain), k) && entries == Removed(old(entries), k)
      ensures Arena(slots, chain, free, 1, cap) && Represents(slots, chain, entries)
      ensures head == HeadOf(chain) && tail == TailOf(chain)
      ensures InHand(slots, chain, free, slot)
      ensures k < |old(entries)| && slot < |slots| && slots[slot].key == old(entries)[k].id
              && slots[slot].enc == EncodeAll(old(entries)[k].list)
    {
      hide Arena, Represents, Chained;
      ArenaUnlink(slots, chain, free, cap, entries, k);
      ArenaChain(slots, chain, free, 0, cap);
      UnlinkDefined(slots, chain, k);
      RepresentsSize(slots, chain, entries);
      ghost var before := slots;
      var p, n := slots[slot].prev, slots[slot].next;
      if p != NO_SLOT {
        slots := slots[p := slots[p].(next := n)];
      } else {
        head := n;
      }
      if n != NO_SLOT {
        slots := slots[n := slots[n].(prev := p)];
      } else {
        tail := p;
      }
      slots := slots[slot := slots[slot].(prev := NO_SLOT, next := NO_SLOT)];
      assert slots == Unlink(before, slot);
      EndsRemoved(chain, k);
      chain, entries := Removed(chain, k), Removed(entries, k);
    }

    /** link_front, for a slot in hand. */
    method LinkSlotFront(slot: nat, ghost e: Entry)
      requires Arena(slots, chain, free, 1, cap) && Represents(slots, chain, entries)
      requires head == HeadOf(chain) && tail == TailOf(chain)
      requires InHand(slots, chain, free, slot)
      requires slots[slot].key == e.id && slots[slot].enc == EncodeAll(e.list)
      modifies this`slots, this`head, this`tail, this`chain, this`entries
      ensures chain == [slot] + old(chain) && entries == [e] + old(entries)
      ensures Arena(slots, chain, free, 0, cap) && Represents(slots, chain, entries)
      ensures head == HeadOf(chain) && tail == TailOf(chain)
    {
      hide Arena, Represents, Chained;
      ArenaLinkFront(slots, chain, free, cap, entries, slot, e);
      ghost var before := slots;
      ArenaChain(slots, chain, free, 1, cap);
      slots := slots[slot := slots[slot].(prev := NO_SLOT, next := head)];
      if head != NO_SLOT {
        slots := slots[head := slots[head].(prev := slot)];
      }
      assert slots == LinkFront(before, slot, HeadOf(chain));
      head := slot;
      EndsAdded(chain, slot);
      TailInRange(before, chain);
      if tail == NO_SLOT {
        tail := slot;
      }
      chain, entries := [slot] + chain, [e] + entries;
    }
  
    method MoveToFront(slot: nat, ghost k: nat)
      requires Arena(slots, chain, free, 0, cap) && Represents(slots, chain, entries)
      requires head == HeadOf(chain) && tail == TailOf(chain)
      requires k < |chain| && k < |entries| && slot == chain[k]
      modifies this`slots, this`head, this`tail, this`chain, this`entries
      ensures chain == [slot] + Removed(old(chain), k)
      ensures entries == [old(entries)[k]] + Removed(old(entries), k)
      ensures Arena(slots, chain, free, 0, cap) && Represents(slots, chain, entries)
      ensures head == HeadOf(chain) && tail == TailOf(chain)
    {
      hide Arena, Chained, InHand, Represents, EncodeAll;
      if head == slot {
        ArenaChain(slots, chain, free, 0, cap);
        HeadIsFirst(slots, chain, k);
        RemovedFirst(chain);
        RemovedFirst(entries);
        return;
      }
      hide HeadOf, TailOf, Removed;
      UnlinkSlot(slot, k);
      LinkSlotFront(slot, old(entries)[k]);
    }

    /** A slot for a new key: the evicted tail's, a free one, or a fresh one. */
    method TakeSlot() returns (slot: nat)
      requires Valid()
      modifies this`slots, this`count, this`head, this`tail, this`freeHead, this`chain, this`free, this`entries
      modifies table.keys, table.vals
      ensures table.Valid() && Arena(slots, chain, free, 1, cap) && Represents(slots, chain, entries)
      ensures head == HeadOf(chain) && tail == TailOf(chain) && freeHead == HeadOf(free)
      ensures count == |entries| < cap && IdsOk(entries) && Indexed(table.Map(), chain, entries)
      ensures InHand(slots, chain, free, slot)
      ensures entries == if |old(entries)| >= cap then old(entries)[..|old(entries)| - 1] else old(entries)
    {
      hide Arena, InHand, Indexed, Represents, IdsOk, Removed, TailOf, EncodeAll, TableOk, Content;
      RepresentsSize(slots, chain, entries);
      ArenaChain(slots, chain, free, 0, cap);
      if count >= cap {
        slot := EvictTail();
      } else if freeHead != NO_SLOT {
        slot := freeHead;
        TakeFree(slots, chain, free, cap, entries);
        freeHead := slots[slot].next;
        slots := slots[slot := slots[slot].(next := NO_SLOT)];
        free := free[1..];
      } else {
        slot := |slots|;
        TakeFresh(slots, chain, free, cap, entries);
        slots := slots + [BLANK];
      }
    }

    /** Evicts the least recently put entry and hands over its slot. */
    method EvictTail() returns (slot: nat)
      requires Valid() && count >= cap
      modifies this`slots, this`count, this`head, this`tail, this`chain, this`entries
      modifies table.keys, table.vals
      ensures table.Valid() && Arena(slots, chain, free, 1, cap) && Represents(slots, chain, entries)
      ensures head == HeadOf(chain) && tail == TailOf(chain)
      ensures count == |entries| < cap && IdsOk(entries) && Indexed(table.Map(), chain, entries)
      ensures InHand(slots, chain, free, slot)
      ensures |old(entries)| == cap && entries == old(entries)[..cap - 1]
    {
      hide Arena, InHand, Indexed, Represents, IdsOk, Removed, EncodeAll, HeadOf, TableOk, Content;
      RepresentsSize(slots, chain, entries);
      ArenaChain(slots, chain, free, 0, cap);
      ghost var k := |chain| - 1;
      EvictedEntry(slots, chain, entries, table.Map(), k);
      IdsOkRemoved(entries, k);
      RemovedLast(entries);
      slot := tail;
      table.Erase(slots[slot].key);
      UnlinkSlot(slot, k);
      count := count - 1;
    }

    /** Stores a list under an id and makes the id the most recently put one. */
    method Put(id: nat, neighbors: seq<NodeId>)
      requires Valid() && id != NO_ID
      modifies this, table.keys, table.vals
      ensures Valid() && entries == PutFront(old(entries), cap, id, neighbors)
    {
      hide Arena, Indexed, Represents, IdsOk, Has, Removed;
      var slot := table.Find(id);
      FoundSlot(id);
      HasIsPosition(entries, id);
      if slot != NO_SLOT {
        PutExisting(slot, id, neighbors, Position(entries, id));
      } else {
        PutNew(id, neighbors);
      }
    }

    method PutExisting(slot: nat, id: nat, neighbors: seq<NodeId>, ghost k: nat)
      requires Valid() && id != NO_ID && k < |entries| == |chain| && entries[k].id == id && chain[k] == slot
      modifies this`slots, this`head, this`tail, this`chain, this`entries
      ensures Valid() && entries == [Entry(id, neighbors)] + Removed(old(entries), k)
    {
      hide Arena, Indexed, Represents, IdsOk, HeadOf, TailOf, Removed, EncodeAll;
      var enc := EncodeInto(neighbors);
      SetPayload(slots, chain, free, cap, entries, k, enc, neighbors);
      IndexedMoved(table.Map(), chain, entries, k, neighbors);
      RemovedAt(entries, k);
      RemovedAfterSet(entries, k, Entry(id, neighbors));
      slots := slots[slot := slots[slot].(enc := enc)];
      entries := entries[k := Entry(id, neighbors)];
      MoveToFront(slot, k);
    }

    method PutNew(id: nat, neighbors: seq<NodeId>)
      requires Valid() && id != NO_ID && !Has(entries, id)
      modifies this, table.keys, table.vals
      ensures Valid()
      ensures var es := old(entries);
              entries == [Entry(id, neighbors)] + (if |es| >= cap then es[..|es| - 1] else es)
    {
      hide Arena, Indexed, Represents, IdsOk, HeadOf, TailOf, EncodeAll, Has, InHand, TableOk, Content;
      AbsentFromShorter(entries, cap, id);
      var slot := TakeSlot();
      ghost var e, taken, m' := Entry(id, neighbors), slots, table.Map();
      InHandInRange(slots, chain, free, slot);
      slots := slots[slot := slots[slot].(key := id)];
      var enc := EncodeInto(neighbors);
      slots := slots[slot := slots[slot].(enc := enc)];
      assert slots == taken[slot := taken[slot].(key := id, enc := enc)];
      SetInHand(taken, chain, free, cap, entries, slot, e, enc);
      IndexedSize(m', chain, entries);
      IdsOkAdded(entries, e);
      IndexedAdded(m', chain, entries, e, slot);
      LinkSlotFront(slot, e);
      table.Insert(id, slot);
      count := count + 1;
    }

    /** Invalidates an id: its slot goes to the free list. */
    method Erase(id: nat)
      requires Valid() && id != NO_ID
      modifies this, table.keys, table.vals
      ensures Valid() && entries == Without(old(entries), id)
    {
      hide Arena, Indexed, Represents, IdsOk, Has, Removed;
      var slot := table.Find(id);
      FoundSlot(id);
      HasIsPosition(entries, id);
      if slot != NO_SLOT {
        EraseSlot(slot, id, Position(entries, id));
      }
    }

    method EraseSlot(slot: nat, id: nat, ghost k: nat)
      requires Valid() && id != NO_ID && k < |entries| == |chain| && entries[k].id == id && chain[k] == slot
      modifies this, table.keys, table.vals
      ensures Valid() && entries == Removed(old(entries), k)
    {
      hide Arena, Indexed, Represents, IdsOk, Removed, EncodeAll, TailOf, InHand, TableOk, Content;
      EvictedEntry(slots, chain, entries, table.Map(), k);
      IdsOkRemoved(entries, k);
      RemovedAt(entries, k);
      UnlinkSlot(slot, k);
      table.Erase(id);
      count := count - 1;
      FreeSlot(slot);
    }

    method FreeSlot(slot: nat)
      requires Arena(slots, chain, free, 1, cap) && Represents(slots, chain, entries)
      requires InHand(slots, chain, free, slot) && freeHead == HeadOf(free)
      modifies this`slots, this`freeHead, this`free
      ensures Arena(slots, chain, free, 0, cap) && Represents(slots, chain, entries) && freeHead == HeadOf(free)
    {
      hide Arena, Represents, InHand, EncodeAll;
      InHandInRange(slots, chain, free, slot);
      ghost var unlinked := slots;
      slots := slots[slot := slots[slot].(enc := [])];
      slots := slots[slot := slots[slot].(next := freeHead)];
      assert slots == unlinked[slot := unlinked[slot].(enc := [], next := freeHead)];
      GiveBack(unlinked, chain, free, cap, entries, slot);
      freeHead := slot;
      free := [slot] + free;
    }
  }

  lemma RemovedFirst<T>(s: seq<T>)
    requires s != []
    ensures s == [s[0]] + Removed(s, 0)
  {}

  lemma RemovedLast<T>(s: seq<T>)
    requires s != []
    ensures Removed(s, |s| - 1) == s[..|s| - 1]
  {}

  lemma RemovedAfterSet<T>(s: seq<T>, k: nat, x: T)
    requires k < |s|
    ensures Removed(s[k := x], k) == Removed(s, k)
  {}

  lemma HeadIsFirst(slots: seq<Slot>, chain: seq<nat>, k: nat)
    requires Chained(slots, chain) && k < |chain| && HeadOf(chain) == chain[k]
    ensures k == 0
  {}

  lemma InHandInRange(slots: seq<Slot>, chain: seq<nat>, free: seq<nat>, s: nat)
    requires InHand(slots, chain, free, s)
    ensures s < |slots|
  {}

  lemma EvictedEntry(slots: seq<Slot>, chain: seq<nat>, es: seq<Entry>, m: map<nat, nat>, k: nat)
    requires Represents(slots, chain, es) && Indexed(m, chain, es) && IdsOk(es) && k < |chain|
    ensures k < |es| && chain[k] < |slots| && slots[chain[k]].key == es[k].id != NO_ID
    ensures Indexed(m - {es[k].id}, Removed(chain, k), Removed(es, k))
  {
    IndexedRemoved(m, chain, es, k);
  }

  lemma IdsOkRemoved(es: seq<Entry>, k: nat)
    requires IdsOk(es) && k < |es|
    ensures IdsOk(Removed(es, k))
  {
    DistinctRemoved(es, k);
    RemovedAt(es, k);
  }

  lemma IdsOkAdded(es: seq<Entry>, e: Entry)
    requires IdsOk(es) && !Has(es, e.id) && e.id != NO_ID
    ensures IdsOk([e] + es) && DistinctIds(es)
  {
    PositionNone(es, e.id);
  }

  lemma TakeFree(slots: seq<Slot>, chain: seq<nat>, free: seq<nat>, cap: nat, es: seq<Entry>)
    requires Arena(slots, chain, free, 0, cap) && Represents(slots, chain, es) && HeadOf(free) != NO_SLOT
    ensures var s := HeadOf(free);
            && s < |slots| && slots[s].next == HeadOf(free[1..])
            && var after := slots[s := slots[s].(next := NO_SLOT)];
               && Arena(after, chain, free[1..], 1, cap) && Represents(after, chain, es)
               && InHand(after, chain, free[1..], s)
  {
    var s := free[0];
    assert s !in chain;
    assert forall i :: 0 <= i < |free| - 1 ==> free[1..][i] == free[i + 1];
    ChainUntouched(slots, chain, s, slots[s].(next := NO_SLOT));
  }

  lemma ChainUntouched(slots: seq<Slot>, chain: seq<nat>, s: nat, v: Slot)
    requires Chained(slots, chain) && s < |slots| && s !in chain
    ensures Chained(slots[s := v], chain)
  {
    var after := slots[s := v];
    forall i: nat | i < |chain|
      ensures ChainedAt(after, chain, i)
    {
      assert ChainedAt(slots, chain, i);
    }
  }

  lemma TakeFresh(slots: seq<Slot>, chain: seq<nat>, free: seq<nat>, cap: nat, es: seq<Entry>)
    requires Arena(slots, chain, free, 0, cap) && Represents(slots, chain, es)
    requires HeadOf(free) == NO_SLOT && |chain| < cap
    ensures free == []
    ensures Arena(slots + [BLANK], chain, free, 1, cap) && Represents(slots + [BLANK], chain, es)
    ensures InHand(slots + [BLANK], chain, free, |slots|)
  {
    var longer := slots + [BLANK];
    forall i: nat | i < |chain|
      ensures ChainedAt(longer, chain, i)
    {
      assert ChainedAt(slots, chain, i);
    }
  }

  /** Only the payload of one used slot changes. */
  lemma SetPayload(slots: seq<Slot>, chain: seq<nat>, free: seq<nat>, cap: nat, es: seq<Entry>, k: nat,
                   enc: seq<Byte>, list: seq<NodeId>)
    requires Arena(slots, chain, free, 0, cap) && Represents(slots, chain, es) && k < |chain|
    requires enc == EncodeAll(list)
    ensures k < |es| && chain[k] < |slots|
    ensures var after := slots[chain[k] := slots[chain[k]].(enc := enc)];
            Arena(after, chain, free, 0, cap) && Represents(after, chain, es[k := Entry(es[k].id, list)])
  {
    var after := slots[chain[k] := slots[chain[k]].(enc := enc)];
    forall i: nat | i < |chain|
      ensures ChainedAt(after, chain, i)
    {
      assert ChainedAt(slots, chain, i);
    }
  }

  /** Key and payload of a slot in hand may be set freely. */
  lemma SetInHand(slots: seq<Slot>, chain: seq<nat>, free: seq<nat>, cap: nat, es: seq<Entry>, s: nat, e: Entry,
                  enc: seq<Byte>)
    requires Arena(slots, chain, free, 1, cap) && Represents(slots, chain, es) && InHand(slots, chain, free, s)
    ensures s < |slots|
    ensures var after := slots[s := slots[s].(key := e.id, enc := enc)];
            Arena(after, chain, free, 1, cap) && Represents(after, chain, es) && InHand(after, chain, free, s)
  {
    ChainUntouched(slots, chain, s, slots[s].(key := e.id, enc := enc));
  }

  lemma GiveBack(slots: seq<Slot>, chain: seq<nat>, free: seq<nat>, cap: nat, es: seq<Entry>, s: nat)
    requires Arena(slots, chain, free, 1, cap) && Represents(slots, chain, es) && InHand(slots, chain, free, s)
    ensures s < |slots|
    ensures var after := slots[s := slots[s].(enc := [], next := HeadOf(free))];
            Arena(after, chain, [s] + free, 0, cap) && Represents(after, chain, es)
  {
    var after := slots[s := slots[s].(enc := [], next := HeadOf(free))];
    ChainUntouched(slots, chain, s, after[s]);
    var more := [s] + free;
    forall i | 0 <= i < |more|
      ensures more[i] < |after| && after[more[i]].next == NextOf(more, i)
    {
      if i > 0 {
        assert more[i] == free[i - 1];
      }
    }
  }

  lemma IndexedMoved(m: map<nat, nat>, chain: seq<nat>, es: seq<Entry>, k: nat, list: seq<NodeId>)
    requires Indexed(m, chain, es) && IdsOk(es) && k < |es|
    ensures var e := Entry(es[k].id, list);
            && Indexed(m, [chain[k]] + Removed(chain, k), [e] + Removed(es, k))
            && IdsOk([e] + Removed(es, k))
  {
    hide Removed, Has;
    var e := Entry(es[k].id, list);
    IndexedRemoved(m, chain, es, k);
    IndexedAdded(m - {e.id}, Removed(chain, k), Removed(es, k), e, chain[k]);
    assert (m - {e.id})[e.id := chain[k]] == m;
    IdsOkRemoved(es, k);
    IdsOkAdded(Removed(es, k), e);
  }

  lemma HasIsPosition(es: seq<Entry>, id: nat)
    ensures Has(es, id) <==> Position(es, id) < |es|
  {}

  lemma AbsentFromShorter(es: seq<Entry>, cap: nat, id: nat)
    requires !Has(es, id)
    ensures es != [] ==> !Has(es[..|es| - 1], id)
  {
    PositionNone(es, id);
    if es != [] {
      PositionNone(es[..|es| - 1], id);
    }
  }

  lemma ArenaChain(slots: seq<Slot>, chain: seq<nat>, free: seq<nat>, spare: nat, cap: nat)
    requires Arena(slots, chain, free, spare, cap)
    ensures Chained(slots, chain) && |chain| + spare <= |slots| <= cap < NO_SLOT
  {}

  lemma RepresentsSize(slots: seq<Slot>, chain: seq<nat>, es: seq<Entry>)
    requires Represents(slots, chain, es)
    ensures |es| == |chain|
  {}

  lemma EndsRemoved(chain: seq<nat>, k: nat)
    requires k < |chain|
    ensures HeadOf(Removed(chain, k)) == if k == 0 then NextOf(chain, 0) else HeadOf(chain)
    ensures TailOf(Removed(chain, k)) == if k + 1 == |chain| then PrevOf(chain, k) else TailOf(chain)
  {}

  lemma EndsAdded(chain: seq<nat>, s: nat)
    ensures HeadOf([s] + chain) == s
    ensures TailOf([s] + chain) == if chain == [] then s else TailOf(chain)
  {}

  lemma TailInRange(slots: seq<Slot>, chain: seq<nat>)
    requires Chained(slots, chain)
    ensures chain != [] ==> TailOf(chain) < |slots| <= NO_SLOT
    ensures TailOf(chain) == NO_SLOT <==> chain == []
  {
    if chain != [] {
      assert ChainedAt(slots, chain, |chain| - 1);
    }
  }
}
