/**
 The Bloom filter in front of the update map (src/bloom_filter.cc, and the
 mapping calls in src/astervec_index.cc): it never denies a key that was added,
 so it never changes what a real id resolves to.
 */
module BloomFilters {
  import opened Basics
  import opened DbState

  /** Bits for a capacity; `formula` stands for the logarithmic size rule. */
  function BitsFor(capacity: nat, formula: nat -> nat): nat {
    if capacity == 0 then 0 else if formula(capacity) < 64 then 64 else formula(capacity)
  }

  /** The i-th probe of double hashing, in 64-bit arithmetic. */
  function Probe(h1: nat, h2: nat, i: nat): nat {
    Wrap(h1 + i * h2)
  }

  function Wrap(x: nat): nat {
    x % 0x1_0000_0000_0000_0000
  }

  lemma NextProbe(h1: nat, h2: nat, i: nat)
    ensures Wrap(Probe(h1, h2, i) + h2) == Probe(h1, h2, i + 1)
  {
    assert h1 + (i + 1) * h2 == h1 + i * h2 + h2;
    WrapAdd(h1 + i * h2, h2);
  }

  lemma WrapAdd(a: nat, b: nat)
    ensures Wrap(Wrap(a) + b) == Wrap(a + b)
  {
    WrapIs(a + b, a / 0x1_0000_0000_0000_0000 + (Wrap(a) + b) / 0x1_0000_0000_0000_0000, Wrap(Wrap(a) + b));
  }

  lemma WrapIs(x: nat, q: nat, r: nat)
    requires r < 0x1_0000_0000_0000_0000 && x == q * 0x1_0000_0000_0000_0000 + r
    ensures Wrap(x) == r
  {}

  lemma FirstProbe(h1: nat, h2: nat)
    ensures Wrap(h1) == Probe(h1, h2, 0)
  {
    assert h1 + 0 * h2 == h1;
  }

  /** A key's i-th bit is set. */
  predicate HasBit(bits: seq<bool>, h1: nat, h2: nat, i: nat)
    requires bits != []
  {
    bits[Probe(h1, h2, i) % |bits|]
  }

  ghost predicate HasBits(bits: seq<bool>, h1: nat, h2: nat, n: nat)
    requires bits != []
  {
    forall i: nat :: i < n ==> HasBit(bits, h1, h2, i)
  }

  ghost predicate Grows(a: seq<bool>, b: seq<bool>) {
    |a| == |b| && forall k :: 0 <= k < |a| && a[k] ==> b[k]
  }

  lemma GrowsKeeps(a: seq<bool>, b: seq<bool>, h1: nat, h2: nat, n: nat)
    requires a != [] && Grows(a, b) && HasBits(a, h1, h2, n)
    ensures HasBits(b, h1, h2, n)
  {
    hide Probe;
    forall i: nat | i < n
      ensures HasBit(b, h1, h2, i)
    {
      assert HasBit(a, h1, h2, i);
    }
  }

  /** Sets a probe's bit on the way. */
  lemma SetProbe(a: seq<bool>, h1: nat, h2: nat, i: nat)
    requires a != [] && HasBits(a, h1, h2, i)
    ensures var b := a[Probe(h1, h2, i) % |a| := true]; Grows(a, b) && HasBits(b, h1, h2, i + 1)
  {
    hide Probe;
    var b := a[Probe(h1, h2, i) % |a| := true];
    GrowsKeeps(a, b, h1, h2, i);
    assert HasBit(b, h1, h2, i);
  }

  class BloomFilter {
    const hash1: nat -> nat
    const hash2: nat -> nat
    const formula: nat -> nat
    const numHash: nat

    var bits: array<bool>
    var capacity: nat
    var inserts: nat
    ghost var added: set<nat>

    /** All probes of the key are set. */
    ghost predicate Hit(key: nat)
      requires bits.Length > 0
      reads this`bits, bits
    {
      HasBits(bits[..], hash1(key), hash2(key), numHash)
    }

    ghost predicate Valid()
      reads this, bits
    {
      bits.Length == BitsFor(capacity, formula) && (bits.Length > 0 ==> forall key :: key in added ==> Hit(key))
    }

    constructor (hash1: nat -> nat, hash2: nat -> nat, formula: nat -> nat, numHash: nat, capacity: nat)
      ensures Valid() && fresh(bits) && added == {} && this.capacity == capacity && inserts == 0
      ensures forall k :: 0 <= k < bits.Length ==> !bits[k]
    {
      this.hash1, this.hash2, this.formula, this.numHash := hash1, hash2, formula, numHash;
      this.capacity, inserts, added := capacity, 0, {};
      bits := new bool[BitsFor(capacity, formula)](_ => false);
    }

    /** Room for another number of keys and no bit set, so with at least one probe every key is denied. */
    method Reset(newCapacity: nat)
      modifies this
      ensures Valid() && fresh(bits) && added == {} && capacity == newCapacity && inserts == 0
      ensures forall k :: 0 <= k < bits.Length ==> !bits[k]
      ensures numHash > 0 && bits.Length > 0 ==> forall key :: !Hit(key)
    {
      hide Probe;
      capacity, inserts, added := newCapacity, 0, {};
      bits := new bool[BitsFor(newCapacity, formula)](_ => false);
      if numHash > 0 && bits.Length > 0 {
        forall key
          ensures !Hit(key)
        {
          assert !HasBit(bits[..], hash1(key), hash2(key), 0);
        }
      }
    }

    method SetProbes(h1: nat, h2: nat)
      requires bits.Length > 0
      modifies bits
      ensures Grows(old(bits[..]), bits[..]) && HasBits(bits[..], h1, h2, numHash)
    {
      hide Probe, Wrap, HasBits, Grows;
      FirstProbe(h1, h2);
      var probe := Wrap(h1);
      NoBits(bits[..], h1, h2);
      for i := 0 to numHash
        invariant probe == Probe(h1, h2, i)
        invariant Grows(old(bits[..]), bits[..]) && HasBits(bits[..], h1, h2, i)
      {
        ghost var before := bits[..];
        SetProbe(before, h1, h2, i);
        bits[probe % bits.Length] := true;
        assert bits[..] == before[Probe(h1, h2, i) % |before| := true];
        GrowsOn(old(bits[..]), before, bits[..]);
        NextProbe(h1, h2, i);
        probe := Wrap(probe + h2);
      }
    }

    /** Sets the key's probes; no bit is ever cleared. */
    method Add(key: nat)
      requires Valid()
      modifies this`inserts, this`added, bits
      ensures Valid() && bits == old(bits) && capacity == old(capacity)
      ensures added == old(added) + {key}
      ensures bits.Length > 0 ==> Hit(key) && inserts == old(inserts) + 1
      ensures bits.Length == 0 ==> inserts == old(inserts)
    {
      hide HasBits, Grows;
      added := added + {key};
      if bits.Length == 0 {
        return;
      }
      SetProbes(hash1(key), hash2(key));
      forall k | k in old(added)
        ensures Hit(k)
      {
        GrowsKeeps(old(bits[..]), bits[..], hash1(k), hash2(k), numHash);
      }
      inserts := inserts + 1;
    }

    /** Denies a key only if it was never added. */
    method MightContain(key: nat) returns (r: bool)
      requires Valid()
      ensures bits.Length == 0 ==> !r
      ensures bits.Length > 0 ==> r == Hit(key)
      ensures bits.Length > 0 && key in added ==> r
    {
      hide Probe, Wrap;
      if bits.Length == 0 {
        return false;
      }
      var h1, h2 := hash1(key), hash2(key);
      FirstProbe(h1, h2);
      var probe := Wrap(h1);
      for i := 0 to numHash
        invariant probe == Probe(h1, h2, i) && HasBits(bits[..], h1, h2, i)
      {
        if !bits[probe % bits.Length] {
          assert !HasBit(bits[..], h1, h2, i);
          return false;
        }
        assert HasBit(bits[..], h1, h2, i);
        NextProbe(h1, h2, i);
        probe := Wrap(probe + h2);
      }
      return true;
    }
  }

  lemma NoBits(a: seq<bool>, h1: nat, h2: nat)
    requires a != []
    ensures HasBits(a, h1, h2, 0) && Grows(a, a)
  {}

  lemma GrowsOn(a: seq<bool>, b: seq<bool>, c: seq<bool>)
    requires Grows(a, b) && Grows(b, c)
    ensures Grows(a, c)
  {}

  lemma HasBitsFor(bloom: BloomFilter)
    requires bloom.Valid() && bloom.capacity > 0
    ensures bloom.bits.Length > 0
  {}

  lemma OneMore(keys: set<nat>, todo: set<nat>, key: nat)
    requires todo <= keys && key in todo
    ensures keys - (todo - {key}) == (keys - todo) + {key} && |(keys - todo) + {key}| == |keys - todo| + 1
  {}

  /** Adds each of the keys once, in any order, to an empty filter. */
  method AddAll(bloom: BloomFilter, keys: set<nat>)
    requires bloom.Valid() && bloom.capacity > 0 && bloom.added == {} && bloom.inserts == 0
    modifies bloom`inserts, bloom`added, bloom.bits
    ensures bloom.Valid() && bloom.added == keys && bloom.inserts == |keys|
  {
    hide BloomFilter.Valid, BloomFilter.Hit;
    HasBitsFor(bloom);
    var todo := keys;
    while todo != {}
      invariant todo <= keys && bloom.Valid()
      invariant bloom.added == keys - todo && bloom.inserts == |keys - todo|
    {
      var key :| key in todo;
      OneMore(keys, todo, key);
      bloom.Add(key);
      todo := todo - {key};
    }
    assert keys - todo == keys;
  }

  /** The update map with the filter in front. */
  class UpdateMap {
    var realToInternal: map<nat, nat>
    var internalToReal: map<nat, nat>
    const bloom: BloomFilter

    function Core(): Core<bool>
      reads this`realToInternal, this`internalToReal
    {
      DbState.Core.Core(map[], {}, realToInternal, internalToReal, 0, 0)
    }

    ghost predicate Valid()
      reads this, bloom, bloom.bits
    {
      && bloom.Valid() && bloom.capacity > 0 && realToInternal.Keys <= bloom.added
      && |bloom.added| <= bloom.inserts && 10 * bloom.inserts < 7 * bloom.capacity
    }

    constructor (bloom: BloomFilter)
      requires bloom.Valid() && bloom.capacity > 0 && bloom.added == {} && bloom.inserts == 0
      ensures Valid() && realToInternal == map[] && internalToReal == map[] && this.bloom == bloom
    {
      this.bloom := bloom;
      realToInternal, internalToReal := map[], map[];
    }

    /** With the shortcut or without, a real id resolves to what the map says. */
    method ResolveInternal(r: nat) returns (i: nat)
      requires Valid()
      ensures i == Resolve(Core(), r)
    {
      var maybe := bloom.MightContain(r);
      if !maybe {
        return r;
      }
      return if r in realToInternal then realToInternal[r] else r;
    }

    /** Refills a filter of the given capacity with the mapped real ids, each added once. */
    method RebuildBloom(newCapacity: nat)
      requires newCapacity > 0
      modifies bloom, bloom.bits
      ensures bloom.Valid() && bloom.added == realToInternal.Keys && bloom.inserts == |realToInternal|
      ensures bloom.capacity == newCapacity && fresh(bloom.bits)
    {
      bloom.Reset(newCapacity);
      AddAll(bloom, realToInternal.Keys);
      assert |realToInternal.Keys| == |realToInternal|;
    }

    /**
     Maps a real id, dropping its stale reverse entry. A filter that would be 70% full is
     rebuilt with twice the capacity from what is mapped, so it never is.
     */
    method RecordUpdateMapping(r: nat, i: nat)
      requires Valid()
      modifies this, bloom, bloom.bits
      ensures Valid() && Core() == MapTo(old(Core()), r, i)
      ensures var rebuilt := 10 * (old(bloom.inserts) + 1) >= 7 * old(bloom.capacity);
              && bloom.capacity == (if rebuilt then 2 * old(bloom.capacity) else old(bloom.capacity))
              && bloom.added == (if rebuilt then realToInternal.Keys else old(bloom.added) + {r})
              && bloom.inserts == (if rebuilt then |realToInternal| else old(bloom.inserts) + 1)
    {
      if r in realToInternal {
        internalToReal := internalToReal - {realToInternal[r]};
      }
      realToInternal := realToInternal[r := i];
      internalToReal := internalToReal[i := r];
      bloom.Add(r);
      if 10 * bloom.inserts >= 7 * bloom.capacity {
        SubsetSize(realToInternal.Keys, bloom.added);
        RebuildBloom(bloom.capacity * 2);
      }
    }

    /** Forgets a real id; its bits stay set. */
    method ForgetUpdateMapping(r: nat)
      requires Valid()
      modifies this
      ensures Valid() && Core() == Forget(old(Core()), r)
    {
      if r in realToInternal {
        internalToReal := internalToReal - {realToInternal[r]};
        realToInternal := realToInternal - {r};
      }
    }
  }
}
