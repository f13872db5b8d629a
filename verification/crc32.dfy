/**
 The reflected CRC-32 of include/crc32.h: a 256-entry table, a byte-at-a-time
 register update, and the properties the operation log relies on. The reference
 is the bit-serial register of RFC 1952, section 8, which knows no table.

 Registers are unsigned 32-bit numbers; exclusive-or is spelled out on their
 binary digits, `c >> k` is division by 2^k and `c & 0xFF` is `c % 256`.
 */
module Crc32 {

  type Byte = x: int | 0 <= x < 256
  type Word32 = x: int | 0 <= x < 0x1_0000_0000

  const POLY: Word32 := 0xEDB8_8320
  const INIT: Word32 := 0xFFFF_FFFF

  // ----- Exclusive-or on binary digits -----

  function XorDigits(a: nat, b: nat): nat {
    if a == 0 && b == 0 then 0
    else 2 * XorDigits(a / 2, b / 2) + (if a % 2 != b % 2 then 1 else 0)
  }

  function Pow2(k: nat): (p: nat)
    ensures p > 0
  {
    if k == 0 then 1 else 2 * Pow2(k - 1)
  }

  lemma {:induction false} XorFits(a: nat, b: nat, k: nat)
    requires a < Pow2(k) && b < Pow2(k)
    ensures XorDigits(a, b) < Pow2(k)
  {
    if k > 0 {
      XorFits(a / 2, b / 2, k - 1);
    }
  }

  lemma WordWidth()
    ensures Pow2(8) == 256 && Pow2(24) == 0x100_0000
    ensures Pow2(31) == 0x8000_0000 && Pow2(32) == 0x1_0000_0000
  {
    assert Pow2(8) == 256;
    assert Pow2(16) == 0x1_0000 by { assert Pow2(12) == 4096; }
    assert Pow2(24) == 0x100_0000 by { assert Pow2(20) == 0x10_0000; }
    assert Pow2(28) == 0x1000_0000;
  }

  function Xor(a: Word32, b: Word32): Word32 {
    WordWidth();
    XorFits(a, b, 32);
    XorDigits(a, b)
  }

  lemma {:induction false} XorComm(a: nat, b: nat)
    ensures XorDigits(a, b) == XorDigits(b, a)
  {
    if a != 0 || b != 0 {
      XorComm(a / 2, b / 2);
    }
  }

  lemma {:induction false} XorAssoc(a: nat, b: nat, c: nat)
    ensures XorDigits(XorDigits(a, b), c) == XorDigits(a, XorDigits(b, c))
  {
    if a != 0 || b != 0 || c != 0 {
      XorAssoc(a / 2, b / 2, c / 2);
    }
  }

  lemma {:induction false} XorZero(a: nat)
    ensures XorDigits(a, 0) == a
  {
    if a != 0 {
      XorZero(a / 2);
    }
  }

  lemma {:induction false} XorSelf(a: nat)
    ensures XorDigits(a, a) == 0
  {
    if a != 0 {
      XorSelf(a / 2);
    }
  }

  lemma XorCancels(a: nat, b: nat, x: nat)
    requires XorDigits(x, a) == XorDigits(x, b)
    ensures a == b
  {
    XorAssoc(x, x, a);
    XorAssoc(x, x, b);
    XorSelf(x);
    XorComm(0, a);
    XorComm(0, b);
    XorZero(a);
    XorZero(b);
  }

  /** `h` moved up by `k` digits, one digit at a time. */
  function Shifted(h: nat, k: nat): nat {
    if k == 0 then h else 2 * Shifted(h, k - 1)
  }

  lemma {:induction false} ShiftedIs(h: nat, k: nat)
    ensures Shifted(h, k) == h * Pow2(k)
  {
    if k > 0 {
      ShiftedIs(h, k - 1);
      Doubled(h, Pow2(k - 1));
    }
  }

  lemma Doubled(x: nat, y: nat)
    ensures 2 * (x * y) == x * (2 * y)
  {}

  /** Numbers without common digits are added by exclusive-or. */
  lemma {:induction false} XorShifted(lo: nat, h: nat, k: nat)
    requires lo < Pow2(k)
    ensures XorDigits(lo, Shifted(h, k)) == lo + Shifted(h, k)
  {
    if k == 0 {
      XorComm(0, h);
      XorZero(h);
    } else {
      XorShifted(lo / 2, h, k - 1);
      XorPair(lo, Shifted(h, k - 1));
    }
  }

  /** The lowest digit of the left operand alone, the right one being even. */
  lemma XorPair(lo: nat, y: nat)
    ensures XorDigits(lo, 2 * y) == 2 * XorDigits(lo / 2, y) + lo % 2
  {}

  lemma XorDisjoint(lo: nat, h: nat, k: nat)
    requires lo < Pow2(k)
    ensures XorDigits(lo, h * Pow2(k)) == lo + h * Pow2(k)
  {
    ShiftedIs(h, k);
    XorShifted(lo, h, k);
  }

  /** A digit only one operand has survives. */
  lemma {:induction false} XorKeepsTop(a: nat, b: nat, k: nat)
    requires Pow2(k) <= a < 2 * Pow2(k) && b < Pow2(k)
    ensures XorDigits(a, b) >= Pow2(k)
  {
    if k > 0 {
      XorKeepsTop(a / 2, b / 2, k - 1);
    }
  }

  // ----- Reference: one message bit at a time, least significant bit first -----

  function FeedBit(c: Word32, m: bool): Word32 {
    if (c % 2 == 1) != m then Xor(POLY, c / 2) else c / 2
  }

  function Serial(c: Word32, bits: seq<bool>): Word32
    decreases bits
  {
    if bits == [] then c else Serial(FeedBit(c, bits[0]), bits[1..])
  }

  function LowBits(x: nat, k: nat): seq<bool> {
    if k == 0 then [] else [x % 2 == 1] + LowBits(x / 2, k - 1)
  }

  function MessageBits(data: seq<Byte>): seq<bool> {
    if data == [] then [] else MessageBits(data[..|data| - 1]) + LowBits(data[|data| - 1], 8)
  }

  // ----- The program's register -----

  function Step(c: Word32): Word32 {
    if c % 2 == 1 then Xor(POLY, c / 2) else c / 2
  }

  function Steps(c: Word32, k: nat): Word32
    decreases k
  {
    if k == 0 then c else Steps(Step(c), k - 1)
  }

  /** The register after `data`, each byte folded into the low end and shifted out. */
  function Register(c: Word32, data: seq<Byte>): Word32 {
    if data == [] then c
    else Steps(Xor(Register(c, data[..|data| - 1]), data[|data| - 1]), 8)
  }

  function Finish(c: Word32): Word32 {
    Xor(c, 0xFFFF_FFFF)
  }

  ghost predicate IsTable(t: seq<Word32>) {
    |t| == 256 && forall i: Byte :: t[i] == Steps(i, 8)
  }

  /** One table entry: the inner loop of the table's initialiser. */
  method TableEntry(i: Byte) returns (c: Word32)
    ensures c == Steps(i, 8)
  {
    c := i;
    var k := 8;
    while k > 0
      invariant k >= 0 && Steps(c, k) == Steps(i, 8)
    {
      c := if c % 2 == 1 then Xor(POLY, c / 2) else c / 2;
      k := k - 1;
    }
  }

  method BuildTable() returns (t: array<Word32>)
    ensures fresh(t) && IsTable(t[..])
  {
    hide Steps;
    t := new Word32[256](_ => 0);
    for i := 0 to 256
      invariant forall j: Byte :: j < i ==> t[j] == Steps(j, 8)
    {
      var c := TableEntry(i);
      t[i] := c;
    }
  }

  method Update(table: array<Word32>, crc: Word32, data: seq<Byte>) returns (r: Word32)
    requires IsTable(table[..])
    ensures r == Register(crc, data)
  {
    r := crc;
    for i := 0 to |data|
      invariant r == Register(crc, data[..i])
    {
      assert data[..i + 1][..i] == data[..i];
      TableLookup(table[..], r, data[i]);
      r := Xor(table[Xor(r, data[i]) % 256], r / 256);
    }
    assert data[..|data|] == data;
  }

  method Value(table: array<Word32>, data: seq<Byte>) returns (r: Word32)
    requires IsTable(table[..])
    ensures r == Finish(Serial(INIT, MessageBits(data)))
  {
    r := Update(table, INIT, data);
    RegisterIsSerial(INIT, data);
    r := Finish(r);
  }

  // ----- Linearity over GF(2) -----

  lemma StepLinear(a: Word32, b: Word32)
    ensures Step(Xor(a, b)) == Xor(Step(a), Step(b))
  {
    var p, x, y := POLY, a / 2, b / 2;
    assert XorDigits(a, b) / 2 == XorDigits(x, y);
    XorAssoc(p, x, y);
    XorAssoc(x, p, y);
    XorAssoc(XorDigits(p, x), p, y);
    XorComm(p, x);
    XorAssoc(x, p, p);
    XorSelf(p);
    XorZero(x);
  }

  lemma {:induction false} StepsLinear(a: Word32, b: Word32, k: nat)
    ensures Steps(Xor(a, b), k) == Xor(Steps(a, k), Steps(b, k))
    decreases k
  {
    if k > 0 {
      StepLinear(a, b);
      StepsLinear(Step(a), Step(b), k - 1);
    }
  }

  lemma {:induction false} StepsAdd(c: Word32, j: nat, k: nat)
    ensures Steps(c, j + k) == Steps(Steps(c, j), k)
    decreases j
  {
    if j > 0 {
      StepsAdd(Step(c), j - 1, k);
    }
  }

  /** Clear low digits are shifted out without feedback. */
  lemma {:induction false} StepsShifted(w: nat, k: nat)
    requires Shifted(w, k) < 0x1_0000_0000
    ensures w < 0x1_0000_0000 && Steps(Shifted(w, k), k) == w
  {
    if k > 0 {
      var half := Shifted(w, k - 1);
      assert Step(2 * half) == half;
      StepsShifted(w, k - 1);
    }
  }

  lemma StepsShift(w: nat, k: nat)
    requires w * Pow2(k) < 0x1_0000_0000
    ensures w < 0x1_0000_0000 && Steps(w * Pow2(k), k) == w
  {
    ShiftedIs(w, k);
    StepsShifted(w, k);
  }

  /** A lone top bit is shifted down seven times and then turns into the polynomial: the table entry of 0x80. */
  lemma TopBitEntry()
    ensures Steps(0x80, 8) == 0xEDB8_8320
    ensures Finish(INIT) == 0
  {
    assert Pow2(7) == 128;
    StepsShift(1, 7);
    StepsAdd(0x80, 7, 1);
    XorZero(POLY);
    assert Step(1) == POLY;
    assert Steps(1, 1) == Steps(POLY, 0);
    XorSelf(INIT);
  }

  // ----- The table: eight steps of a register are one lookup and one shift -----

  lemma StepsSplit(lo: Word32, hi: Word32, h: nat, k: nat)
    requires lo < Pow2(k) && hi == h * Pow2(k) && lo + hi < 0x1_0000_0000
    ensures h < 0x1_0000_0000
    ensures Steps(lo + hi, k) == Xor(Steps(lo, k), h)
  {
    XorDisjoint(lo, h, k);
    StepsLinear(lo, hi, k);
    StepsShift(h, k);
  }

  lemma ShiftDropsByte(r: Word32, b: Byte)
    ensures Xor(r, b) / 256 == r / 256
  {
    WordWidth();
    var lo, hi := r % 256, r / 256 * 256;
    XorDisjoint(lo, r / 256, 8);
    XorFits(lo, b, 8);
    XorDisjoint(XorDigits(lo, b), r / 256, 8);
    XorOfSum(lo, hi, b);
  }

  lemma XorOfSum(lo: nat, hi: nat, b: nat)
    ensures XorDigits(XorDigits(lo, hi), b) == XorDigits(XorDigits(lo, b), hi)
  {
    XorAssoc(lo, hi, b);
    XorComm(hi, b);
    XorAssoc(lo, b, hi);
  }

  lemma TableLookup(t: seq<Word32>, r: Word32, b: Byte)
    requires IsTable(t)
    ensures Xor(t[Xor(r, b) % 256], r / 256) == Steps(Xor(r, b), 8)
  {
    WordWidth();
    var x := Xor(r, b);
    StepsSplit(x % 256, x / 256 * 256, x / 256, 8);
    ShiftDropsByte(r, b);
  }

  // ----- The register is the bit-serial register -----

  lemma FeedOneBit(c: Word32, x: Word32)
    ensures Step(Xor(c, x)) == Xor(FeedBit(c, x % 2 == 1), x / 2)
  {
    assert XorDigits(c, x) / 2 == XorDigits(c / 2, x / 2);
    XorAssoc(POLY, c / 2, x / 2);
  }

  lemma {:induction false} StepsFeedBits(c: Word32, x: Word32, k: nat)
    requires x < Pow2(k)
    ensures Steps(Xor(c, x), k) == Serial(c, LowBits(x, k))
    decreases k
  {
    if k == 0 {
      XorZero(c);
    } else {
      FeedOneBit(c, x);
      StepsFeedBits(FeedBit(c, x % 2 == 1), x / 2, k - 1);
      assert LowBits(x, k)[1..] == LowBits(x / 2, k - 1);
    }
  }

  lemma {:induction false} SerialConcat(c: Word32, a: seq<bool>, b: seq<bool>)
    ensures Serial(c, a + b) == Serial(Serial(c, a), b)
    decreases a
  {
    if a == [] {
      assert a + b == b;
    } else {
      assert (a + b)[1..] == a[1..] + b;
      SerialConcat(FeedBit(c, a[0]), a[1..], b);
    }
  }

  /** The byte-wise register equals the table-free register fed the message bit by bit. */
  lemma {:induction false} RegisterIsSerial(c: Word32, data: seq<Byte>)
    ensures Register(c, data) == Serial(c, MessageBits(data))
  {
    if data != [] {
      var front, b := data[..|data| - 1], data[|data| - 1];
      RegisterIsSerial(c, front);
      WordWidth();
      StepsFeedBits(Register(c, front), b, 8);
      SerialConcat(c, MessageBits(front), LowBits(b, 8));
    }
  }

  // ----- Composition over concatenation -----

  /** A checksum may be computed in pieces: the register carries over. */
  lemma {:induction false} RegisterConcat(c: Word32, a: seq<Byte>, b: seq<Byte>)
    ensures Register(c, a + b) == Register(Register(c, a), b)
  {
    if b == [] {
      assert a + b == a;
    } else {
      assert (a + b)[..|a + b| - 1] == a + b[..|b| - 1];
      RegisterConcat(c, a, b[..|b| - 1]);
    }
  }

  // ----- Error detection: any change confined to four consecutive bytes -----

  lemma StepInjective(a: Word32, b: Word32)
    requires Step(a) == Step(b)
    ensures a == b
  {
    WordWidth();
    XorKeepsTop(POLY, a / 2, 31);
    XorKeepsTop(POLY, b / 2, 31);
    if a % 2 == 1 && b % 2 == 1 {
      XorCancels(a / 2, b / 2, POLY);
    }
  }

  lemma {:induction false} StepsInjective(a: Word32, b: Word32, k: nat)
    requires Steps(a, k) == Steps(b, k)
    ensures a == b
    decreases k
  {
    if k > 0 {
      StepsInjective(Step(a), Step(b), k - 1);
      StepInjective(a, b);
    }
  }

  /** The same suffix keeps two registers that differ apart. */
  lemma {:induction false} RegisterInjective(c: Word32, d: Word32, data: seq<Byte>)
    requires Register(c, data) == Register(d, data)
    ensures c == d
  {
    if data != [] {
      var front, x := data[..|data| - 1], data[|data| - 1];
      var rc, rd := Register(c, front), Register(d, front);
      StepsInjective(Xor(rc, x), Xor(rd, x), 8);
      XorComm(rc, x);
      XorComm(rd, x);
      XorCancels(rc, rd, x);
      RegisterInjective(c, d, front);
    }
  }

  /** Bytes as one little-endian number. */
  function Word(u: seq<Byte>): (w: nat)
    ensures w < Pow2(8 * |u|)
  {
    if u == [] then 0
    else
      WordWidth();
      PowAdd(8, 8 * |u[1..]|);
      u[0] + 256 * Word(u[1..])
  }

  lemma {:induction false} PowAdd(j: nat, k: nat)
    ensures Pow2(j + k) == Pow2(j) * Pow2(k)
  {
    if j > 0 {
      PowAdd(j - 1, k);
    }
  }

  lemma {:induction false} PowMonotone(j: nat, k: nat)
    requires j <= k
    ensures Pow2(j) <= Pow2(k)
  {
    if j < k {
      PowMonotone(j, k - 1);
    }
  }

  lemma {:induction false} WordInjective(u: seq<Byte>, v: seq<Byte>)
    requires |u| == |v| && Word(u) == Word(v)
    ensures u == v
  {
    if u != [] {
      WordInjective(u[1..], v[1..]);
      assert u == [u[0]] + u[1..] && v == [v[0]] + v[1..];
    }
  }

  lemma WordIsWord32(u: seq<Byte>)
    requires |u| <= 4
    ensures Word(u) < 0x1_0000_0000
  {
    WordWidth();
    PowMonotone(8 * |u|, 32);
  }

  lemma RegisterOfByte(c: Word32, l: Byte)
    ensures Register(c, [l]) == Steps(Xor(c, l), 8)
  {
    hide Steps, XorDigits;
    assert [l][..0] == [];
  }

  /** Of a word mixed in, eight steps shift the lowest byte out and leave the rest mixed in. */
  lemma ByteOfWord(c: Word32, l: Byte, w: nat)
    requires l + 256 * w < 0x1_0000_0000
    ensures w < 0x1_0000_0000 && Steps(Xor(c, l + 256 * w), 8) == Xor(Steps(Xor(c, l), 8), w)
  {
    hide Steps, XorDigits;
    WordWidth();
    XorDisjoint(l, w, 8);
    XorAssoc(c, l, 256 * w);
    StepsLinear(Xor(c, l), 256 * w, 8);
    StepsShift(w, 8);
  }

  /** Feeding up to four bytes is running the register over one word. */
  lemma {:induction false} RegisterOfWord(c: Word32, u: seq<Byte>)
    requires |u| <= 4
    ensures Word(u) < 0x1_0000_0000
    ensures Register(c, u) == Steps(Xor(c, Word(u)), 8 * |u|)
    decreases u
  {
    hide XorDigits;
    WordIsWord32(u);
    if u == [] {
      XorZero(c);
    } else {
      var l, w := u[0], Word(u[1..]);
      var c8 := Steps(Xor(c, l), 8);
      assert [u[0]] + u[1..] == u;
      RegisterConcat(c, [l], u[1..]);
      RegisterOfByte(c, l);
      RegisterOfWord(c8, u[1..]);
      ByteOfWord(c, l, w);
      StepsAdd(Xor(c, Word(u)), 8, 8 * |u[1..]|);
    }
  }

  /** A change confined to four consecutive bytes always changes the register. */
  lemma BurstDetected(c: Word32, pre: seq<Byte>, u: seq<Byte>, v: seq<Byte>, post: seq<Byte>)
    requires |u| == |v| <= 4 && u != v
    ensures Register(c, pre + u + post) != Register(c, pre + v + post)
  {
    if Register(c, pre + u + post) == Register(c, pre + v + post) {
      var at := Register(c, pre);
      RegisterConcat(c, pre, u);
      RegisterConcat(c, pre, v);
      RegisterConcat(c, pre + u, post);
      RegisterConcat(c, pre + v, post);
      RegisterInjective(Register(at, u), Register(at, v), post);
      RegisterOfWord(at, u);
      RegisterOfWord(at, v);
      StepsInjective(Xor(at, Word(u)), Xor(at, Word(v)), 8 * |u|);
      XorCancels(Word(u), Word(v), at);
      WordInjective(u, v);
      assert false;
    }
  }
}
