/**
 The record format of the operation log (include/oplog.h): how Append lays a
 record out as bytes, and the checks Scan makes before it accepts bytes as a
 record. Encoding and parsing are inverse to each other, torn records are always
 rejected, and so is a record with up to four consecutive bytes changed.
 */
module OpLogFormat {
  import opened Basics
  import opened Crc32

  const PREFIX_BYTES: nat := 8
  const FIXED_BODY: nat := 46
  const MAX_BODY_BYTES: nat := 0x400_0000

  type U64 = x: int | 0 <= x < 0x1_0000_0000_0000_0000

  datatype OpRecord = OpRecord(
    lsn: U64,
    op: Byte,
    encoding: Byte,
    realId: U64,
    internalId: U64,
    aux: U64,
    record: seq<Byte>,
    key: seq<Byte>,
    payload: seq<Byte>)

  // ----- Little-endian numbers -----

  function Le(v: nat, k: nat): (s: seq<Byte>)
    ensures |s| == k
  {
    if k == 0 then [] else [v % 256] + Le(v / 256, k - 1)
  }

  lemma {:induction false} WordOfLe(v: nat, k: nat)
    requires v < Pow2(8 * k)
    ensures Word(Le(v, k)) == v
  {
    if k > 0 {
      ByteMore(k);
      WordOfLe(v / 256, k - 1);
      assert Le(v, k)[1..] == Le(v / 256, k - 1);
    }
  }

  lemma ByteMore(k: nat)
    requires k > 0
    ensures Pow2(8 * k) == 256 * Pow2(8 * (k - 1))
  {
    assert 8 * k == 8 + 8 * (k - 1);
    PowAdd(8, 8 * (k - 1));
    WordWidth();
  }

  lemma {:induction false} LeOfWord(u: seq<Byte>)
    ensures Le(Word(u), |u|) == u
  {
    if u != [] {
      LeOfWord(u[1..]);
      assert Word(u) % 256 == u[0] && Word(u) / 256 == Word(u[1..]);
      assert u == [u[0]] + u[1..];
    }
  }

  lemma Widths()
    ensures Pow2(8 * 4) == 0x1_0000_0000
    ensures Pow2(8 * 8) == 0x1_0000_0000_0000_0000
  {
    WordWidth();
    PowAdd(32, 32);
  }

  // ----- Layout -----

  function Blob(x: seq<Byte>): seq<Byte> {
    Le(|x|, 4) + x
  }

  function Fixed(r: OpRecord): (s: seq<Byte>)
    ensures |s| == 26
  {
    [r.op, r.encoding] + Le(r.realId, 8) + Le(r.internalId, 8) + Le(r.aux, 8)
  }

  /** The body without its lsn: what Append checksums outside the lock. */
  function AfterLsn(r: OpRecord): (s: seq<Byte>)
    ensures |s| == FIXED_BODY - 8 + |r.record| + |r.key| + |r.payload|
  {
    Fixed(r) + (Blob(r.record) + (Blob(r.key) + Blob(r.payload)))
  }

  function Body(r: OpRecord): (s: seq<Byte>)
    ensures |s| == BodySize(r)
  {
    Le(r.lsn, 8) + AfterLsn(r)
  }

  function BodySize(r: OpRecord): nat {
    FIXED_BODY + |r.record| + |r.key| + |r.payload|
  }

  predicate Fits(r: OpRecord) {
    BodySize(r) <= MAX_BODY_BYTES
  }

  /** What Scan compares with the stored checksum: one register fed the first eight bytes of the body last. */
  function BodyCrc(body: seq<Byte>): Word32
    requires |body| >= 8
  {
    Finish(Register(Register(INIT, body[8..]), body[..8]))
  }

  function Frame(r: OpRecord): (s: seq<Byte>)
    ensures |s| == PREFIX_BYTES + BodySize(r)
  {
    Le(BodySize(r), 4) + Le(BodyCrc(Body(r)), 4) + Body(r)
  }

  /** Little-endian: the lowest byte first. */
  lemma {:induction false} LeBytes(v: nat, k: nat, i: nat)
    requires i < k
    ensures Le(v, k)[i] == v / Pow2(8 * i) % 256
  {
    if i > 0 {
      LeBytes(v / 256, k - 1, i - 1);
      ByteMore(i);
      DivTwice(v, 256, Pow2(8 * (i - 1)));
    }
  }

  /** A field with its length in front, inside `s` from byte `at` on. */
  ghost predicate BlobAt(s: seq<Byte>, at: nat, x: seq<Byte>) {
    at + 4 + |x| <= |s| && s[at..at + 4] == Le(|x|, 4) && s[at + 4..at + 4 + |x|] == x
  }

  lemma BlobInside(s: seq<Byte>, at: nat, x: seq<Byte>, tail: seq<Byte>)
    requires at <= |s| && s[at..] == Blob(x) + tail
    ensures BlobAt(s, at, x) && s[at + 4 + |x|..] == tail
  {
    hide Le;
    var rest := s[at..];
    assert rest[..4] == Le(|x|, 4) && rest[4..4 + |x|] == x && rest[4 + |x|..] == tail;
  }

  lemma FixedLayout(r: OpRecord, s: seq<Byte>, tail: seq<Byte>)
    requires |s| >= 16 && s[16..] == Fixed(r) + tail
    ensures |s| >= 42 && s[16] == r.op && s[17] == r.encoding && s[42..] == tail
    ensures s[18..26] == Le(r.realId, 8) && s[26..34] == Le(r.internalId, 8) && s[34..42] == Le(r.aux, 8)
  {
    hide Le;
    var rest, fixed := s[16..], Fixed(r);
    assert rest[..26] == fixed && rest[26..] == tail;
    assert fixed[2..10] == Le(r.realId, 8) && fixed[10..18] == Le(r.internalId, 8) && fixed[18..26] == Le(r.aux, 8);
    assert s[18..26] == rest[..26][2..10] && s[26..34] == rest[..26][10..18] && s[34..42] == rest[..26][18..26];
    assert s[16] == rest[..26][0] && s[17] == rest[..26][1];
  }

  /** Where everything is in a frame: length, checksum, lsn, operation, encoding, the three ids, then the three fields. */
  lemma FrameLayout(r: OpRecord)
    ensures var f := Frame(r);
            && |f| == 54 + |r.record| + |r.key| + |r.payload|
            && f[..4] == Le(|f| - 8, 4) && f[4..8] == Le(BodyCrc(f[8..]), 4) && f[8..16] == Le(r.lsn, 8)
            && f[16] == r.op && f[17] == r.encoding
            && f[18..26] == Le(r.realId, 8) && f[26..34] == Le(r.internalId, 8) && f[34..42] == Le(r.aux, 8)
            && BlobAt(f, 42, r.record) && BlobAt(f, 46 + |r.record|, r.key) && BlobAt(f, 50 + |r.record| + |r.key|, r.payload)
  {
    hide Le, BodyCrc, Fixed, Blob, BlobAt;
    var f := Frame(r);
    var record, key, doc := Blob(r.record), Blob(r.key), Blob(r.payload);
    assert f[8..] == Body(r);
    assert f[16..] == f[8..][8..] == Fixed(r) + (record + (key + doc));
    FixedLayout(r, f, record + (key + doc));
    BlobInside(f, 42, r.record, key + doc);
    BlobInside(f, 46 + |r.record|, r.key, doc);
    assert doc + [] == doc;
    BlobInside(f, 50 + |r.record| + |r.key|, r.payload, []);
  }

  function Frames(rs: seq<OpRecord>): seq<Byte> {
    if rs == [] then [] else Frame(rs[0]) + Frames(rs[1..])
  }

  // ----- Parsing -----

  /** Reads a length-prefixed field that must leave at least `reserve` bytes behind it. */
  function TakeBlob(s: seq<Byte>, reserve: nat): Option<(seq<Byte>, seq<Byte>)>
    requires |s| >= 4 + reserve
  {
    var n := Word(s[..4]);
    if n > |s| - 4 - reserve then None else Some((s[4..4 + n], s[4 + n..]))
  }

  /** The eight-byte number standing at `i`. */
  function WordAt(s: seq<Byte>, i: nat): U64
    requires i + 8 <= |s|
  {
    Widths();
    Word(s[i..i + 8])
  }

  function ParseBody(body: seq<Byte>): Option<OpRecord>
    requires |body| >= FIXED_BODY
  {
    var b1 := TakeBlob(body[34..], 8);
    if b1.None? then None
    else
      var b2 := TakeBlob(b1.value.1, 4);
      if b2.None? then None
      else
        var b3 := TakeBlob(b2.value.1, 0);
        if b3.None? || b3.value.1 != [] then None
        else Some(OpRecord(WordAt(body, 0), body[8], body[9], WordAt(body, 10), WordAt(body, 18), WordAt(body, 26),
                           b1.value.0, b2.value.0, b3.value.0))
  }

  /** The body at the head of `s`, if its length is plausible and its checksum holds. */
  function ParsePrefix(s: seq<Byte>): (res: Option<seq<Byte>>)
    ensures res.Some? ==> FIXED_BODY <= |res.value| <= MAX_BODY_BYTES && PREFIX_BYTES + |res.value| <= |s|
  {
    if |s| < PREFIX_BYTES then None
    else
      var len := Word(s[..4]);
      if len < FIXED_BODY || len > MAX_BODY_BYTES || |s| - PREFIX_BYTES < len then None
      else
        var body := s[8..8 + len];
        if BodyCrc(body) != Word(s[4..8]) then None else Some(body)
  }

  /** The record at the head of `s`, and the number of bytes it takes. */
  function Parse(s: seq<Byte>): (res: Option<(OpRecord, nat)>)
    ensures res.Some? ==> 0 < res.value.1 <= |s|
  {
    var body := ParsePrefix(s);
    if body.None? then None
    else
      var r := ParseBody(body.value);
      if r.None? then None else Some((r.value, PREFIX_BYTES + |body.value|))
  }

  // ----- Round trips -----

  lemma TakeBlobOfBlob(x: seq<Byte>, rest: seq<Byte>, reserve: nat)
    requires |x| < 0x1_0000_0000 && |rest| >= reserve
    ensures TakeBlob(Blob(x) + rest, reserve) == Some((x, rest))
  {
    Widths();
    WordOfLe(|x|, 4);
    var s := Blob(x) + rest;
    assert s[..4] == Le(|x|, 4);
    assert s[4..4 + |x|] == x && s[4 + |x|..] == rest;
  }

  lemma BlobOfTakeBlob(s: seq<Byte>, reserve: nat)
    requires |s| >= 4 + reserve && TakeBlob(s, reserve).Some?
    ensures var (x, rest) := TakeBlob(s, reserve).value;
            s == Blob(x) + rest && |rest| >= reserve
  {
    LeOfWord(s[..4]);
    var n := Word(s[..4]);
    assert s == s[..4] + (s[4..4 + n] + s[4 + n..]);
  }

  lemma FixedFields(r: OpRecord, tail: seq<Byte>)
    ensures var b := Le(r.lsn, 8) + (Fixed(r) + tail);
            && b[..8] == Le(r.lsn, 8) && b[8] == r.op && b[9] == r.encoding
            && b[10..18] == Le(r.realId, 8) && b[18..26] == Le(r.internalId, 8)
            && b[26..34] == Le(r.aux, 8) && b[34..] == tail
  {}

  lemma ParseBodyOfBody(r: OpRecord)
    requires Fits(r)
    ensures ParseBody(Body(r)) == Some(r)
  {
    FixedFields(r, Blob(r.record) + (Blob(r.key) + Blob(r.payload)));
    Widths();
    WordOfLe(r.lsn, 8);
    WordOfLe(r.realId, 8);
    WordOfLe(r.internalId, 8);
    WordOfLe(r.aux, 8);
    TakeBlobOfBlob(r.record, Blob(r.key) + Blob(r.payload), 8);
    TakeBlobOfBlob(r.key, Blob(r.payload), 4);
    assert Blob(r.payload) + [] == Blob(r.payload);
    TakeBlobOfBlob(r.payload, [], 0);
  }

  lemma SplitHeader(h: seq<Byte>)
    requires |h| == 34
    ensures h == h[..8] + ([h[8], h[9]] + h[10..18] + h[18..26] + h[26..34])
  {
    var t := h[8..];
    assert t == [h[8], h[9]] + h[10..18] + h[18..26] + h[26..34] by {
      assert h[10..] == h[10..18] + (h[18..26] + h[26..34]);
      assert t == [h[8], h[9]] + h[10..];
    }
  }

  lemma HeaderOfBytes(h: seq<Byte>)
    requires |h| == 34
    ensures Le(Word(h[..8]), 8) == h[..8] && Le(Word(h[10..18]), 8) == h[10..18]
    ensures Le(Word(h[18..26]), 8) == h[18..26] && Le(Word(h[26..34]), 8) == h[26..34]
  {
    LeOfWord(h[..8]);
    LeOfWord(h[10..18]);
    LeOfWord(h[18..26]);
    LeOfWord(h[26..34]);
  }

  lemma BlobsOfBytes(s: seq<Byte>)
    requires |s| >= 12
    requires TakeBlob(s, 8).Some?
    requires TakeBlob(TakeBlob(s, 8).value.1, 4).Some?
    requires TakeBlob(TakeBlob(TakeBlob(s, 8).value.1, 4).value.1, 0).Some?
    ensures var (x, s1) := TakeBlob(s, 8).value;
            var (y, s2) := TakeBlob(s1, 4).value;
            var (z, s3) := TakeBlob(s2, 0).value;
            s3 == [] ==> s == Blob(x) + (Blob(y) + Blob(z))
  {
    BlobOfTakeBlob(s, 8);
    var s1 := TakeBlob(s, 8).value.1;
    BlobOfTakeBlob(s1, 4);
    var s2 := TakeBlob(s1, 4).value.1;
    BlobOfTakeBlob(s2, 0);
    var (z, s3) := TakeBlob(s2, 0).value;
    assert Blob(z) + [] == Blob(z);
  }

  lemma BodyOfParseBody(body: seq<Byte>)
    requires |body| >= FIXED_BODY && ParseBody(body).Some?
    ensures Body(ParseBody(body).value) == body
  {
    var h, t := body[..34], body[34..];
    BlobsOfBytes(t);
    HeaderOfBytes(h);
    SplitHeader(h);
    SameHeader(body);
    var r := ParseBody(body).value;
    assert h == Le(r.lsn, 8) + Fixed(r);
    assert t == Blob(r.record) + (Blob(r.key) + Blob(r.payload));
    Regroup(Le(r.lsn, 8), Fixed(r), t);
    assert body == h + t;
  }

  lemma SameHeader(body: seq<Byte>)
    requires |body| >= FIXED_BODY
    ensures var h := body[..34];
            && h[..8] == body[..8] && h[8] == body[8] && h[9] == body[9]
            && h[10..18] == body[10..18] && h[18..26] == body[18..26] && h[26..34] == body[26..34]
  {}

  lemma Regroup(a: seq<Byte>, b: seq<Byte>, c: seq<Byte>)
    ensures a + (b + c) == a + b + c
  {}

  lemma Slices(a: seq<Byte>, b: seq<Byte>, body: seq<Byte>, rest: seq<Byte>)
    requires |a| == |b| == 4
    ensures var s := a + b + body + rest;
            s[..4] == a && s[4..8] == b && s[8..8 + |body|] == body && s[8 + |body|..] == rest
  {}

  lemma PrefixOfParts(len: nat, crc: seq<Byte>, body: seq<Byte>, rest: seq<Byte>)
    requires len == |body| && |crc| == 4 && FIXED_BODY <= len <= MAX_BODY_BYTES
    ensures ParsePrefix(Le(len, 4) + crc + body + rest)
            == if BodyCrc(body) != Word(crc) then None else Some(body)
  {
    Widths();
    WordOfLe(len, 4);
    Slices(Le(len, 4), crc, body, rest);
  }

  lemma PartsOfPrefix(s: seq<Byte>)
    requires ParsePrefix(s).Some?
    ensures var body := ParsePrefix(s).value;
            s == Le(|body|, 4) + Le(BodyCrc(body), 4) + body + s[8 + |body|..]
  {
    hide BodyCrc, Le, Word;
    LeOfWord(s[..4]);
    LeOfWord(s[4..8]);
    Pieces(s, 8 + Word(s[..4]));
  }

  lemma Pieces(s: seq<Byte>, n: nat)
    requires 8 <= n <= |s|
    ensures s == s[..4] + s[4..8] + s[8..n] + s[n..]
  {}

  /** What Append writes, Scan reads back field for field, whatever follows it. */
  lemma ParseOfFrame(r: OpRecord, rest: seq<Byte>)
    requires Fits(r)
    ensures Parse(Frame(r) + rest) == Some((r, |Frame(r)|))
  {
    hide ParsePrefix, ParseBody, Frame, Body;
    FramePrefix(r, rest);
    ParseBodyOfBody(r);
  }

  lemma FramePrefix(r: OpRecord, rest: seq<Byte>)
    requires Fits(r)
    ensures ParsePrefix(Frame(r) + rest) == Some(Body(r))
  {
    var body := Body(r);
    var crc := BodyCrc(body);
    Widths();
    WordOfLe(crc, 4);
    PrefixOfParts(|body|, Le(crc, 4), body, rest);
  }

  /** Scan accepts nothing but encodings: the bytes it takes are the record's frame. */
  lemma FrameOfParse(s: seq<Byte>)
    ensures Parse(s).Some? ==>
              var (r, n) := Parse(s).value;
              Fits(r) && n == |Frame(r)| && s == Frame(r) + s[n..]
  {
    if Parse(s).Some? {
      PartsOfPrefix(s);
      BodyOfParseBody(ParsePrefix(s).value);
    }
  }

  /** What is left of a cut parses iff the first record lies wholly in front of it, and then to that record. */
  lemma ParseOfCut(s: seq<Byte>, c: nat)
    requires c <= |s|
    ensures Parse(s[..c]).Some? <==> Parse(s).Some? && Parse(s).value.1 <= c
    ensures Parse(s[..c]).Some? ==> Parse(s) == Parse(s[..c])
  {
    hide Frame, Parse, Fits;
    if Parse(s[..c]).Some? {
      var (r, n) := Parse(s[..c]).value;
      FrameOfParse(s[..c]);
      CutTail(s, c, Frame(r));
      ParseOfFrame(r, s[n..]);
    } else if Parse(s).Some? && Parse(s).value.1 <= c {
      var (r, n) := Parse(s).value;
      FrameOfParse(s);
      assert s[..c] == Frame(r) + s[n..c];
      ParseOfFrame(r, s[n..c]);
    }
  }

  lemma CutTail(s: seq<Byte>, c: nat, f: seq<Byte>)
    requires |f| <= c <= |s| && s[..c] == f + s[..c][|f|..]
    ensures s == f + s[|f|..]
  {
    assert forall i :: 0 <= i < |f| ==> s[i] == s[..c][i] == f[i];
  }

  /** A torn record is rejected. */
  lemma TornFrameRejected(r: OpRecord, c: nat)
    requires Fits(r) && c < PREFIX_BYTES + BodySize(r)
    ensures Parse(Frame(r)[..c]) == None
  {
    hide Frame, Parse;
    ParseOfFrame(r, []);
    assert Frame(r) + [] == Frame(r);
    if Parse(Frame(r)[..c]).Some? {
      ParseOfCut(Frame(r), c);
    }
  }

  // ----- Damage -----

  lemma FinishInjective(a: Word32, b: Word32)
    requires Finish(a) == Finish(b)
    ensures a == b
  {
    XorComm(a, 0xFFFF_FFFF);
    XorComm(b, 0xFFFF_FFFF);
    XorCancels(a, b, 0xFFFF_FFFF);
  }

  /** Up to four consecutive changed bytes on one side of the lsn boundary change the checksum. */
  lemma BodyBurstDetected(pre: seq<Byte>, u: seq<Byte>, v: seq<Byte>, post: seq<Byte>)
    requires |u| == |v| <= 4 && u != v
    requires |pre| + |u| <= 8 <= |pre| + |u| + |post| || |pre| >= 8
    ensures BodyCrc(pre + u + post) != BodyCrc(pre + v + post)
  {
    var a, b := pre + u + post, pre + v + post;
    if |pre| >= 8 {
      assert a[8..] == pre[8..] + u + post && b[8..] == pre[8..] + v + post;
      assert a[..8] == b[..8];
      BurstDetected(INIT, pre[8..], u, v, post);
      if BodyCrc(a) == BodyCrc(b) {
        FinishInjective(Register(Register(INIT, a[8..]), a[..8]), Register(Register(INIT, b[8..]), b[..8]));
        RegisterInjective(Register(INIT, a[8..]), Register(INIT, b[8..]), a[..8]);
      }
    } else {
      var cut := post[..8 - |pre| - |u|];
      assert a[..8] == pre + u + cut && b[..8] == pre + v + cut && a[8..] == b[8..];
      BurstDetected(Register(INIT, a[8..]), pre, u, v, cut);
      if BodyCrc(a) == BodyCrc(b) {
        FinishInjective(Register(Register(INIT, a[8..]), a[..8]), Register(Register(INIT, b[8..]), b[..8]));
      }
    }
  }

  /** Damage confined to four consecutive bytes of the body, lsn or rest, is rejected. */
  lemma DamagedBodyRejected(r: OpRecord, pre: seq<Byte>, u: seq<Byte>, v: seq<Byte>, post: seq<Byte>, rest: seq<Byte>)
    requires Fits(r) && Body(r) == pre + u + post
    requires |u| == |v| <= 4 && u != v
    requires |pre| + |u| <= 8 || |pre| >= 8
    ensures Parse(Le(BodySize(r), 4) + Le(BodyCrc(Body(r)), 4) + (pre + v + post) + rest) == None
  {
    Widths();
    WordOfLe(BodyCrc(Body(r)), 4);
    BodyBurstDetected(pre, u, v, post);
    PrefixOfParts(BodySize(r), Le(BodyCrc(Body(r)), 4), pre + v + post, rest);
  }

  /** A record whose crc field was changed in any way is rejected. */
  lemma DamagedCrcRejected(r: OpRecord, crc: seq<Byte>, rest: seq<Byte>)
    requires Fits(r) && |crc| == 4 && crc != Le(BodyCrc(Body(r)), 4)
    ensures Parse(Le(BodySize(r), 4) + crc + Body(r) + rest) == None
  {
    LeOfWord(crc);
    PrefixOfParts(BodySize(r), crc, Body(r), rest);
  }
}
