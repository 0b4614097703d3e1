/** The key-store body format, as a printer and a parser. */
module KeyFormat {
  import opened Outcomes
  import Words

  type Byte = x: int | 0 <= x < 256
  type Word32 = x: int | 0 <= x < 0x1_0000_0000
  type Word64 = x: int | 0 <= x < 0x1_0000_0000_0000_0000
  type Bytes = seq<Byte>

  const MAX_ID := 4096
  const MAX_SECRET := 0x10_0000

  datatype KeyRecord = KeyRecord(keyId: Bytes, purpose: Byte, created: Word64, version: Word32, secret: Bytes) {
    predicate InLimits() {
      |keyId| <= MAX_ID && |secret| <= MAX_SECRET
    }
  }

  // ----------------------------------------------------------------------
  // The format, byte by byte

  /** Four bytes at place `at`, the lowest first. */
  predicate Is32(b: Bytes, at: nat, v: nat) {
    && at + 4 <= |b|
    && b[at] == v % 256 && b[at + 1] == v / 0x100 % 256
    && b[at + 2] == v / 0x1_0000 % 256 && b[at + 3] == v / 0x100_0000 % 256
  }

  /** Eight bytes at place `at`, the lowest first. */
  predicate Is64(b: Bytes, at: nat, v: nat) {
    && at + 8 <= |b|
    && b[at] == v % 256 && b[at + 1] == v / 0x100 % 256
    && b[at + 2] == v / 0x1_0000 % 256 && b[at + 3] == v / 0x100_0000 % 256
    && b[at + 4] == v / 0x1_0000_0000 % 256 && b[at + 5] == v / 0x100_0000_0000 % 256
    && b[at + 6] == v / 0x1_0000_0000_0000 % 256 && b[at + 7] == v / 0x100_0000_0000_0000 % 256
  }

  predicate IsBytes(b: Bytes, at: nat, s: Bytes) {
    at + |s| <= |b| && b[at..at + |s|] == s
  }

  /** Id length, id, purpose, creation time, version, secret length, secret. */
  predicate IsRecord(b: Bytes, at: nat, r: KeyRecord) {
    var m := at + 4 + |r.keyId|;
    && Is32(b, at, |r.keyId|) && IsBytes(b, at + 4, r.keyId)
    && IsBytes(b, m, [r.purpose]) && Is64(b, m + 1, r.created) && Is32(b, m + 9, r.version)
    && Is32(b, m + 13, |r.secret|) && IsBytes(b, m + 17, r.secret)
  }

  /** Where record k starts, when the first one starts at `at`. */
  function StartOf(at: nat, recs: seq<KeyRecord>, k: nat): nat
    requires k <= |recs|
  {
    if k == 0 then at else StartOf(at, recs, k - 1) + 21 + |recs[k - 1].keyId| + |recs[k - 1].secret|
  }

  ghost predicate AreRecords(b: Bytes, at: nat, recs: seq<KeyRecord>) {
    && |b| == StartOf(at, recs, |recs|)
    && forall k :: 0 <= k < |recs| ==> IsRecord(b, StartOf(at, recs, k), recs[k])
  }

  /** The count in 32 bits, then the records and nothing else. */
  ghost predicate IsBody(b: Bytes, recs: seq<KeyRecord>) {
    Is32(b, 0, |recs| % 0x1_0000_0000) && AreRecords(b, 4, recs)
  }

  // ----------------------------------------------------------------------
  // Little-endian words

  function Little(v: nat, k: nat): (b: Bytes)
    ensures |b| == k
  {
    if k == 0 then [] else [v % 256] + Little(v / 256, k - 1)
  }

  function ReadLittle(b: Bytes): nat {
    if b == [] then 0 else b[0] + 256 * ReadLittle(b[1..])
  }

  function Pow256(k: nat): (p: nat)
    ensures p > 0
  {
    if k == 0 then 1 else 256 * Pow256(k - 1)
  }

  lemma {:induction false} ReadsBack(v: nat, k: nat)
    requires v < Pow256(k)
    ensures ReadLittle(Little(v, k)) == v
  {
    if k > 0 {
      ReadsBack(v / 256, k - 1);
      assert Little(v, k)[1..] == Little(v / 256, k - 1);
    }
  }

  lemma {:induction false} WritesBack(b: Bytes)
    ensures Little(ReadLittle(b), |b|) == b && ReadLittle(b) < Pow256(|b|)
  {
    hide Little, ReadLittle, Pow256;
    LittleUnfolds(b);
    if b != [] {
      var rest := ReadLittle(b[1..]);
      WritesBack(b[1..]);
      SplitByte(b[0], rest);
      WordUnfolds(b[0] + 256 * rest, |b|);
      assert b == [b[0]] + b[1..];
    } else {
      WordUnfolds(0, 0);
    }
  }

  lemma SplitByte(d: Byte, rest: nat)
    ensures (d + 256 * rest) % 256 == d && (d + 256 * rest) / 256 == rest
  {
  }

  lemma LittleUnfolds(b: Bytes)
    ensures ReadLittle(b) == if b == [] then 0 else b[0] + 256 * ReadLittle(b[1..])
  {
  }

  lemma WordUnfolds(v: nat, k: nat)
    ensures Little(v, k) == if k == 0 then [] else [v % 256] + Little(v / 256, k - 1)
    ensures Pow256(k) == if k == 0 then 1 else 256 * Pow256(k - 1)
  {
  }

  lemma Sizes()
    ensures Pow256(4) == 0x1_0000_0000 && Pow256(8) == 0x1_0000_0000_0000_0000
  {
    assert Pow256(2) == 0x1_0000;
    assert Pow256(4) == 0x1_0000_0000;
    assert Pow256(6) == 0x1_0000_0000_0000;
  }

  function U32(v: Word32): (b: Bytes)
    ensures |b| == 4
  {
    Little(v, 4)
  }

  function U64(v: Word64): (b: Bytes)
    ensures |b| == 8
  {
    Little(v, 8)
  }

  function ReadU32(b: Bytes): (v: Word32)
    requires |b| >= 4
  {
    WritesBack(b[..4]);
    Sizes();
    ReadLittle(b[..4])
  }

  function ReadU64(b: Bytes): (v: Word64)
    requires |b| >= 8
  {
    WritesBack(b[..8]);
    Sizes();
    ReadLittle(b[..8])
  }

  lemma WordsRoundTrip(v: Word32, w: Word64, tail: Bytes)
    ensures ReadU32(U32(v) + tail) == v && (U32(v) + tail)[4..] == tail
    ensures ReadU64(U64(w) + tail) == w && (U64(w) + tail)[8..] == tail
  {
    Sizes();
    ReadsBack(v, 4);
    ReadsBack(w, 8);
    assert (U32(v) + tail)[..4] == U32(v) && (U64(w) + tail)[..8] == U64(w);
  }

  lemma Word32WritesBack(b: Bytes)
    requires |b| >= 4
    ensures U32(ReadU32(b)) + b[4..] == b
  {
    WritesBack(b[..4]);
  }

  lemma Word64WritesBack(b: Bytes)
    requires |b| >= 8
    ensures U64(ReadU64(b)) + b[8..] == b
  {
    WritesBack(b[..8]);
  }

  // ----------------------------------------------------------------------
  // The printer

  /** The fixed-size fields, then the secret. */
  function EncodeMeta(r: KeyRecord, tail: Bytes): Bytes
    requires r.InLimits()
  {
    [r.purpose] + (U64(r.created) + (U32(r.version) + (U32(|r.secret|) + (r.secret + tail))))
  }

  /** The bytes of a record in front of `tail`. */
  function EncodeRecord(r: KeyRecord, tail: Bytes): Bytes
    requires r.InLimits()
  {
    U32(|r.keyId|) + (r.keyId + EncodeMeta(r, tail))
  }

  predicate AllInLimits(recs: seq<KeyRecord>) {
    forall i :: 0 <= i < |recs| ==> recs[i].InLimits()
  }

  function EncodeRecords(recs: seq<KeyRecord>): Bytes
    requires AllInLimits(recs)
  {
    if recs == [] then [] else EncodeRecord(recs[0], EncodeRecords(recs[1..]))
  }

  /** The count is truncated to 32 bits. */
  function Body(recs: seq<KeyRecord>): Bytes
    requires AllInLimits(recs)
  {
    U32(|recs| % 0x1_0000_0000) + EncodeRecords(recs)
  }

  lemma EncodeAppends(r: KeyRecord, tail: Bytes)
    requires r.InLimits()
    ensures EncodeRecord(r, tail) == EncodeRecord(r, []) + tail
  {
    hide U32, U64;
    var a, b, c := U64(r.created), U32(r.version), U32(|r.secret|);
    assert EncodeMeta(r, []) + tail == EncodeMeta(r, tail);
  }

  // ----------------------------------------------------------------------
  // The printer writes the format

  lemma Quotients(v: nat)
    ensures v / 256 / 256 == v / 0x1_0000 && v / 0x1_0000 / 256 == v / 0x100_0000
    ensures v / 0x100_0000 / 256 == v / 0x1_0000_0000 && v / 0x1_0000_0000 / 256 == v / 0x100_0000_0000
    ensures v / 0x100_0000_0000 / 256 == v / 0x1_0000_0000_0000
    ensures v / 0x1_0000_0000_0000 / 256 == v / 0x100_0000_0000_0000
  {
  }

  lemma LittleAt(v: nat, k: nat, i: nat)
    requires 0 < k && i < k
    ensures Little(v, k)[i] == if i == 0 then v % 256 else Little(v / 256, k - 1)[i - 1]
  {
  }

  lemma {:induction false} LittleHigh(v: nat, j: nat, k: nat)
    ensures Little(v, j + k)[..j] == Little(v, j) && Little(v, j + k)[j..] == Little(v / Pow256(j), k)
  {
    if j > 0 {
      LittleHigh(v / 256, j - 1, k);
      QuotientOfQuotient(v, Pow256(j - 1));
    }
  }

  lemma QuotientOfQuotient(v: nat, p: nat)
    requires p > 0
    ensures v / 256 / p == v / (256 * p)
  {
    var q, r := v / 256, v % 256;
    var a, c := q / p, q % p;
    assert v == 256 * q + r && q == p * a + c;
    assert v == (256 * p) * a + (256 * c + r);
    Words.DivModUnique(v, 256 * p, a, 256 * c + r);
  }

  lemma LowFour(v: nat)
    ensures Is32(Little(v, 4), 0, v)
  {
    hide Little;
    Quotients(v);
    LittleAt(v, 4, 0);
    LittleAt(v, 4, 1);
    LittleAt(v, 4, 2);
    LittleAt(v, 4, 3);
    LittleAt(v / 256, 3, 0);
    LittleAt(v / 256, 3, 1);
    LittleAt(v / 256, 3, 2);
    LittleAt(v / 256 / 256, 2, 0);
    LittleAt(v / 256 / 256, 2, 1);
    LittleAt(v / 256 / 256 / 256, 1, 0);
  }

  lemma Word32At(v: Word32)
    ensures Is32(U32(v), 0, v)
  {
    LowFour(v);
  }

  lemma Word64At(w: Word64)
    ensures Is64(U64(w), 0, w)
  {
    hide Little;
    Sizes();
    LittleHigh(w, 4, 4);
    var high := w / 0x1_0000_0000;
    assert U64(w)[..4] == Little(w, 4) && U64(w)[4..] == Little(high, 4);
    LowFour(w);
    LowFour(high);
    Quotients(w);
    QuotientOfWord(w);
    assert forall i :: 0 <= i < 4 ==> U64(w)[i] == Little(w, 4)[i] && U64(w)[4 + i] == Little(high, 4)[i];
  }

  lemma QuotientOfWord(w: nat)
    ensures var h := w / 0x1_0000_0000;
            && h / 0x100 == w / 0x100_0000_0000 && h / 0x1_0000 == w / 0x1_0000_0000_0000
            && h / 0x100_0000 == w / 0x100_0000_0000_0000
  {
  }

  /** What is at a place stays there behind a prefix and before more bytes. */
  lemma Placed(pre: Bytes, b: Bytes, post: Bytes, at: nat, v: nat, s: Bytes)
    ensures Is32(b, at, v) ==> Is32(pre + b + post, |pre| + at, v)
    ensures Is64(b, at, v) ==> Is64(pre + b + post, |pre| + at, v)
    ensures IsBytes(b, at, s) ==> IsBytes(pre + b + post, |pre| + at, s)
  {
    var c := pre + b + post;
    assert forall i :: 0 <= i < |b| ==> c[|pre| + i] == b[i];
    if IsBytes(b, at, s) {
      assert c[|pre| + at..|pre| + at + |s|] == b[at..at + |s|];
    }
  }

  lemma RecordPlaced(pre: Bytes, b: Bytes, post: Bytes, at: nat, r: KeyRecord)
    requires IsRecord(b, at, r)
    ensures IsRecord(pre + b + post, |pre| + at, r)
  {
    hide Is32, Is64, IsBytes;
    var m := at + 4 + |r.keyId|;
    Placed(pre, b, post, at, |r.keyId|, []);
    Placed(pre, b, post, at + 4, 0, r.keyId);
    Placed(pre, b, post, m, 0, [r.purpose]);
    Placed(pre, b, post, m + 1, r.created, []);
    Placed(pre, b, post, m + 9, r.version, []);
    Placed(pre, b, post, m + 13, |r.secret|, []);
    Placed(pre, b, post, m + 17, 0, r.secret);
  }

  lemma Behind(pre: Bytes, b: Bytes, at: nat, v: nat, s: Bytes)
    ensures Is32(b, at, v) ==> Is32(pre + b, |pre| + at, v)
    ensures Is64(b, at, v) ==> Is64(pre + b, |pre| + at, v)
    ensures IsBytes(b, at, s) ==> IsBytes(pre + b, |pre| + at, s)
  {
    hide Is32, Is64, IsBytes;
    Placed(pre, b, [], at, v, s);
    assert pre + b + [] == pre + b;
  }

  lemma InFront(b: Bytes, tail: Bytes, v: nat)
    ensures Is32(b, 0, v) ==> Is32(b + tail, 0, v)
    ensures Is64(b, 0, v) ==> Is64(b + tail, 0, v)
    ensures IsBytes(b + tail, 0, b)
  {
    assert (b + tail)[0..|b|] == b;
  }

  /** The secret's length, and the secret. */
  predicate IsSecret(b: Bytes, at: nat, r: KeyRecord) {
    Is32(b, at, |r.secret|) && IsBytes(b, at + 4, r.secret)
  }

  /** What follows the id. */
  predicate IsMeta(b: Bytes, at: nat, r: KeyRecord) {
    IsBytes(b, at, [r.purpose]) && Is64(b, at + 1, r.created) && Is32(b, at + 9, r.version) && IsSecret(b, at + 13, r)
  }

  lemma SecretBehind(pre: Bytes, b: Bytes, at: nat, r: KeyRecord)
    requires IsSecret(b, at, r)
    ensures IsSecret(pre + b, |pre| + at, r)
  {
    hide Is32, IsBytes;
    Behind(pre, b, at, |r.secret|, []);
    Behind(pre, b, at + 4, 0, r.secret);
  }

  lemma SecretIsLaidOut(r: KeyRecord, tail: Bytes)
    requires r.InLimits()
    ensures IsSecret(U32(|r.secret|) + (r.secret + tail), 0, r)
  {
    hide Is32, IsBytes, U32;
    Word32At(|r.secret|);
    InFront(r.secret, tail, 0);
    InFront(U32(|r.secret|), r.secret + tail, |r.secret|);
    Behind(U32(|r.secret|), r.secret + tail, 0, 0, r.secret);
  }

  lemma MetaIsLaidOut(r: KeyRecord, tail: Bytes)
    requires r.InLimits()
    ensures IsMeta(EncodeMeta(r, tail), 0, r)
  {
    hide Is32, Is64, IsBytes, IsSecret, U32, U64;
    var x3 := U32(|r.secret|) + (r.secret + tail);
    var x2 := U32(r.version) + x3;
    var x1 := U64(r.created) + x2;
    var p := [r.purpose];
    SecretIsLaidOut(r, tail);
    Word32At(r.version);
    Word64At(r.created);
    InFront(U32(r.version), x3, r.version);
    InFront(U64(r.created), x2, r.created);
    InFront(p, x1, 0);
    SecretBehind(U32(r.version), x3, 0, r);
    SecretBehind(U64(r.created), x2, 4, r);
    SecretBehind(p, x1, 12, r);
    Behind(U64(r.created), x2, 0, r.version, []);
    Behind(p, x1, 8, r.version, []);
    Behind(p, x1, 0, r.created, []);
  }

  lemma MetaBehind(pre: Bytes, b: Bytes, at: nat, r: KeyRecord)
    requires IsMeta(b, at, r)
    ensures IsMeta(pre + b, |pre| + at, r)
  {
    hide Is32, Is64, IsBytes, IsSecret;
    Behind(pre, b, at, 0, [r.purpose]);
    Behind(pre, b, at + 1, r.created, []);
    Behind(pre, b, at + 9, r.version, []);
    SecretBehind(pre, b, at + 13, r);
  }

  /** A printed record is laid out at its start. */
  lemma RecordIsLaidOut(r: KeyRecord, tail: Bytes)
    requires r.InLimits()
    ensures IsRecord(EncodeRecord(r, tail), 0, r)
  {
    hide Is32, Is64, IsBytes, IsMeta, U32, EncodeMeta;
    var meta := EncodeMeta(r, tail);
    var u := U32(|r.keyId|);
    MetaIsLaidOut(r, tail);
    Word32At(|r.keyId|);
    InFront(r.keyId, meta, 0);
    InFront(u, r.keyId + meta, |r.keyId|);
    Behind(u, r.keyId + meta, 0, 0, r.keyId);
    MetaBehind(r.keyId, meta, 0, r);
    MetaBehind(u, r.keyId + meta, |r.keyId|, r);
    MetaInRecord(EncodeRecord(r, tail), r);
  }

  lemma MetaInRecord(b: Bytes, r: KeyRecord)
    requires Is32(b, 0, |r.keyId|) && IsBytes(b, 4, r.keyId) && IsMeta(b, 4 + |r.keyId|, r)
    ensures IsRecord(b, 0, r)
  {
    hide Is32, Is64, IsBytes;
  }

  lemma RecordLength(r: KeyRecord, tail: Bytes)
    requires r.InLimits()
    ensures |EncodeRecord(r, tail)| == 21 + |r.keyId| + |r.secret| + |tail|
  {
    hide U32, U64;
  }

  lemma {:induction false} StartShifts(at: nat, recs: seq<KeyRecord>, k: nat)
    requires 0 < k <= |recs|
    ensures StartOf(at, recs, k) == StartOf(at + 21 + |recs[0].keyId| + |recs[0].secret|, recs[1..], k - 1)
  {
    if k > 1 {
      StartShifts(at, recs, k - 1);
    }
  }

  lemma {:induction false} RecordsAreLaidOut(pre: Bytes, recs: seq<KeyRecord>)
    requires AllInLimits(recs)
    ensures AreRecords(pre + EncodeRecords(recs), |pre|, recs)
    decreases |recs|
  {
    hide EncodeRecord, IsRecord;
    if recs == [] {
      assert pre + [] == pre;
    } else {
      var r, rest := recs[0], recs[1..];
      var tail := EncodeRecords(rest);
      EncodeAppends(r, tail);
      RecordIsLaidOut(r, []);
      RecordLength(r, []);
      var first := EncodeRecord(r, []);
      var b := pre + EncodeRecords(recs);
      RecordsAreLaidOut(pre + first, rest);
      assert b == (pre + first) + tail;
      RecordPlaced(pre, first, tail, 0, r);
      forall k | 0 <= k < |recs| ensures IsRecord(b, StartOf(|pre|, recs, k), recs[k]) {
        if k > 0 {
          StartShifts(|pre|, recs, k);
          assert recs[k] == rest[k - 1];
        }
      }
      StartShifts(|pre|, recs, |recs|);
    }
  }

  /** Every byte of the body is where the format puts it. */
  lemma BodyIsLaidOut(recs: seq<KeyRecord>)
    requires AllInLimits(recs)
    ensures IsBody(Body(recs), recs)
  {
    hide U32, AreRecords, EncodeRecords;
    var n := |recs| % 0x1_0000_0000;
    Word32At(n);
    RecordsAreLaidOut(U32(n), recs);
    Placed([], U32(n), EncodeRecords(recs), 0, n, []);
    assert [] + U32(n) + EncodeRecords(recs) == Body(recs);
  }

  lemma Same32(b: Bytes, c: Bytes, at: nat, v: nat)
    requires Is32(b, at, v) && Is32(c, at, v)
    ensures at + 4 <= |b| && at + 4 <= |c| && b[at..at + 4] == c[at..at + 4]
  {
  }

  lemma Same64(b: Bytes, c: Bytes, at: nat, v: nat)
    requires Is64(b, at, v) && Is64(c, at, v)
    ensures at + 8 <= |b| && at + 8 <= |c| && b[at..at + 8] == c[at..at + 8]
  {
  }

  lemma JoinedRange(b: Bytes, c: Bytes, s: nat, m: nat, e: nat)
    requires s <= m <= e <= |b| && e <= |c| && b[s..m] == c[s..m] && b[m..e] == c[m..e]
    ensures b[s..e] == c[s..e]
  {
    assert b[s..e] == b[s..m] + b[m..e] && c[s..e] == c[s..m] + c[m..e];
  }

  lemma SameRecord(b: Bytes, c: Bytes, at: nat, r: KeyRecord)
    requires IsRecord(b, at, r) && IsRecord(c, at, r)
    ensures var e := at + 21 + |r.keyId| + |r.secret|; e <= |b| && e <= |c| && b[at..e] == c[at..e]
  {
    hide Is32, Is64;
    var m := at + 4 + |r.keyId|;
    var e := m + 17 + |r.secret|;
    Same32(b, c, at, |r.keyId|);
    JoinedRange(b, c, at, at + 4, m);
    JoinedRange(b, c, at, m, m + 1);
    Same64(b, c, m + 1, r.created);
    JoinedRange(b, c, at, m + 1, m + 9);
    Same32(b, c, m + 9, r.version);
    JoinedRange(b, c, at, m + 9, m + 13);
    Same32(b, c, m + 13, |r.secret|);
    JoinedRange(b, c, at, m + 13, m + 17);
    JoinedRange(b, c, at, m + 17, e);
  }

  lemma StartStep(at: nat, recs: seq<KeyRecord>, k: nat)
    requires k <= |recs|
    ensures StartOf(at, recs, 0) == at
    ensures k > 0 ==> StartOf(at, recs, k) == StartOf(at, recs, k - 1) + 21 + |recs[k - 1].keyId| + |recs[k - 1].secret|
  {
  }

  lemma RecordAt(b: Bytes, at: nat, recs: seq<KeyRecord>, k: nat)
    requires AreRecords(b, at, recs) && k < |recs|
    ensures IsRecord(b, StartOf(at, recs, k), recs[k])
  {
    hide StartOf, IsRecord;
  }

  lemma {:induction false} SameRecords(b: Bytes, c: Bytes, at: nat, recs: seq<KeyRecord>, k: nat)
    requires AreRecords(b, at, recs) && AreRecords(c, at, recs) && k <= |recs|
    requires at <= |b| && at <= |c| && b[..at] == c[..at]
    ensures var e := StartOf(at, recs, k); e <= |b| && e <= |c| && b[..e] == c[..e]
    decreases k
  {
    hide IsRecord, AreRecords, StartOf;
    StartStep(at, recs, k);
    if k > 0 {
      SameRecords(b, c, at, recs, k - 1);
      var s, e := StartOf(at, recs, k - 1), StartOf(at, recs, k);
      RecordAt(b, at, recs, k - 1);
      RecordAt(c, at, recs, k - 1);
      SameRecord(b, c, s, recs[k - 1]);
      JoinedPrefix(b, c, s, e);
    }
  }

  lemma JoinedPrefix(b: Bytes, c: Bytes, s: nat, e: nat)
    requires s <= e <= |b| && e <= |c| && b[..s] == c[..s] && b[s..e] == c[s..e]
    ensures b[..e] == c[..e]
  {
    assert b[..e] == b[..s] + b[s..e] && c[..e] == c[..s] + c[s..e];
  }

  /** The format leaves no choice: a byte string is laid out as a list says exactly when it is what the list prints to. */
  lemma LayoutIsBody(recs: seq<KeyRecord>, b: Bytes)
    requires AllInLimits(recs)
    ensures IsBody(b, recs) <==> b == Body(recs)
  {
    hide AreRecords, Body;
    BodyIsLaidOut(recs);
    if IsBody(b, recs) {
      var c := Body(recs);
      assert b[..4] == c[..4];
      BodyLength(b, recs);
      BodyLength(c, recs);
      SameRecords(b, c, 4, recs, |recs|);
      assert b[..|b|] == b && c[..|c|] == c;
    }
  }

  lemma BodyLength(b: Bytes, recs: seq<KeyRecord>)
    requires AreRecords(b, 4, recs)
    ensures |b| == StartOf(4, recs, |recs|)
  {
  }

  /** Serialisation fails exactly on a record past its limits; otherwise it writes the format. */
  method SerialiseRecords(recs: seq<KeyRecord>) returns (r: Result<Bytes>)
    ensures r.Success? <==> forall i :: 0 <= i < |recs| ==> |recs[i].keyId| <= 4096 && |recs[i].secret| <= 0x10_0000
    ensures r.Success? ==> AllInLimits(recs) && r.value == Body(recs) && IsBody(r.value, recs)
  {
    hide U32, U64, EncodeRecord, IsBody;
    if AllInLimits(recs) {
      BodyIsLaidOut(recs);
    }
    var b := U32(|recs| % 0x1_0000_0000);
    var i := 0;
    while i < |recs|
      invariant 0 <= i <= |recs| && AllInLimits(recs[..i])
      invariant AllInLimits(recs[i..]) ==> AllInLimits(recs) && b + EncodeRecords(recs[i..]) == Body(recs)
    {
      var rec := recs[i];
      if |rec.keyId| > MAX_ID {
        return Failure("KeyStore: key_id too long (>4096B)");
      }
      if |rec.secret| > MAX_SECRET {
        return Failure("KeyStore: secret too large (>1MB)");
      }
      ghost var rest := recs[i + 1..];
      assert recs[i..] == [rec] + rest && recs[i..][1..] == rest;
      if AllInLimits(rest) {
        EncodeAppends(rec, EncodeRecords(rest));
        assert b + (EncodeRecord(rec, []) + EncodeRecords(rest)) == (b + EncodeRecord(rec, [])) + EncodeRecords(rest);
      }
      b := b + EncodeRecord(rec, []);
      i := i + 1;
    }
    assert recs[..i] == recs && b + [] == b;
    r := Success(b);
  }

  // ----------------------------------------------------------------------
  // The parser

  /** What follows the key id. */
  function ParseMeta(keyId: Bytes, b: Bytes): Result<(KeyRecord, Bytes)> {
    if |b| < 1 + 8 + 4 + 4 then Failure("KeyStore body: truncated meta")
    else
      var b1 := b[1..];
      var b2 := b1[8..];
      var b3 := b2[4..];
      var length, b4 := ReadU32(b3), b3[4..];
      if length > MAX_SECRET then Failure("KeyStore body: secret length invalid")
      else if |b4| < length then Failure("KeyStore body: truncated secret")
      else Success((KeyRecord(keyId, b[0], ReadU64(b1), ReadU32(b2), b4[..length]), b4[length..]))
  }

  /** One record off the front, and what is left. */
  function ParseRecord(b: Bytes): Result<(KeyRecord, Bytes)> {
    if |b| < 4 then Failure("KeyStore body: truncated key_id_len")
    else
      var length, rest := ReadU32(b), b[4..];
      if length > MAX_ID then Failure("KeyStore body: key_id length invalid")
      else if |rest| < length then Failure("KeyStore body: truncated key_id")
      else ParseMeta(rest[..length], rest[length..])
  }

  function ParseRecords(b: Bytes, count: nat): Result<seq<KeyRecord>> {
    if count == 0 then if b == [] then Success([]) else Failure("KeyStore body: trailing bytes")
    else
      var first :- ParseRecord(b);
      var others :- ParseRecords(first.1, count - 1);
      Success([first.0] + others)
  }

  function Parse(b: Bytes): Result<seq<KeyRecord>> {
    if |b| < 4 then Failure("KeyStore body: truncated header") else ParseRecords(b[4..], ReadU32(b))
  }

  /** Prefixing what was already read to what the rest gives. */
  function Prepend(out: seq<KeyRecord>, r: Result<seq<KeyRecord>>): Result<seq<KeyRecord>> {
    if r.Success? then Success(out + r.value) else r
  }

  method DeserialiseRecords(b: Bytes) returns (r: Result<seq<KeyRecord>>)
    ensures r == Parse(b)
  {
    hide ParseRecord, ReadU32;
    if |b| < 4 {
      return Failure("KeyStore body: truncated header");
    }
    var count, rest := ReadU32(b), b[4..];
    var out := [];
    ghost var all := ParseRecords(rest, count);
    assert all.Success? ==> [] + all.value == all.value;
    var i := 0;
    while i < count
      invariant 0 <= i <= count && Prepend(out, ParseRecords(rest, count - i)) == Parse(b)
    {
      var next := ParseRecord(rest);
      if next.Failure? {
        return Failure(next.error);
      }
      ghost var others := ParseRecords(next.value.1, count - i - 1);
      if others.Success? {
        assert out + ([next.value.0] + others.value) == (out + [next.value.0]) + others.value;
      }
      out := out + [next.value.0];
      rest := next.value.1;
      i := i + 1;
    }
    if rest != [] {
      return Failure("KeyStore body: trailing bytes");
    }
    assert out + [] == out;
    return Success(out);
  }

  // ----------------------------------------------------------------------
  // Each inverts the other

  lemma MetaRoundTrip(r: KeyRecord, tail: Bytes)
    requires r.InLimits()
    ensures ParseMeta(r.keyId, EncodeMeta(r, tail)) == Success((r, tail))
  {
    hide U32, U64, ReadU32, ReadU64;
    var t4 := r.secret + tail;
    var t3 := U32(|r.secret|) + t4;
    var t2 := U32(r.version) + t3;
    var t1 := U64(r.created) + t2;
    WordsRoundTrip(|r.secret|, r.created, t4);
    WordsRoundTrip(r.version, r.created, t3);
    WordsRoundTrip(r.version, r.created, t2);
    assert ([r.purpose] + t1)[1..] == t1;
    assert t4[..|r.secret|] == r.secret && t4[|r.secret|..] == tail;
  }

  lemma RecordRoundTrip(r: KeyRecord, tail: Bytes)
    requires r.InLimits()
    ensures ParseRecord(EncodeRecord(r, tail)) == Success((r, tail))
  {
    hide U32, ReadU32, ParseMeta, EncodeMeta;
    var meta := EncodeMeta(r, tail);
    MetaRoundTrip(r, tail);
    WordsRoundTrip(|r.keyId|, 0, r.keyId + meta);
    assert (r.keyId + meta)[..|r.keyId|] == r.keyId && (r.keyId + meta)[|r.keyId|..] == meta;
  }

  lemma {:induction false} RecordsRoundTrip(recs: seq<KeyRecord>)
    requires AllInLimits(recs)
    ensures ParseRecords(EncodeRecords(recs), |recs|) == Success(recs)
  {
    hide EncodeRecord, ParseRecord;
    if recs != [] {
      RecordsRoundTrip(recs[1..]);
      RecordRoundTrip(recs[0], EncodeRecords(recs[1..]));
      assert recs == [recs[0]] + recs[1..];
    }
  }

  /** The fields ParseMeta reads, one after the other. */
  lemma MetaFields(keyId: Bytes, b: Bytes)
    requires ParseMeta(keyId, b).Success?
    ensures |b| >= 17 && ReadU32(b[1..][8..][4..]) <= |b[1..][8..][4..][4..]| && ReadU32(b[1..][8..][4..]) <= MAX_SECRET
    ensures var b1 := b[1..]; var b2 := b1[8..]; var b3 := b2[4..]; var n, b4 := ReadU32(b3), b3[4..];
            ParseMeta(keyId, b).value == (KeyRecord(keyId, b[0], ReadU64(b1), ReadU32(b2), b4[..n]), b4[n..])
  {
    hide U32, U64, ReadU32, ReadU64;
  }

  lemma MetaCanonical(keyId: Bytes, b: Bytes)
    requires |keyId| <= MAX_ID && ParseMeta(keyId, b).Success?
    ensures var r := ParseMeta(keyId, b).value; r.0.InLimits() && r.0.keyId == keyId && b == EncodeMeta(r.0, r.1)
  {
    hide U32, U64, ReadU32, ReadU64, ParseMeta, EncodeMeta;
    MetaFields(keyId, b);
    var b1 := b[1..];
    var b2 := b1[8..];
    var b3 := b2[4..];
    var b4 := b3[4..];
    Word64WritesBack(b1);
    Word32WritesBack(b2);
    Word32WritesBack(b3);
    MetaParts(keyId, b, b1, b2, b3, b4, ReadU32(b3));
  }

  lemma MetaParts(keyId: Bytes, b: Bytes, b1: Bytes, b2: Bytes, b3: Bytes, b4: Bytes, n: nat)
    requires |keyId| <= MAX_ID && |b| > 0 && b[1..] == b1 && |b1| >= 8 && U64(ReadU64(b1)) + b2 == b1
    requires |b2| >= 4 && U32(ReadU32(b2)) + b3 == b2 && n <= |b4| && n <= MAX_SECRET && U32(n) + b4 == b3
    ensures var r := KeyRecord(keyId, b[0], ReadU64(b1), ReadU32(b2), b4[..n]); r.InLimits() && b == EncodeMeta(r, b4[n..])
  {
    hide U32, U64, ReadU32, ReadU64, EncodeMeta;
    var r := KeyRecord(keyId, b[0], ReadU64(b1), ReadU32(b2), b4[..n]);
    assert b4 == b4[..n] + b4[n..];
    MetaPieces(r, b4[n..], b, b1, b2, b3, b4);
  }

  lemma MetaPieces(r: KeyRecord, tail: Bytes, b: Bytes, b1: Bytes, b2: Bytes, b3: Bytes, b4: Bytes)
    requires r.InLimits() && |b| > 0 && b[0] == r.purpose && b[1..] == b1 && U64(r.created) + b2 == b1
    requires U32(r.version) + b3 == b2 && U32(|r.secret|) + b4 == b3 && r.secret + tail == b4
    ensures b == EncodeMeta(r, tail)
  {
    hide U32, U64;
    assert b == [b[0]] + b1;
  }

  lemma RecordCanonical(b: Bytes)
    requires ParseRecord(b).Success?
    ensures var r := ParseRecord(b).value; r.0.InLimits() && b == EncodeRecord(r.0, r.1)
  {
    hide U32, ReadU32, ParseMeta, EncodeMeta;
    Word32WritesBack(b);
    var length, rest := ReadU32(b), b[4..];
    MetaCanonical(rest[..length], rest[length..]);
    assert rest == rest[..length] + rest[length..];
  }

  lemma {:induction false} RecordsCanonical(b: Bytes, count: nat)
    requires ParseRecords(b, count).Success?
    ensures var recs := ParseRecords(b, count).value;
            |recs| == count && AllInLimits(recs) && b == EncodeRecords(recs)
    decreases count
  {
    hide EncodeRecord, ParseRecord;
    if count > 0 {
      var first := ParseRecord(b).value;
      RecordCanonical(b);
      RecordsCanonical(first.1, count - 1);
      var recs := ParseRecords(b, count).value;
      assert recs[1..] == ParseRecords(first.1, count - 1).value;
    }
  }

  /**
   * The format is a bijection between in-limit lists of fewer than 2^32
   * records and the accepted byte strings.
   */
  lemma FormatIsBijection(recs: seq<KeyRecord>, b: Bytes)
    ensures Parse(b) == Success(recs) <==> AllInLimits(recs) && |recs| < 0x1_0000_0000 && b == Body(recs)
  {
    hide U32, ReadU32, ParseRecords, EncodeRecords;
    if Parse(b) == Success(recs) {
      RecordsCanonical(b[4..], ReadU32(b));
      Word32WritesBack(b);
    }
    if AllInLimits(recs) && |recs| < 0x1_0000_0000 && b == Body(recs) {
      RecordsRoundTrip(recs);
      WordsRoundTrip(|recs|, 0, EncodeRecords(recs));
    }
  }

  /** The parser reads exactly the byte strings laid out as the format says. */
  lemma ParsesTheFormat(recs: seq<KeyRecord>, b: Bytes)
    ensures Parse(b) == Success(recs)
       <==> && (forall i :: 0 <= i < |recs| ==> |recs[i].keyId| <= 4096 && |recs[i].secret| <= 0x10_0000)
            && |recs| < 0x1_0000_0000 && IsBody(b, recs)
  {
    hide Parse, Body, IsBody;
    FormatIsBijection(recs, b);
    if AllInLimits(recs) {
      LayoutIsBody(recs, b);
    }
  }

  /** Writing a list and reading it back fails from 2^32 records on, and only then. */
  lemma ReadsBackIff(recs: seq<KeyRecord>)
    requires AllInLimits(recs)
    ensures Parse(Body(recs)) == Success(recs) <==> |recs| < 0x1_0000_0000
  {
    FormatIsBijection(recs, Body(recs));
  }
}

/** The file-backed key store: records in memory, and the file they are flushed to. */
module KeyStore {
  import opened Outcomes
  import opened KeyFormat

  // ----------------------------------------------------------------------
  // The record list as a map

  /** Position of the first record with this id, or |recs|. */
  function Find(recs: seq<KeyRecord>, id: Bytes): (k: nat)
    ensures k <= |recs| && (k < |recs| ==> recs[k].keyId == id)
    ensures forall i :: 0 <= i < k ==> recs[i].keyId != id
  {
    if recs == [] then 0 else if recs[0].keyId == id then 0 else 1 + Find(recs[1..], id)
  }

  function Lookup(recs: seq<KeyRecord>, id: Bytes): Option<KeyRecord> {
    var k := Find(recs, id);
    if k < |recs| then Some(recs[k]) else None
  }

  predicate Distinct(recs: seq<KeyRecord>) {
    forall i, j :: 0 <= i < j < |recs| ==> recs[i].keyId != recs[j].keyId
  }

  function Replaced(recs: seq<KeyRecord>, rec: KeyRecord): seq<KeyRecord> {
    var k := Find(recs, rec.keyId);
    if k < |recs| then recs[k := rec] else recs + [rec]
  }

  function Without(recs: seq<KeyRecord>, id: Bytes): seq<KeyRecord>
    requires Find(recs, id) < |recs|
  {
    recs[..Find(recs, id)] + recs[Find(recs, id) + 1..]
  }

  lemma FindIs(recs: seq<KeyRecord>, id: Bytes, k: nat)
    requires k <= |recs| && (k < |recs| ==> recs[k].keyId == id)
    requires forall i :: 0 <= i < k ==> recs[i].keyId != id
    ensures Find(recs, id) == k
  {
  }

  /** Storing sets one entry of the map and leaves the rest. */
  lemma PutIsMapUpdate(recs: seq<KeyRecord>, rec: KeyRecord, id: Bytes)
    ensures Lookup(Replaced(recs, rec), id) == if id == rec.keyId then Some(rec) else Lookup(recs, id)
    ensures var now, k := Replaced(recs, rec), Find(recs, rec.keyId);
            && |now| == (if k < |recs| then |recs| else |recs| + 1) && now[k] == rec
            && forall i :: 0 <= i < |recs| && i != k ==> now[i] == recs[i]
    ensures Distinct(recs) ==> Distinct(Replaced(recs, rec))
  {
    var now, k := Replaced(recs, rec), Find(recs, rec.keyId);
    if id == rec.keyId {
      FindIs(now, id, k);
    } else {
      var j := Find(recs, id);
      FindIs(now, id, if j < |recs| then j else |now|);
    }
  }

  lemma WithoutAt(recs: seq<KeyRecord>, gone: Bytes, i: nat)
    requires Find(recs, gone) < |recs| && i + 1 < |recs|
    ensures Without(recs, gone)[i] == recs[if i < Find(recs, gone) then i else i + 1]
  {
    hide Find;
  }

  lemma DeleteUpdatesMap(recs: seq<KeyRecord>, gone: Bytes)
    requires Find(recs, gone) < |recs| && Distinct(recs)
    ensures Distinct(Without(recs, gone))
    ensures forall other :: Lookup(Without(recs, gone), other) == if other == gone then None else Lookup(recs, other)
  {
    hide Find, Without, Lookup, Distinct;
    DeleteKeepsDistinct(recs, gone);
    forall other ensures Lookup(Without(recs, gone), other) == if other == gone then None else Lookup(recs, other) {
      DeleteIsMapRemoval(recs, gone, other);
    }
  }

  lemma DeleteKeepsDistinct(recs: seq<KeyRecord>, gone: Bytes)
    requires Find(recs, gone) < |recs| && Distinct(recs)
    ensures Distinct(Without(recs, gone))
  {
    hide Find, Without;
    var now, k := Without(recs, gone), Find(recs, gone);
    WithoutSize(recs, gone);
    forall i, j | 0 <= i < j < |now| ensures now[i].keyId != now[j].keyId {
      WithoutAt(recs, gone, i);
      WithoutAt(recs, gone, j);
    }
  }

  lemma WithoutSize(recs: seq<KeyRecord>, gone: Bytes)
    requires Find(recs, gone) < |recs|
    ensures |Without(recs, gone)| == |recs| - 1
  {
    hide Find;
  }

  /** Deleting removes one entry of the map, when ids are unique. */
  lemma DeleteIsMapRemoval(recs: seq<KeyRecord>, gone: Bytes, id: Bytes)
    requires Find(recs, gone) < |recs| && Distinct(recs)
    ensures Lookup(Without(recs, gone), id) == if id == gone then None else Lookup(recs, id)
  {
    hide Find, Without;
    var now, k, j := Without(recs, gone), Find(recs, gone), Find(recs, id);
    WithoutSize(recs, gone);
    var at := if id == gone || j == |recs| then |now| else if j < k then j else j - 1;
    forall i | 0 <= i < |now|
      ensures now[i] == recs[if i < k then i else i + 1] && (i < at ==> now[i].keyId != id)
    {
      WithoutAt(recs, gone, i);
    }
    FindIs(now, id, at);
  }

  // ----------------------------------------------------------------------
  // The file

  const MAGIC: Word64 := 0x4d50_5356_534b_5301
  const FILE_VERSION: Word32 := 1
  const SALT_BYTES := 16

  /** Magic, version, salt, body; encryption is the identity here. */
  function File(salt: Bytes, recs: seq<KeyRecord>): Bytes
    requires AllInLimits(recs)
  {
    U64(MAGIC) + (U32(FILE_VERSION) + (salt + Body(recs)))
  }

  /** The magic, the version, the salt, the body, byte by byte. */
  ghost predicate IsFile(file: Bytes, salt: Bytes, recs: seq<KeyRecord>) {
    && |file| >= 28 && file[..8] == [0x01, 0x53, 0x4b, 0x53, 0x56, 0x53, 0x50, 0x4d] && file[8..12] == [1, 0, 0, 0]
    && file[12..28] == salt && IsBody(file[28..], recs)
  }

  lemma MagicDigits()
    ensures MAGIC % 256 == 0x01 && MAGIC / 0x100 % 256 == 0x53 && MAGIC / 0x1_0000 % 256 == 0x4b
    ensures MAGIC / 0x100_0000 % 256 == 0x53 && MAGIC / 0x1_0000_0000 % 256 == 0x56
    ensures MAGIC / 0x100_0000_0000 % 256 == 0x53 && MAGIC / 0x1_0000_0000_0000 % 256 == 0x50
    ensures MAGIC / 0x100_0000_0000_0000 % 256 == 0x4d
  {
  }

  lemma EightBytes(b: Bytes, v: nat)
    requires |b| == 8 && Is64(b, 0, v)
    ensures b == [v % 256, v / 0x100 % 256, v / 0x1_0000 % 256, v / 0x100_0000 % 256, v / 0x1_0000_0000 % 256,
                  v / 0x100_0000_0000 % 256, v / 0x1_0000_0000_0000 % 256, v / 0x100_0000_0000_0000 % 256]
  {
  }

  lemma MagicBytes()
    ensures U64(MAGIC) == [0x01, 0x53, 0x4b, 0x53, 0x56, 0x53, 0x50, 0x4d]
  {
    hide U64, Is64;
    Word64At(MAGIC);
    EightBytes(U64(MAGIC), MAGIC);
    MagicDigits();
  }

  lemma VersionBytes()
    ensures U32(FILE_VERSION) == [1, 0, 0, 0]
  {
    hide U32;
    Word32At(FILE_VERSION);
  }

  lemma Cuts(a: Bytes, b: Bytes, c: Bytes, d: Bytes)
    requires |a| == 8 && |b| == 4 && |c| == 16
    ensures var file := a + (b + (c + d));
            |file| >= 28 && file[..8] == a && file[8..12] == b && file[12..28] == c && file[28..] == d
  {
  }

  lemma FileIsLaidOut(salt: Bytes, recs: seq<KeyRecord>)
    requires |salt| == SALT_BYTES && AllInLimits(recs)
    ensures IsFile(File(salt, recs), salt, recs)
  {
    hide Body, IsBody, U32, U64;
    MagicBytes();
    VersionBytes();
    BodyIsLaidOut(recs);
    Cuts(U64(MAGIC), U32(FILE_VERSION), salt, Body(recs));
  }

  /** What opening a file reads: the salt and the records. */
  function ReadFile(file: Bytes): Result<(Bytes, seq<KeyRecord>)> {
    if |file| < 8 + 4 + SALT_BYTES then Failure("FileKeyStore: file too short")
    else if ReadU64(file) != MAGIC then Failure("FileKeyStore: bad magic")
    else if ReadU32(file[8..]) != FILE_VERSION then Failure("FileKeyStore: unsupported version")
    else
      var recs :- Parse(file[8..][4..][SALT_BYTES..]);
      Success((file[8..][4..][..SALT_BYTES], recs))
  }

  /** A written file reads back as what was written, below 2^32 records. */
  lemma FileRoundTrip(salt: Bytes, recs: seq<KeyRecord>)
    requires |salt| == SALT_BYTES && AllInLimits(recs)
    ensures ReadFile(File(salt, recs)) == Success((salt, recs)) <==> |recs| < 0x1_0000_0000
  {
    hide Body, Parse, U32, U64, ReadU32, ReadU64;
    var body := Body(recs);
    WordsRoundTrip(FILE_VERSION, MAGIC, U32(FILE_VERSION) + (salt + body));
    WordsRoundTrip(FILE_VERSION, MAGIC, salt + body);
    assert (salt + body)[..SALT_BYTES] == salt && (salt + body)[SALT_BYTES..] == body;
    ReadsBackIff(recs);
  }

  class FileKeyStore {
    var records: seq<KeyRecord>
    var file: Bytes
    const salt: Bytes

    ghost predicate Valid()
      reads this
    {
      |salt| == SALT_BYTES
    }

    /** The stored image decodes to the records in memory. */
    ghost predicate Synced()
      reads this
    {
      ReadFile(file) == Success((salt, records))
    }

    constructor (salt: Bytes, records: seq<KeyRecord>, file: Bytes)
      requires |salt| == SALT_BYTES
      ensures Valid() && this.salt == salt && this.records == records && this.file == file
    {
      this.salt, this.records, this.file := salt, records, file;
    }

    /** Opens the file there is, or writes an empty store. */
    static method Open(passphrase: Bytes, existing: Option<Bytes>, freshSalt: Bytes) returns (r: Result<FileKeyStore>)
      requires |freshSalt| == SALT_BYTES
      ensures r.Success? <==> passphrase != [] && (existing.Some? ==> ReadFile(existing.value).Success?)
      ensures r.Success? ==> fresh(r.value) && r.value.Valid() && r.value.Synced()
      ensures r.Success? && existing.Some? ==> r.value.file == existing.value
      ensures r.Success? && existing.None? ==>
                r.value.records == [] && r.value.salt == freshSalt && IsFile(r.value.file, freshSalt, [])
    {
      hide Parse, Body, U64, U32, ReadU32, ReadU64;
      if passphrase == [] {
        return Failure("FileKeyStore: passphrase must be nonempty");
      }
      if existing.None? {
        FileRoundTrip(freshSalt, []);
        FileIsLaidOut(freshSalt, []);
        var created := new FileKeyStore(freshSalt, [], File(freshSalt, []));
        return Success(created);
      }
      var loaded := ReadFile(existing.value);
      if loaded.Failure? {
        return Failure(loaded.error);
      }
      var store := new FileKeyStore(loaded.value.0, loaded.value.1, existing.value);
      return Success(store);
    }

    /** Writes the records out; on a record past its limits the file stays as it was. */
    method FlushToDiskLocked() returns (r: Result<()>)
      requires Valid()
      modifies this`file
      ensures Valid()
      ensures r.Success? <==> AllInLimits(records)
      ensures r.Failure? ==> file == old(file)
      ensures r.Success? ==> file == File(salt, records) && (Synced() <==> |records| < 0x1_0000_0000)
      ensures r.Success? ==> IsFile(file, salt, records)
    {
      hide Body, U64, U32, IsBody;
      var body := SerialiseRecords(records);
      if body.Failure? {
        return Failure(body.error);
      }
      file := U64(MAGIC) + (U32(FILE_VERSION) + (salt + body.value));
      hide ReadFile, IsFile;
      FileRoundTrip(salt, records);
      FileIsLaidOut(salt, records);
      return Success(());
    }

    /**
     * Replace or append, then flush. When the flush fails the record stays in
     * memory and the file keeps the previous image.
     */
    method PutKey(rec: KeyRecord) returns (r: Result<()>)
      requires Valid()
      modifies this
      ensures Valid()
      ensures rec.keyId == [] ==> r.Failure? && records == old(records)
      ensures rec.keyId != [] ==> records == Replaced(old(records), rec) && (r.Success? <==> AllInLimits(records))
      ensures r.Failure? ==> file == old(file)
      ensures r.Success? ==> IsFile(file, salt, records) && (|records| < 0x1_0000_0000 ==> Synced())
      ensures old(Distinct(records)) ==> Distinct(records)
      ensures forall id :: Lookup(records, id) ==
                           if id == rec.keyId && id != [] then Some(rec) else old(Lookup(records, id))
    {
      hide ReadFile;
      if rec.keyId == [] {
        return Failure("KeyStore: key_id must be nonempty");
      }
      ghost var before := records;
      var k := Find(records, rec.keyId);
      if k < |records| {
        records := records[k := rec];
      } else {
        records := records + [rec];
      }
      forall id ensures Lookup(records, id) == if id == rec.keyId then Some(rec) else Lookup(before, id) {
        PutIsMapUpdate(before, rec, id);
      }
      PutIsMapUpdate(before, rec, []);
      hide Find, Lookup, Replaced, Distinct;
      r := FlushToDiskLocked();
    }

    method GetKey(id: Bytes) returns (r: Result<KeyRecord>)
      ensures r.Success? <==> exists i :: 0 <= i < |records| && records[i].keyId == id
      ensures r.Success? ==> Lookup(records, id) == Some(r.value)
    {
      for i := 0 to |records|
        invariant forall k :: 0 <= k < i ==> records[k].keyId != id
      {
        if records[i].keyId == id {
          FindIs(records, id, i);
          return Success(records[i]);
        }
      }
      r := Failure("KeyStore: no such key");
    }

    method HasKey(id: Bytes) returns (has: bool)
      ensures has <==> Lookup(records, id).Some?
    {
      for i := 0 to |records|
        invariant forall k :: 0 <= k < i ==> records[k].keyId != id
      {
        if records[i].keyId == id {
          return true;
        }
      }
      has := false;
    }

    method ListKeyIds() returns (ids: seq<Bytes>)
      ensures |ids| == |records| && forall i :: 0 <= i < |ids| ==> ids[i] == records[i].keyId
    {
      ids := [];
      for i := 0 to |records|
        invariant |ids| == i && forall k :: 0 <= k < i ==> ids[k] == records[k].keyId
      {
        ids := ids + [records[i].keyId];
      }
    }

    method DeleteKey(id: Bytes) returns (r: Result<()>)
      requires Valid()
      modifies this
      ensures Valid()
      ensures old(Lookup(records, id)).None? ==> r.Failure? && records == old(records)
      ensures old(Lookup(records, id)).Some? ==>
                records == Without(old(records), id) && (r.Success? <==> AllInLimits(records))
      ensures r.Failure? ==> file == old(file)
      ensures r.Success? ==> IsFile(file, salt, records) && (|records| < 0x1_0000_0000 ==> Synced())
      ensures old(Distinct(records)) ==> Distinct(records)
      ensures r.Success? && old(Distinct(records)) ==>
                forall other :: Lookup(records, other) == if other == id then None else old(Lookup(records, other))
    {
      hide ReadFile;
      var k := Find(records, id);
      if k == |records| {
        return Failure("KeyStore: no such key");
      }
      ghost var before := records;
      records := records[..k] + records[k + 1..];
      hide Find, Lookup, Distinct;
      if Distinct(before) {
        DeleteUpdatesMap(before, id);
      }
      hide Without;
      r := FlushToDiskLocked();
    }

    /** Forgets the records; the file stays. */
    method ZeroiseMemory()
      modifies this`records
      ensures records == []
    {
      records := [];
    }
  }
}
