/** The container that imgdiff writes and imgpatch reads: a header, one record per chunk, then the
    bsdiff patches of the chunks. */
module ImgFormat {
  import opened Bytes
  import opened Codec
  import opened BsPatch
  import BsDiff
  import opened Chunks
  import opened ImgPatch

  datatype Record =
    | NormalRecord(srcStart: nat, srcLen: nat, patch: seq<byte>)
    | DeflateRecord(srcStart: nat, srcLen: nat, expandedLen: nat, targetLen: nat, params: Params, patch: seq<byte>)
    | RawRecord(data: seq<byte>)

  predicate Fits4(v: int) { -TWO_TO_31 <= v < TWO_TO_31 }
  predicate Fits8(v: int) { 0 <= v < TWO_TO_63 }

  predicate FitsParams(p: Params)
  {
    Fits4(p.level) && Fits4(p.encoding) && Fits4(p.windowBits) && Fits4(p.memLevel) && Fits4(p.strategy)
  }

  /** The numbers of a record fit their fields. */
  predicate Fits(r: Record)
  {
    match r
    case NormalRecord(start, len, _) => Fits8(start) && Fits8(len)
    case DeflateRecord(start, len, el, tl, p, _) =>
      Fits8(start) && Fits8(len) && Fits8(el) && Fits8(tl) && FitsParams(p)
    case RawRecord(data) => Fits4(|data|)
  }

  /** The bsdiff patch that goes behind the header, if the record has one. */
  function PatchOf(r: Record): seq<byte>
  {
    if r.RawRecord? then [] else r.patch
  }

  function ParamBytes(p: Params): (b: seq<byte>)
    requires FitsParams(p)
    ensures |b| == 20
  {
    Word4(p.level) + (Word4(p.encoding) + (Word4(p.windowBits) + (Word4(p.memLevel) + Word4(p.strategy))))
  }

  function RecordSize(r: Record): nat
  {
    match r
    case NormalRecord(_, _, _) => 4 + 8 * 3
    case DeflateRecord(_, _, _, _, _, _) => 4 + 8 * 5 + 4 * 5
    case RawRecord(data) => 4 + 4 + |data|
  }

  /** The record as written, its patch being at off in the container. */
  function RecordBytes(r: Record, off: nat): (b: seq<byte>)
    requires Fits(r) && Fits8(off)
    ensures |b| == RecordSize(r)
  {
    match r
    case NormalRecord(start, len, _) => Word4(CHUNK_NORMAL) + (Word8(start) + (Word8(len) + Word8(off)))
    case DeflateRecord(start, len, el, tl, p, _) =>
      Word4(CHUNK_DEFLATE) + (Word8(start) + (Word8(len) + (Word8(off) + (Word8(el) + (Word8(tl) + ParamBytes(p))))))
    case RawRecord(data) => Word4(CHUNK_RAW) + (Word4(|data|) + data)
  }

  /** What is at which place of a record: its type as in imgdiff.h, then the numbers. */
  predicate HasLayout(b: seq<byte>, r: Record, off: nat)
  {
    match r
    case NormalRecord(start, len, _) =>
      |b| == 28 && b[..4] == [0, 0, 0, 0] && Eight(b[4..12]) == start && Eight(b[12..20]) == len &&
      Eight(b[20..28]) == off
    case DeflateRecord(start, len, el, tl, p, _) =>
      |b| == 64 && b[..4] == [2, 0, 0, 0] && Eight(b[4..12]) == start && Eight(b[12..20]) == len &&
      Eight(b[20..28]) == off && Eight(b[28..36]) == el && Eight(b[36..44]) == tl &&
      ReadWord4(b[44..48]) == p.level && ReadWord4(b[48..52]) == p.encoding &&
      ReadWord4(b[52..56]) == p.windowBits && ReadWord4(b[56..60]) == p.memLevel &&
      ReadWord4(b[60..64]) == p.strategy
    case RawRecord(data) =>
      |b| == 8 + |data| && b[..4] == [3, 0, 0, 0] && Four(b[4..8]) == |data| && b[8..] == data
  }

  lemma RecordLayout(r: Record, off: nat)
    requires Fits(r) && Fits8(off)
    ensures HasLayout(RecordBytes(r, off), r, off)
  {
    Types();
    hide Word4, Word8, ReadWord4, Eight, Four;
    var b := RecordBytes(r, off);
    match r {
      case NormalRecord(start, len, _) =>
        Layout8(start);
        Layout8(len);
        Layout8(off);
        assert b[4..12] == Word8(start) && b[12..20] == Word8(len) && b[20..28] == Word8(off);
      case DeflateRecord(start, len, el, tl, p, _) =>
        Layout8(start);
        Layout8(len);
        Layout8(off);
        Layout8(el);
        Layout8(tl);
        ParamLayout(p);
        assert b[4..12] == Word8(start) && b[12..20] == Word8(len) && b[20..28] == Word8(off);
        assert b[28..36] == Word8(el) && b[36..44] == Word8(tl) && b[44..] == ParamBytes(p);
        assert b[44..48] == b[44..][..4] && b[48..52] == b[44..][4..8] && b[52..56] == b[44..][8..12];
        assert b[56..60] == b[44..][12..16] && b[60..64] == b[44..][16..];
      case RawRecord(data) =>
        Layout4(|data|);
        assert b[4..8] == Word4(|data|);
    }
  }

  lemma Types()
    ensures Word4(CHUNK_NORMAL) == [0, 0, 0, 0] && Word4(CHUNK_DEFLATE) == [2, 0, 0, 0]
    ensures Word4(CHUNK_RAW) == [3, 0, 0, 0]
  {
    Word4Determined([0, 0, 0, 0]);
    Word4Determined([2, 0, 0, 0]);
    Word4Determined([3, 0, 0, 0]);
    WordsAre([0, 0, 0, 0]);
    WordsAre([2, 0, 0, 0]);
    WordsAre([3, 0, 0, 0]);
  }

  lemma Layout8(n: nat)
    requires Fits8(n)
    ensures |Word8(n)| == 8 && Eight(Word8(n)) == n
  {
    Word8RoundTrip(n);
    WordsAre(Word8(n));
  }

  lemma Layout4(n: int)
    requires Fits4(n)
    ensures |Word4(n)| == 4 && ReadWord4(Word4(n)) == n && (n >= 0 ==> Four(Word4(n)) == n)
  {
    Word4RoundTrip(n);
    WordsAre(Word4(n));
  }

  lemma ParamLayout(p: Params)
    requires FitsParams(p)
    ensures var b := ParamBytes(p);
            ReadWord4(b[..4]) == p.level && ReadWord4(b[4..8]) == p.encoding && ReadWord4(b[8..12]) == p.windowBits &&
            ReadWord4(b[12..16]) == p.memLevel && ReadWord4(b[16..]) == p.strategy
  {
    hide Word4, ReadWord4, Four;
    Layout4(p.level);
    Layout4(p.encoding);
    Layout4(p.windowBits);
    Layout4(p.memLevel);
    Layout4(p.strategy);
    var b := ParamBytes(p);
    assert b[..4] == Word4(p.level) && b[4..8] == Word4(p.encoding) && b[8..12] == Word4(p.windowBits);
    assert b[12..16] == Word4(p.memLevel) && b[16..] == Word4(p.strategy);
  }

  function PatchBytes(rs: seq<Record>): seq<byte>
  {
    if rs == [] then [] else PatchOf(rs[0]) + PatchBytes(rs[1..])
  }

  function RecordsSize(rs: seq<Record>): nat
  {
    if rs == [] then 0 else RecordSize(rs[0]) + RecordsSize(rs[1..])
  }

  predicate AllFit(rs: seq<Record>)
  {
    forall i :: 0 <= i < |rs| ==> Fits(rs[i])
  }

  /** The records one after the other, the first patch being at off. */
  function RecordsBytes(rs: seq<Record>, off: nat): (b: seq<byte>)
    requires AllFit(rs) && Fits8(off + |PatchBytes(rs)|)
    ensures |b| == RecordsSize(rs)
  {
    if rs == [] then [] else RecordBytes(rs[0], off) + RecordsBytes(rs[1..], off + |PatchOf(rs[0])|)
  }

  function HeaderSize(rs: seq<Record>): nat { 12 + RecordsSize(rs) }

  /** A list of records that a container can hold. */
  predicate Writable(rs: seq<Record>)
  {
    AllFit(rs) && Fits4(|rs|) && Fits8(HeaderSize(rs) + |PatchBytes(rs)|)
  }

  function Container(rs: seq<Record>): seq<byte>
    requires Writable(rs)
  {
    IMGDIFF_MAGIC + (Word4(|rs|) + (RecordsBytes(rs, HeaderSize(rs)) + PatchBytes(rs)))
  }

  /** The word written at `at`, read back. */
  lemma ReadBack8(all: seq<byte>, at: nat, v: int, rest: seq<byte>, post: seq<byte>)
    requires Fits8(v) && at <= |all| && all[at..] == Word8(v) + rest + post
    ensures at + 8 <= |all| && Word8At(all, at) == v && all[at + 8..] == rest + post
  {
    BsDiff.Peel(all, at, Word8(v), rest, post);
    Word8RoundTrip(v);
  }

  lemma ReadBack4(all: seq<byte>, at: nat, v: int, rest: seq<byte>, post: seq<byte>)
    requires Fits4(v) && at <= |all| && all[at..] == Word4(v) + rest + post
    ensures at + 4 <= |all| && Word4At(all, at) == v && all[at + 4..] == rest + post
  {
    BsDiff.Peel(all, at, Word4(v), rest, post);
    Word4RoundTrip(v);
  }

  lemma ReadBackParams(all: seq<byte>, at: nat, p: Params, post: seq<byte>)
    requires FitsParams(p) && at <= |all| && all[at..] == ParamBytes(p) + post
    ensures at + 20 <= |all| && all[at + 20..] == post
    ensures p == Params(Word4At(all, at), Word4At(all, at + 4), Word4At(all, at + 8), Word4At(all, at + 12),
                        Word4At(all, at + 16))
  {
    hide Word4, Word4At;
    ReadBack4(all, at, p.level,
              Word4(p.encoding) + (Word4(p.windowBits) + (Word4(p.memLevel) + Word4(p.strategy))), post);
    ReadBack4(all, at + 4, p.encoding, Word4(p.windowBits) + (Word4(p.memLevel) + Word4(p.strategy)), post);
    ReadBack4(all, at + 8, p.windowBits, Word4(p.memLevel) + Word4(p.strategy), post);
    ReadBack4(all, at + 12, p.memLevel, Word4(p.strategy), post);
    assert Word4(p.strategy) + post == Word4(p.strategy) + [] + post;
    ReadBack4(all, at + 16, p.strategy, [], post);
    assert [] + post == post;
  }

  /** The record r produces the target bytes t from source. */
  ghost predicate Produces(z: Zlib, bz: Bzip, source: seq<byte>, bonus: seq<byte>, r: Record, t: seq<byte>)
  {
    match r
    case RawRecord(data) => data == t
    case NormalRecord(start, len, patch) =>
      start + len <= |source| && PatchesTo(bz, source[start..start + len], patch, t)
    case DeflateRecord(start, len, el, _, params, patch) =>
      start + len <= |source| && z.inflate(source[start..start + len]).Some? &&
      var d := z.inflate(source[start..start + len]).value.1 + bonus;
      |d| == el && exists u :: PatchesTo(bz, d, patch, u) && z.deflate(params, u) == t
  }

  lemma PatchFound(bz: Bzip, s: seq<byte>, patch: seq<byte>, t: seq<byte>, all: seq<byte>, off: nat, rest: seq<byte>)
    requires PatchesTo(bz, s, patch, t) && off <= |all| && all[off..] == patch + rest
    ensures Patched(bz, s, all, off) == Ok(t)
  {
    assert all == all[..off] + patch + rest;
  }

  lemma NormalYields(bz: Bzip, source: seq<byte>, r: Record, t: seq<byte>, all: seq<byte>, pos: nat, off: nat,
                     post: seq<byte>, rest: seq<byte>)
    requires r.NormalRecord? && Fits(r) && Fits8(off) && r.srcStart + r.srcLen <= |source|
    requires PatchesTo(bz, source[r.srcStart..r.srcStart + r.srcLen], r.patch, t)
    requires pos <= |all| && all[pos..] == RecordBytes(r, off) + post
    requires off <= |all| && all[off..] == r.patch + rest
    ensures pos + 28 <= |all| && Word4At(all, pos) == CHUNK_NORMAL
    ensures NormalChunk(bz, source, all, pos + 4) == Ok((pos + 28, t))
    ensures all[pos + 28..] == post
  {
    hide Word4, Word8, Word4At, Word8At, Patched, PatchesTo;
    ReadBack4(all, pos, CHUNK_NORMAL, Word8(r.srcStart) + (Word8(r.srcLen) + Word8(off)), post);
    ReadBack8(all, pos + 4, r.srcStart, Word8(r.srcLen) + Word8(off), post);
    ReadBack8(all, pos + 12, r.srcLen, Word8(off), post);
    assert Word8(off) + post == Word8(off) + [] + post;
    ReadBack8(all, pos + 20, off, [], post);
    assert [] + post == post;
    PatchFound(bz, source[r.srcStart..r.srcStart + r.srcLen], r.patch, t, all, off, rest);
  }

  lemma DeflateFields(r: Record, all: seq<byte>, pos: nat, off: nat, post: seq<byte>)
    requires r.DeflateRecord? && Fits(r) && Fits8(off)
    requires pos <= |all| && all[pos..] == RecordBytes(r, off) + post
    ensures pos + 64 <= |all| && Word4At(all, pos) == CHUNK_DEFLATE && all[pos + 64..] == post
    ensures Word8At(all, pos + 4) == r.srcStart && Word8At(all, pos + 12) == r.srcLen && Word8At(all, pos + 20) == off
    ensures Word8At(all, pos + 28) == r.expandedLen
    ensures r.params == Params(Word4At(all, pos + 44), Word4At(all, pos + 48), Word4At(all, pos + 52),
                               Word4At(all, pos + 56), Word4At(all, pos + 60))
  {
    hide Word4, Word8, Word4At, Word8At, ParamBytes;
    var p := ParamBytes(r.params);
    ReadBack4(all, pos, CHUNK_DEFLATE,
              Word8(r.srcStart) + (Word8(r.srcLen) + (Word8(off) + (Word8(r.expandedLen) + (Word8(r.targetLen) + p)))),
              post);
    ReadBack8(all, pos + 4, r.srcStart,
              Word8(r.srcLen) + (Word8(off) + (Word8(r.expandedLen) + (Word8(r.targetLen) + p))), post);
    ReadBack8(all, pos + 12, r.srcLen, Word8(off) + (Word8(r.expandedLen) + (Word8(r.targetLen) + p)), post);
    ReadBack8(all, pos + 20, off, Word8(r.expandedLen) + (Word8(r.targetLen) + p), post);
    ReadBack8(all, pos + 28, r.expandedLen, Word8(r.targetLen) + p, post);
    ReadBack8(all, pos + 36, r.targetLen, p, post);
    ReadBackParams(all, pos + 44, r.params, post);
  }

  lemma DeflateYields(z: Zlib, bz: Bzip, source: seq<byte>, bonus: seq<byte>, r: Record, t: seq<byte>, all: seq<byte>,
                      pos: nat, off: nat, post: seq<byte>, rest: seq<byte>)
    requires r.DeflateRecord? && Fits(r) && Fits8(off) && Produces(z, bz, source, bonus, r, t)
    requires pos <= |all| && all[pos..] == RecordBytes(r, off) + post
    requires off <= |all| && all[off..] == r.patch + rest
    ensures pos + 64 <= |all| && Word4At(all, pos) == CHUNK_DEFLATE
    ensures DeflateChunk(z, bz, source, all, pos + 4, bonus) == Ok((pos + 64, t))
    ensures all[pos + 64..] == post
  {
    hide Word4, Word8, Word4At, Word8At, Patched, PatchesTo, RecordBytes;
    DeflateFields(r, all, pos, off, post);
    var d := z.inflate(source[r.srcStart..r.srcStart + r.srcLen]).value.1 + bonus;
    var u :| PatchesTo(bz, d, r.patch, u) && z.deflate(r.params, u) == t;
    PatchFound(bz, d, r.patch, u, all, off, rest);
  }

  lemma RawYields(r: Record, all: seq<byte>, pos: nat, off: nat, post: seq<byte>)
    requires r.RawRecord? && Fits(r) && Fits8(off)
    requires pos <= |all| && all[pos..] == RecordBytes(r, off) + post
    ensures pos + 8 + |r.data| <= |all| && Word4At(all, pos) == CHUNK_RAW
    ensures RawChunk(all, pos + 4) == Ok((pos + 8 + |r.data|, r.data))
    ensures all[pos + 8 + |r.data|..] == post
  {
    hide Word4, Word4At;
    ReadBack4(all, pos, CHUNK_RAW, Word4(|r.data|) + r.data, post);
    ReadBack4(all, pos + 4, |r.data|, r.data, post);
    assert all[pos + 8..][..|r.data|] == r.data == all[pos + 8..pos + 8 + |r.data|];
    assert all[pos + 8..][|r.data|..] == post;
  }

  /** One record, wherever it stands, yields its target bytes and leads to the next. */
  lemma RecordYields(z: Zlib, bz: Bzip, source: seq<byte>, bonus: Option<seq<byte>>, i: nat, r: Record, t: seq<byte>,
                     all: seq<byte>, pos: nat, off: nat, post: seq<byte>, rest: seq<byte>)
    requires Fits(r) && Fits8(off) && Produces(z, bz, source, BonusFor(bonus, i), r, t)
    requires pos <= |all| && all[pos..] == RecordBytes(r, off) + post
    requires off <= |all| && all[off..] == PatchOf(r) + rest
    ensures OneChunk(z, bz, source, all, bonus, i, pos) == Ok((pos + RecordSize(r), t))
    ensures pos + RecordSize(r) <= |all| && all[pos + RecordSize(r)..] == post
  {
    hide Word4At, Patched, PatchesTo, RecordBytes, NormalChunk, RawChunk, DeflateChunk;
    match r
    case NormalRecord(_, _, _) => NormalYields(bz, source, r, t, all, pos, off, post, rest);
    case DeflateRecord(_, _, _, _, _, _) =>
      DeflateYields(z, bz, source, BonusFor(bonus, i), r, t, all, pos, off, post, rest);
    case RawRecord(_) => RawYields(r, all, pos, off, post);
  }

  /** The records produce the pieces ts, the first being chunk number i. */
  ghost predicate AllProduce(z: Zlib, bz: Bzip, source: seq<byte>, bonus: Option<seq<byte>>, i: nat, rs: seq<Record>,
                             ts: seq<seq<byte>>)
  {
    |rs| == |ts| && forall k :: 0 <= k < |rs| ==> Produces(z, bz, source, BonusFor(bonus, i + k), rs[k], ts[k])
  }

  lemma AllProduceRest(z: Zlib, bz: Bzip, source: seq<byte>, bonus: Option<seq<byte>>, i: nat, rs: seq<Record>,
                       ts: seq<seq<byte>>)
    requires AllProduce(z, bz, source, bonus, i, rs, ts) && rs != []
    ensures |rs| == |ts|
    ensures Produces(z, bz, source, BonusFor(bonus, i), rs[0], ts[0])
    ensures AllProduce(z, bz, source, bonus, i + 1, rs[1..], ts[1..])
  {
    hide Produces;
    assert BonusFor(bonus, i) == BonusFor(bonus, i + 0);
    forall k | 0 <= k < |rs| - 1 ensures Produces(z, bz, source, BonusFor(bonus, i + 1 + k), rs[1..][k], ts[1..][k]) {
      assert BonusFor(bonus, i + 1 + k) == BonusFor(bonus, i + (k + 1));
    }
  }

  /** With the record cursor at pos and the patch of the next record at off, interpreting the
      remaining records appends the remaining pieces and leaves the cursor behind the last record. */
  lemma {:induction false} ChunksYield(z: Zlib, bz: Bzip, source: seq<byte>, bonus: Option<seq<byte>>, all: seq<byte>,
                                       rs: seq<Record>, ts: seq<seq<byte>>, i: nat, pos: nat, off: nat,
                                       out: seq<byte>, post: seq<byte>)
    requires AllFit(rs) && Fits8(off + |PatchBytes(rs)|) && AllProduce(z, bz, source, bonus, i, rs, ts)
    requires pos <= |all| && all[pos..] == RecordsBytes(rs, off) + post
    requires off <= |all| && all[off..] == PatchBytes(rs)
    ensures ChunksFrom(z, bz, source, all, bonus, i, i + |rs|, pos, out) ==
              Ok((pos + RecordsSize(rs), out + Concat(ts)))
    decreases |rs|
  {
    hide *;
    if rs == [] {
      AllProduceNone(z, bz, source, all, bonus, i, rs, ts, pos, out);
    } else {
      var r, more := rs[0], PatchBytes(rs[1..]);
      var rest := RecordsSplit(rs, off);
      AllProduceRest(z, bz, source, bonus, i, rs, ts);
      assert all[pos..] == RecordBytes(r, off) + (rest + post);
      RecordYields(z, bz, source, bonus, i, r, ts[0], all, pos, off, rest + post, more);
      assert all[off..][|PatchOf(r)|..] == more;
      ChunksYield(z, bz, source, bonus, all, rs[1..], ts[1..], i + 1, pos + RecordSize(r), off + |PatchOf(r)|,
                  out + ts[0], post);
      ChunksFromStep(z, bz, source, all, bonus, i, i + |rs|, pos, out, pos + RecordSize(r), ts[0]);
      ConcatSplit(ts);
      assert out + ts[0] + Concat(ts[1..]) == out + Concat(ts);
    }
  }

  lemma AllProduceNone(z: Zlib, bz: Bzip, source: seq<byte>, patch: seq<byte>, bonus: Option<seq<byte>>,
                       i: nat, rs: seq<Record>, ts: seq<seq<byte>>,
                       pos: nat, out: seq<byte>)
    requires AllProduce(z, bz, source, bonus, i, rs, ts) && rs == []
    ensures ChunksFrom(z, bz, source, patch, bonus, i, i + |rs|, pos, out) ==
              Ok((pos + RecordsSize(rs), out + Concat(ts)))
  {
    assert out + Concat(ts) == out;
  }

  lemma RecordsSplit(rs: seq<Record>, off: nat) returns (rest: seq<byte>)
    requires rs != [] && AllFit(rs) && Fits8(off + |PatchBytes(rs)|)
    ensures PatchBytes(rs) == PatchOf(rs[0]) + PatchBytes(rs[1..])
    ensures RecordsSize(rs) == RecordSize(rs[0]) + RecordsSize(rs[1..])
    ensures Fits(rs[0]) && Fits8(off) && AllFit(rs[1..]) && Fits8(off + |PatchOf(rs[0])| + |PatchBytes(rs[1..])|)
    ensures rest == RecordsBytes(rs[1..], off + |PatchOf(rs[0])|)
    ensures RecordsBytes(rs, off) == RecordBytes(rs[0], off) + rest
  {
    rest := RecordsBytes(rs[1..], off + |PatchOf(rs[0])|);
  }

  lemma ChunksFromStep(z: Zlib, bz: Bzip, source: seq<byte>, patch: seq<byte>, bonus: Option<seq<byte>>,
                       i: nat, num: int, pos: nat, out: seq<byte>,
                       next: nat, b: seq<byte>)
    requires i < num && OneChunk(z, bz, source, patch, bonus, i, pos) == Ok((next, b))
    ensures ChunksFrom(z, bz, source, patch, bonus, i, num, pos, out) ==
              ChunksFrom(z, bz, source, patch, bonus, i + 1, num, next, out + b)
  {}

  lemma ConcatSplit(ts: seq<seq<byte>>)
    requires ts != []
    ensures Concat(ts) == ts[0] + Concat(ts[1..])
  {}

  /** imgpatch undoes imgdiff: if every record produces its piece of the target from the source,
      interpreting the container yields the whole target, and the record cursor ends at the header size. */
  lemma ContainerRoundTrip(z: Zlib, bz: Bzip, source: seq<byte>, bonus: Option<seq<byte>>, rs: seq<Record>,
                           ts: seq<seq<byte>>)
    requires Writable(rs) && AllProduce(z, bz, source, bonus, 0, rs, ts)
    ensures Interpreted(z, bz, source, Container(rs), bonus) == Ok(Concat(ts))
    ensures ChunksFrom(z, bz, source, Container(rs), bonus, 0, |rs|, 12, []) == Ok((HeaderSize(rs), Concat(ts)))
  {
    hide Produces, RecordBytes, ChunksFrom, Word4At, Word4, AllProduce;
    var all, head, more := Container(rs), RecordsBytes(rs, HeaderSize(rs)), PatchBytes(rs);
    assert all[0..] == IMGDIFF_MAGIC + (Word4(|rs|) + head) + more;
    BsDiff.Peel(all, 0, IMGDIFF_MAGIC, Word4(|rs|) + head, more);
    assert all[..8] == all[0..8];
    ReadBack4(all, 8, |rs|, head, more);
    assert all[HeaderSize(rs)..] == more by {
      assert all[12..][|head|..] == more;
    }
    ChunksYield(z, bz, source, bonus, all, rs, ts, 0, 12, HeaderSize(rs), [], more);
    assert [] + Concat(ts) == Concat(ts);
  }

  /** A patch file of one normal chunk, whose patch offset 0 points at the magic of the file itself, is
      accepted and yields nothing; every failure reported, it is refused. */
  lemma SilentExample(z: Zlib, bz: Bzip, source: seq<byte>, bonus: Option<seq<byte>>)
    ensures var patch := IMGDIFF_MAGIC + (Word4(1) + RecordBytes(NormalRecord(0, 0, []), 0));
            |patch| == 40 && Interpreted(z, bz, source, patch, bonus) == Ok([]) &&
            StrictlyInterpreted(z, bz, source, patch, bonus) == Err
  {
    hide Word4, Word8, Word4At, Word8At, ReachesFailure, StrictlyInterpreted, OneChunk;
    var record := Word4(CHUNK_NORMAL) + (Word8(0) + (Word8(0) + Word8(0)));
    var patch, none: seq<byte> := IMGDIFF_MAGIC + (Word4(1) + record), [];
    assert patch[0..] == IMGDIFF_MAGIC + (Word4(1) + record) + none;
    BsDiff.Peel(patch, 0, IMGDIFF_MAGIC, Word4(1) + record, none);
    ReadBack4(patch, 8, 1, record, none);
    ReadBack4(patch, 12, CHUNK_NORMAL, Word8(0) + (Word8(0) + Word8(0)), none);
    ReadBack8(patch, 16, 0, Word8(0) + Word8(0), none);
    ReadBack8(patch, 24, 0, Word8(0), none);
    assert Word8(0) + none == Word8(0) + [] + none;
    ReadBack8(patch, 32, 0, [], none);
    assert patch[0..8] == IMGDIFF_MAGIC && patch[0..8] != BSDIFF_MAGIC;
    assert Extract(source, 0, 0) == Some(none);
    assert Fails(bz, source, patch, 12);
    StrictChunkIs(z, bz, source, patch, bonus, 0, 12);
    assert none + none == none;
    assert ChunksFrom(z, bz, source, patch, bonus, 1, 1, 40, none) == Ok((40, none));
    ReachesHere(z, bz, source, patch, bonus, 0, 1, 12);
    SilentExactly(z, bz, source, patch, bonus);
  }

  lemma ReachesHere(z: Zlib, bz: Bzip, source: seq<byte>, patch: seq<byte>, bonus: Option<seq<byte>>, i: nat,
                    num: int, pos: nat)
    requires i < num && Fails(bz, source, patch, pos)
    ensures ReachesFailure(z, bz, source, patch, bonus, i, num, pos)
  {}
}
