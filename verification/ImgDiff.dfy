/** applypatch/imgdiff.c in image mode: cutting two images into chunks, patching chunk by chunk and
    writing the container. */
module ImgDiff {
  import opened Bytes
  import opened Codec
  import opened BsPatch
  import BsDiff
  import opened Chunks
  import opened ImgPatch
  import opened ImgFormat

  const GZIP_HEADER_LEN := 10
  const GZIP_FOOTER_LEN := 8
  const UNSET := Params(0, 0, 0, 0, 0)

  /** The image with zero bytes behind it. */
  function Padded(img: seq<byte>, i: nat): byte
  {
    if i < |img| then img[i] else 0
  }

  /** The four bytes that start a gzip member, the zero bytes behind the image included. */
  predicate MagicAt(img: seq<byte>, pos: nat)
  {
    Padded(img, pos) == 0x1f && Padded(img, pos + 1) == 0x8b &&
    Padded(img, pos + 2) == 0x08 && Padded(img, pos + 3) == 0x00
  }

  /** The image ends in the first three bytes of a gzip member. */
  predicate EndsInMagic(img: seq<byte>)
  {
    |img| >= 3 && img[|img| - 3..] == [0x1f, 0x8b, 0x08]
  }

  /** What reading an image comes to. NoProgress stands for the endless loop on the three bytes
      1f 8b 08 at the end of an image, Corrupt for input on which the C code reads out of bounds or
      waits for the end of a broken deflate stream. */
  datatype Reading = Chunked(cs: seq<Chunk>) | FooterMismatch | NoProgress | Corrupt | TooLarge

  /** A deflate chunk holds what its extent of the image inflates to. */
  ghost predicate Sound(z: Zlib, img: seq<byte>, c: Chunk)
  {
    c.Deflate? ==>
      c.at + c.deflateLen <= |img| && z.inflate(img[c.at..]) == Some((c.deflateLen, c.data)) && |c.data| < TWO_TO_31
  }

  ghost predicate AllSound(z: Zlib, img: seq<byte>, cs: seq<Chunk>)
  {
    forall i :: 0 <= i < |cs| ==> Sound(z, img, cs[i])
  }

  lemma {:induction false} TilesAppend(cs: seq<Chunk>, ds: seq<Chunk>, a: int, b: int, c: int)
    requires Tiles(cs, a, b) && Tiles(ds, b, c)
    ensures Tiles(cs + ds, a, c)
    decreases |cs|
  {
    if cs == [] {
      assert cs + ds == ds;
    } else {
      TilesAppend(cs[1..], ds, a + cs[0].Extent(), b, c);
      assert (cs + ds)[1..] == cs[1..] + ds;
    }
  }

  /** The chunks end in a gzip footer that ends at q. */
  predicate EndsInFooter(cs: seq<Chunk>, q: int)
  {
    |cs| >= 2 && cs[|cs| - 2].Deflate? && cs[|cs| - 1].Normal? && cs[|cs| - 1].start + GZIP_FOOTER_LEN == q
  }

  /** Byte q of the image lies in a gzip footer. */
  ghost predicate InFooter(cs: seq<Chunk>, q: int)
  {
    exists i :: 0 < i < |cs| && cs[i - 1].Deflate? && cs[i].Normal? && cs[i].start <= q < cs[i].start + GZIP_FOOTER_LEN
  }

  /** Chunks read on from pos to next extend a reading up to pos. */
  lemma ReadingExtends(z: Zlib, img: seq<byte>, cs: seq<Chunk>, ds: seq<Chunk>, pos: int, next: int)
    requires Tiles(cs, 0, pos) && AllSound(z, img, cs) && Tiles(ds, pos, next) && AllSound(z, img, ds)
    ensures Tiles(cs + ds, 0, next) && AllSound(z, img, cs + ds)
    ensures forall q :: InFooter(cs, q) ==> InFooter(cs + ds, q)
    ensures EndsInFooter(ds, next) ==> forall q :: next - GZIP_FOOTER_LEN <= q < next ==> InFooter(cs + ds, q)
  {
    TilesAppend(cs, ds, 0, pos, next);
    var all := cs + ds;
    forall q | InFooter(cs, q) ensures InFooter(all, q) {
      var i :| 0 < i < |cs| && cs[i - 1].Deflate? && cs[i].Normal? && cs[i].start <= q < cs[i].start + GZIP_FOOTER_LEN;
      assert all[i - 1] == cs[i - 1] && all[i] == cs[i];
    }
    if EndsInFooter(ds, next) {
      assert all[|all| - 2] == ds[|ds| - 2] && all[|all| - 1] == ds[|ds| - 1];
    }
  }

  /** The gzip member at pos: header, compressed data and footer become three chunks, and the
      reading goes on behind them. */
  function Member(z: Zlib, img: seq<byte>, pos: nat): (Reading, nat)
  {
    var at := pos + GZIP_HEADER_LEN;
    if at > |img| || z.inflate(img[at..]) == None then (Corrupt, pos)
    else
      var (k, d) := z.inflate(img[at..]).value;
      var next := at + k + GZIP_FOOTER_LEN;
      if |d| >= TWO_TO_31 then (TooLarge, pos)
      else if next > |img| then (Corrupt, pos)
      else if FromDigits(img[next - 4..next]) != |d| then (FooterMismatch, pos)
      else
        (Chunked([Normal(pos, pos, GZIP_HEADER_LEN), Deflate(at, at, k, d, UNSET, None),
                  Normal(at + k, at + k, GZIP_FOOTER_LEN)]), next)
  }

  lemma MemberReads(z: Zlib, img: seq<byte>, pos: nat)
    requires z.Lawful()
    ensures var (r, next) := Member(z, img, pos);
            !r.NoProgress? &&
            (r.Chunked? ==>
              pos < next <= |img| && Tiles(r.cs, pos, next) && AllSound(z, img, r.cs) && EndsInFooter(r.cs, next))
  {
    var (r, next) := Member(z, img, pos);
    if r.Chunked? {
      assert Tiles([r.cs[2]], next - GZIP_FOOTER_LEN, next) && Tiles([r.cs[1], r.cs[2]], pos + GZIP_HEADER_LEN, next);
      assert r.cs[1..] == [r.cs[1], r.cs[2]] && [r.cs[1], r.cs[2]][1..] == [r.cs[2]];
    }
  }

  /** The first place from pos on where a gzip member starts, or the end of the image. */
  function NextMember(img: seq<byte>, pos: nat): (q: nat)
    requires pos <= |img|
    ensures pos <= q <= |img|
    decreases |img| - pos
  {
    if pos == |img| || MagicAt(img, pos) then pos else NextMember(img, pos + 1)
  }

  function Before(cs: seq<Chunk>, r: Reading): Reading
  {
    if r.Chunked? then Chunked(cs + r.cs) else r
  }

  /** What reading the image from pos on comes to. */
  function ReadFrom(z: Zlib, img: seq<byte>, pos: nat): Reading
    requires pos <= |img|
    decreases |img| - pos
  {
    if pos == |img| then Chunked([])
    else if |img| - pos >= 4 && MagicAt(img, pos) then
      var (m, next) := Member(z, img, pos);
      if !m.Chunked? || !(pos < next <= |img|) then m else Before(m.cs, ReadFrom(z, img, next))
    else
      var q := NextMember(img, pos);
      if q == pos then NoProgress else Before([Normal(pos, pos, q - pos)], ReadFrom(z, img, q))
  }

  /** The scan for the next gzip member: how far the normal chunk at pos reaches. */
  method ScanNormal(img: seq<byte>, pos: nat) returns (len: nat)
    requires pos <= |img|
    ensures pos + len == NextMember(img, pos)
    ensures forall i :: pos <= i < pos + len ==> !MagicAt(img, i)
  {
    len := 0;
    while len < |img| - pos && !MagicAt(img, pos + len)
      invariant pos + len <= |img| && NextMember(img, pos) == NextMember(img, pos + len)
      invariant forall i :: pos <= i < pos + len ==> !MagicAt(img, i)
    {
      len := len + 1;
    }
  }

  lemma ReadFromStep(z: Zlib, img: seq<byte>, cs: seq<Chunk>, ds: seq<Chunk>, pos: nat, next: nat)
    requires pos <= |img| && next <= |img| && ReadFrom(z, img, 0) == Before(cs, ReadFrom(z, img, pos))
    requires ReadFrom(z, img, pos) == Before(ds, ReadFrom(z, img, next))
    ensures ReadFrom(z, img, 0) == Before(cs + ds, ReadFrom(z, img, next))
  {
    var r := ReadFrom(z, img, next);
    assert r.Chunked? ==> cs + (ds + r.cs) == cs + ds + r.cs;
  }

  /** The reading that is at pos comes to start a chunk at q. */
  predicate Visits(z: Zlib, img: seq<byte>, pos: nat, q: int)
    requires pos <= |img|
    decreases |img| - pos
  {
    pos == q ||
    (pos < |img| &&
     if |img| - pos >= 4 && MagicAt(img, pos) then
       var (m, next) := Member(z, img, pos);
       m.Chunked? && pos < next <= |img| && Visits(z, img, next, q)
     else
       var n := NextMember(img, pos);
       n != pos && Visits(z, img, n, q))
  }

  /** The loop never ends exactly when the image ends in 1f 8b 08 and the reading comes to start a chunk
      at these bytes, neither failing before them nor taking them for part of a gzip member. */
  lemma {:induction false} StuckExactly(z: Zlib, img: seq<byte>, pos: nat)
    requires pos <= |img|
    ensures ReadFrom(z, img, pos) == NoProgress <==> EndsInMagic(img) && Visits(z, img, pos, |img| - 3)
    decreases |img| - pos
  {
    if pos < |img| {
      if |img| - pos >= 4 && MagicAt(img, pos) {
        var (m, next) := Member(z, img, pos);
        hide Member;
        if m.Chunked? && pos < next <= |img| {
          StuckExactly(z, img, next);
        }
      } else {
        var n := NextMember(img, pos);
        if n != pos {
          StuckExactly(z, img, n);
        }
      }
    }
  }

  /** Three bytes that are never read to the end. */
  lemma StuckExample(z: Zlib)
    ensures ReadFrom(z, [0x1f, 0x8b, 0x08], 0) == NoProgress
  {
    assert MagicAt([0x1f, 0x8b, 0x08], 0);
  }

  /** One turn of the loop of ReadImage: the chunks that start at pos, or why there are none. */
  method ReadTurn(z: Zlib, img: seq<byte>, pos: nat) returns (r: Reading, next: nat)
    requires z.Lawful() && pos < |img|
    ensures !r.Chunked? ==> ReadFrom(z, img, pos) == r
    ensures r.Chunked? ==> pos < next <= |img| && Tiles(r.cs, pos, next) && AllSound(z, img, r.cs) &&
                           ReadFrom(z, img, pos) == Before(r.cs, ReadFrom(z, img, next))
    ensures r.Chunked? ==> EndsInFooter(r.cs, next) || forall i :: pos <= i < next ==> !MagicAt(img, i)
  {
    hide *;
    if |img| - pos >= 4 && MagicAt(img, pos) {
      MemberReads(z, img, pos);
      MemberStep(z, img, pos);
      var m := Member(z, img, pos);
      r, next := m.0, m.1;
    } else {
      var len := ScanNormal(img, pos);
      NormalStep(z, img, pos, len);
      NormalTiles(z, img, pos, len);
      r, next := if len == 0 then NoProgress else Chunked([Normal(pos, pos, len)]), pos + len;
    }
  }

  /** Past the last three bytes, if they are 1f 8b 08, the reading has taken the first of them for part of
      a gzip footer. */
  ghost predicate PastEnd(img: seq<byte>, cs: seq<Chunk>, pos: nat)
  {
    pos > |img| - 3 && EndsInMagic(img) ==> InFooter(cs, |img| - 3)
  }

  lemma TurnPastEnd(z: Zlib, img: seq<byte>, cs: seq<Chunk>, ds: seq<Chunk>, pos: nat, next: nat)
    requires Tiles(cs, 0, pos) && AllSound(z, img, cs) && Tiles(ds, pos, next) && AllSound(z, img, ds)
    requires PastEnd(img, cs, pos) && next <= |img|
    requires EndsInFooter(ds, next) || forall i :: pos <= i < next ==> !MagicAt(img, i)
    ensures PastEnd(img, cs + ds, next)
  {
    EndMagic(img);
    hide EndsInMagic, MagicAt, InFooter, EndsInFooter, Tiles, AllSound;
    ReadingExtends(z, img, cs, ds, pos, next);
  }

  /** ReadImage: the chunks tile the image, or the reading fails, or it makes no progress at a place where
      the image ends in 1f 8b 08 (StuckExactly says when). */
  method ReadImage(z: Zlib, img: seq<byte>) returns (r: Reading)
    requires z.Lawful()
    ensures r == ReadFrom(z, img, 0)
    ensures r.Chunked? ==> Tiles(r.cs, 0, |img|) && AllSound(z, img, r.cs)
    ensures r.NoProgress? <==> EndsInMagic(img) && Visits(z, img, 0, |img| - 3)
    ensures r.Chunked? && EndsInMagic(img) ==> InFooter(r.cs, |img| - 3)
  {
    StuckExactly(z, img, 0);
    var pos: nat, cs := 0, [];
    assert PastEnd(img, cs, 0) by { EndMagic(img); }
    hide Zlib.Lawful, Visits, ReadFrom, Tiles, AllSound, InFooter, EndsInFooter, MagicAt, EndsInMagic;
    ReadingStarts(z, img);
    while pos < |img|
      invariant pos <= |img| && Tiles(cs, 0, pos) && AllSound(z, img, cs) && PastEnd(img, cs, pos)
      invariant ReadFrom(z, img, 0) == Before(cs, ReadFrom(z, img, pos))
      decreases |img| - pos
    {
      var m, next := ReadTurn(z, img, pos);
      if !m.Chunked? {
        return m;
      }
      ReadFromStep(z, img, cs, m.cs, pos, next);
      ReadingExtends(z, img, cs, m.cs, pos, next);
      TurnPastEnd(z, img, cs, m.cs, pos, next);
      pos, cs := next, cs + m.cs;
    }
    r := Chunked(cs);
    ReadEnds(z, img);
    assert cs + [] == cs;
  }

  lemma EndMagic(img: seq<byte>)
    ensures EndsInMagic(img) ==> |img| >= 3 && MagicAt(img, |img| - 3)
  {}

  lemma MemberStep(z: Zlib, img: seq<byte>, pos: nat)
    requires |img| - pos >= 4 && MagicAt(img, pos)
    ensures var (m, next) := Member(z, img, pos);
            (!m.Chunked? ==> ReadFrom(z, img, pos) == m) &&
            (m.Chunked? && pos < next <= |img| ==> ReadFrom(z, img, pos) == Before(m.cs, ReadFrom(z, img, next)))
  {
    hide Member, MagicAt;
  }

  lemma NormalStep(z: Zlib, img: seq<byte>, pos: nat, len: nat)
    requires pos < |img| && NextMember(img, pos) == pos + len && !(|img| - pos >= 4 && MagicAt(img, pos))
    ensures ReadFrom(z, img, pos) ==
              if len == 0 then NoProgress else Before([Normal(pos, pos, len)], ReadFrom(z, img, pos + len))
  {
    hide MagicAt;
  }

  lemma ReadEnds(z: Zlib, img: seq<byte>)
    ensures ReadFrom(z, img, |img|) == Chunked([])
  {}

  lemma ReadingStarts(z: Zlib, img: seq<byte>)
    ensures Tiles([], 0, 0) && AllSound(z, img, []) && ReadFrom(z, img, 0) == Before([], ReadFrom(z, img, 0))
  {
    var r := ReadFrom(z, img, 0);
    assert r.Chunked? ==> [] + r.cs == r.cs;
  }

  lemma NormalTiles(z: Zlib, img: seq<byte>, pos: nat, len: nat)
    ensures Tiles([Normal(pos, pos, len)], pos, pos + len) && AllSound(z, img, [Normal(pos, pos, len)])
  {}

  const Z_DEFLATED := 8
  const Z_DEFAULT_STRATEGY := 0

  /** The encoder parameters that are tried. */
  function Encoder(level: int): Params { Params(level, Z_DEFLATED, -15, 8, Z_DEFAULT_STRATEGY) }

  /** Compressing the chunk's data with p gives back its extent of the image. */
  predicate Reconstructs(z: Zlib, img: seq<byte>, c: Chunk, p: Params)
  {
    c.Deflate? && c.at + c.deflateLen <= |img| && z.deflate(p, c.data) == img[c.at..c.at + c.deflateLen]
  }

  /** The parameters that reproduce the chunk, the lower level first. */
  function Recoder(z: Zlib, img: seq<byte>, c: Chunk): Params
  {
    if Reconstructs(z, img, c, Encoder(6)) then Encoder(6) else Encoder(9)
  }

  /** ReconstructDeflateChunk: finds parameters that reproduce the compressed data, of the two
      levels it tries. */
  method ReconstructDeflateChunk(z: Zlib, img: seq<byte>, c: Chunk) returns (ok: bool, p: Params)
    ensures ok <==> Reconstructs(z, img, c, Encoder(6)) || Reconstructs(z, img, c, Encoder(9))
    ensures ok ==> p == Recoder(z, img, c) && Reconstructs(z, img, c, p) && FitsParams(p)
    ensures ok ==> p == Params(6, 8, -15, 8, 0) || p == Params(9, 8, -15, 8, 0)
  {
    p := Encoder(6);
    if !c.Deflate? {
      return false, p;
    }
    var level := 6;
    while level <= 9
      invariant level == 6 || level == 9 || level == 12
      invariant level > 6 ==> !Reconstructs(z, img, c, Encoder(6))
      invariant level > 9 ==> !Reconstructs(z, img, c, Encoder(9))
      decreases 12 - level
    {
      p := Encoder(level);
      if Reconstructs(z, img, c, p) {
        return true, p;
      }
      level := level + 3;
    }
    ok := false;
  }

  /** ChangeDeflateChunkToNormal. */
  function AsNormal(c: Chunk): Chunk
  {
    if c.Deflate? then Normal(c.start, c.at, c.deflateLen) else c
  }

  /** AreChunksEqual for two deflate chunks: the compressed bytes are the same. */
  predicate SameCompressed(srcImg: seq<byte>, src: Chunk, tgtImg: seq<byte>, tgt: Chunk)
  {
    src.Deflate? && tgt.Deflate? && src.at + src.deflateLen <= |srcImg| && tgt.at + tgt.deflateLen <= |tgtImg| &&
    srcImg[src.at..src.at + src.deflateLen] == tgtImg[tgt.at..tgt.at + tgt.deflateLen]
  }

  /** d covers the same bytes as c. */
  predicate SamePlace(c: Chunk, d: Chunk)
  {
    c.start == d.start && c.at == d.at && c.Extent() == d.Extent()
  }

  lemma {:induction false} SamePlacesTile(cs: seq<Chunk>, ds: seq<Chunk>, from: int, to: int)
    requires Tiles(cs, from, to) && |cs| == |ds| && forall i :: 0 <= i < |cs| ==> SamePlace(cs[i], ds[i])
    ensures Tiles(ds, from, to)
    decreases |cs|
  {
    if cs != [] {
      SamePlacesTile(cs[1..], ds[1..], from + cs[0].Extent(), to);
    }
  }

  /** A target chunk that is still to be patched uncompressed can be recompressed exactly. */
  ghost predicate Settled(z: Zlib, img: seq<byte>, c: Chunk)
  {
    c.Deflate? ==> Reconstructs(z, img, c, c.params) && FitsParams(c.params)
  }

  /** What the reconstruction loop makes of chunk pair i. */
  ghost predicate PairSettled(z: Zlib, srcImg: seq<byte>, tgtImg: seq<byte>, s0: Chunk, t0: Chunk, s: Chunk, t: Chunk)
  {
    SamePlace(s0, s) && SamePlace(t0, t) && s.Normal? == t.Normal? &&
    (s == s0 || s == AsNormal(s0)) && Sound(z, srcImg, s) && Sound(z, tgtImg, t) && Settled(z, tgtImg, t)
  }

  method SettlePair(z: Zlib, srcImg: seq<byte>, tgtImg: seq<byte>, s0: Chunk, t0: Chunk) returns (s: Chunk, t: Chunk)
    requires Sound(z, srcImg, s0) && Sound(z, tgtImg, t0) && s0.Normal? == t0.Normal?
    ensures PairSettled(z, srcImg, tgtImg, s0, t0, s, t)
    ensures t.Deflate? <==> t0.Deflate? && !SameCompressed(srcImg, s0, tgtImg, t0) &&
                            (Reconstructs(z, tgtImg, t0, Encoder(6)) || Reconstructs(z, tgtImg, t0, Encoder(9)))
  {
    s, t := s0, t0;
    if t.Deflate? {
      var ok, p := ReconstructDeflateChunk(z, tgtImg, t);
      if !ok {
        s, t := AsNormal(s), AsNormal(t);
        return;
      }
      t := t.(params := p);
      if SameCompressed(srcImg, s, tgtImg, t) {
        s, t := AsNormal(s), AsNormal(t);
      }
    }
  }

  /** The loop over the target chunks that decides which of them are patched uncompressed. */
  method SettleChunks(z: Zlib, srcImg: seq<byte>, tgtImg: seq<byte>, src: array<Chunk>, tgt: array<Chunk>, num: nat)
    requires src != tgt && num <= src.Length && num <= tgt.Length
    requires AllSound(z, srcImg, src[..num]) && AllSound(z, tgtImg, tgt[..num]) && SameTypes(src[..num], tgt[..num])
    modifies src, tgt
    ensures forall i :: 0 <= i < num ==> PairSettled(z, srcImg, tgtImg, old(src[i]), old(tgt[i]), src[i], tgt[i])
  {
    assert forall i :: 0 <= i < num ==> src[i] == src[..num][i] && tgt[i] == tgt[..num][i];
    for i := 0 to num
      invariant forall k :: 0 <= k < i ==> PairSettled(z, srcImg, tgtImg, old(src[k]), old(tgt[k]), src[k], tgt[k])
      invariant forall k :: i <= k < num ==> src[k] == old(src[k]) && tgt[k] == old(tgt[k])
    {
      src[i], tgt[i] := SettlePair(z, srcImg, tgtImg, src[i], tgt[i]);
    }
  }

  /** Merging makes no new deflate chunks. */
  lemma {:induction false} MergedDeflates(cs: seq<Chunk>, i: int)
    requires 0 <= i < |Merged(cs)| && Merged(cs)[i].Deflate?
    ensures Merged(cs)[i] in cs
    decreases |cs|
  {
    var n := RunLength(cs);
    BlockExtent(cs);
    if i > 0 {
      MergedDeflates(cs[n..], i - 1);
      assert Merged(cs)[i] == Merged(cs[n..])[i - 1];
    } else {
      RunIsSolid(cs);
    }
  }

  lemma MergedKeeps(z: Zlib, img: seq<byte>, cs: seq<Chunk>)
    ensures AllSound(z, img, cs) ==> AllSound(z, img, Merged(cs))
    ensures (forall c :: c in cs ==> Settled(z, img, c)) ==> forall c :: c in Merged(cs) ==> Settled(z, img, c)
  {
    forall i | 0 <= i < |Merged(cs)| && Merged(cs)[i].Deflate? ensures Merged(cs)[i] in cs {
      MergedDeflates(cs, i);
    }
  }

  /** The bytes of the image that a chunk covers. */
  function Piece(img: seq<byte>, c: Chunk): seq<byte>
    requires c.start + c.Extent() <= |img|
  {
    img[c.start..c.start + c.Extent()]
  }

  lemma {:induction false} TilesInImage(cs: seq<Chunk>, from: nat, to: nat, i: int)
    requires Tiles(cs, from, to) && 0 <= i < |cs|
    ensures from <= cs[i].start == cs[i].at && cs[i].start + cs[i].Extent() <= to
    decreases |cs|
  {
    TilesUpward(cs[1..], from + cs[0].Extent(), to);
    if i > 0 {
      TilesInImage(cs[1..], from + cs[0].Extent(), to, i - 1);
    }
  }

  lemma {:induction false} TilesUpward(cs: seq<Chunk>, from: nat, to: int)
    requires Tiles(cs, from, to)
    ensures from <= to
    decreases |cs|
  {
    if cs != [] {
      TilesUpward(cs[1..], from + cs[0].Extent(), to);
    }
  }

  /** The pieces of a tiling add up to what it covers. */
  lemma {:induction false} PiecesAddUp(img: seq<byte>, cs: seq<Chunk>, ts: seq<seq<byte>>, from: nat, to: nat)
    requires Tiles(cs, from, to) && to <= |img| && |ts| == |cs|
    requires forall i :: 0 <= i < |cs| ==> cs[i].start + cs[i].Extent() <= |img| && ts[i] == Piece(img, cs[i])
    ensures from <= to && Concat(ts) == img[from..to]
    decreases |cs|
  {
    TilesUpward(cs, from, to);
    if cs != [] {
      PiecesAddUp(img, cs[1..], ts[1..], from + cs[0].Extent(), to);
      assert img[from..to] == img[from..from + cs[0].Extent()] + img[from + cs[0].Extent()..to];
    }
  }

  /** MakePatch for a normal chunk: raw exactly if it is short or the patch that bsdiff makes is no
      shorter. The sorted suffixes of the
      source chunk, if they are there from an earlier patch, are used again. */
  method PatchNormal(z: Zlib, bz: Bzip, srcImg: seq<byte>, tgtImg: seq<byte>, src: Chunk, tgt: Chunk, IP: array?<int>)
      returns (r: Record, I: array?<int>, ghost diff: seq<byte>)
    requires bz.Faithful() && |srcImg| < TWO_TO_31 && |tgtImg| < TWO_TO_31
    requires src.Normal? && tgt.Normal? && src.start == src.at
    requires src.start + src.Extent() <= |srcImg| && tgt.start + tgt.Extent() <= |tgtImg|
    requires IP != null ==> IP.Length == src.len + 1 && forall i :: 0 <= i < IP.Length ==> 0 <= IP[i] <= src.len
    ensures Fits(r) && Produces(z, bz, srcImg, [], r, Piece(tgtImg, tgt))
    ensures tgt.len > 160 ==> PatchesTo(bz, Piece(srcImg, src), diff, Piece(tgtImg, tgt))
    ensures r == if tgt.len <= 160 || tgt.len <= |diff| then RawRecord(Piece(tgtImg, tgt))
                 else NormalRecord(src.start, src.len, diff)
    ensures I != null ==> I.Length == src.len + 1 && forall i :: 0 <= i < I.Length ==> 0 <= I[i] <= src.len
  {
    hide PatchesTo, Bzip.Faithful;
    SizesFitOffsets();
    var piece, from := Piece(tgtImg, tgt), srcImg[src.at..src.at + src.len];
    I, diff := IP, [];
    if tgt.len <= 160 {
      return RawRecord(piece), IP, diff;
    }
    var patch, sorted := BsDiff.Diff(bz, from, IP, piece);
    I, diff := sorted, patch;
    if tgt.len <= |patch| {
      return RawRecord(piece), I, diff;
    }
    r := NormalRecord(src.start, src.len, patch);
  }

  /** The data of a deflate chunk is what its bytes of the image inflate to. */
  ghost predicate Expands(z: Zlib, img: seq<byte>, c: Chunk)
  {
    c.Deflate? ==>
      c.at + c.deflateLen <= |img| && |c.data| < TWO_TO_31 &&
      var e := z.inflate(img[c.at..c.at + c.deflateLen]);
      e.Some? && e.value.1 == c.data
  }

  /** MakePatch for a deflate chunk: the patch is between the uncompressed data, the source with
      the bonus data behind it. */
  method PatchDeflate(z: Zlib, bz: Bzip, srcImg: seq<byte>, tgtImg: seq<byte>, src: Chunk, tgt: Chunk, bonus: seq<byte>)
      returns (r: Record)
    requires bz.Faithful() && |srcImg| < TWO_TO_31 && |tgtImg| < TWO_TO_31
    requires src.Deflate? && tgt.Deflate? && Expands(z, srcImg, src) && Settled(z, tgtImg, tgt)
    requires src.start == src.at && tgt.start == tgt.at && |src.data| + |bonus| < TWO_TO_31 && |tgt.data| < TWO_TO_31
    ensures tgt.start + tgt.Extent() <= |tgtImg|
    ensures r.DeflateRecord? && Fits(r) && Produces(z, bz, srcImg, bonus, r, Piece(tgtImg, tgt))
  {
    hide PatchesTo, Bzip.Faithful;
    SizesFitOffsets();
    var from := src.data + bonus;
    var patch, _ := BsDiff.Diff(bz, from, null, tgt.data);
    r := DeflateRecord(src.start, src.deflateLen, |from|, |tgt.data|, tgt.params, patch);
  }

  lemma InflateExtent(z: Zlib, img: seq<byte>, c: Chunk)
    requires z.Lawful() && c.Deflate? && Sound(z, img, c)
    ensures Expands(z, img, c) && |c.data| < TWO_TO_31
  {
    assert img[c.at..][..c.deflateLen] == img[c.at..c.at + c.deflateLen];
  }

  /** The chunks tile the image and hold what it holds. */
  ghost predicate Prepared(z: Zlib, img: seq<byte>, cs: seq<Chunk>)
  {
    Tiles(cs, 0, |img|) && AllSound(z, img, cs)
  }

  lemma PreparedMerged(z: Zlib, img: seq<byte>, cs: seq<Chunk>)
    requires Prepared(z, img, cs)
    ensures Prepared(z, img, Merged(cs))
  {
    MergedTiles(cs, 0, |img|);
    MergedKeeps(z, img, cs);
  }

  ghost predicate AllSettled(z: Zlib, img: seq<byte>, cs: seq<Chunk>)
  {
    forall c :: c in cs ==> Settled(z, img, c)
  }

  /** The two lists are ready to be patched pair by pair. */
  ghost predicate Ready(z: Zlib, srcImg: seq<byte>, tgtImg: seq<byte>, src: seq<Chunk>, tgt: seq<Chunk>)
  {
    Prepared(z, srcImg, src) && Prepared(z, tgtImg, tgt) && SameTypes(src, tgt) && AllSettled(z, tgtImg, tgt)
  }

  lemma SettledIsReady(z: Zlib, srcImg: seq<byte>, tgtImg: seq<byte>, src0: seq<Chunk>, tgt0: seq<Chunk>,
                       src: seq<Chunk>, tgt: seq<Chunk>)
    requires Prepared(z, srcImg, src0) && Prepared(z, tgtImg, tgt0)
    requires |src0| == |src| == |tgt0| == |tgt|
    requires forall i :: 0 <= i < |src| ==> PairSettled(z, srcImg, tgtImg, src0[i], tgt0[i], src[i], tgt[i])
    ensures Ready(z, srcImg, tgtImg, src, tgt)
  {
    SamePlacesTile(src0, src, 0, |srcImg|);
    SamePlacesTile(tgt0, tgt, 0, |tgtImg|);
  }

  lemma ReadyMerged(z: Zlib, srcImg: seq<byte>, tgtImg: seq<byte>, src: seq<Chunk>, tgt: seq<Chunk>)
    requires Ready(z, srcImg, tgtImg, src, tgt)
    ensures Ready(z, srcImg, tgtImg, Merged(src), Merged(tgt))
  {
    hide Settled, Sound, Tiles, Merged;
    PreparedMerged(z, srcImg, src);
    PreparedMerged(z, tgtImg, tgt);
    MergedKeeps(z, tgtImg, tgt);
    MergedAlike(src, tgt, 0, |srcImg|, 0, |tgtImg|);
  }

  /** What chunk pair i offers to MakePatch. */
  lemma ReadyPair(z: Zlib, srcImg: seq<byte>, tgtImg: seq<byte>, src: seq<Chunk>, tgt: seq<Chunk>, i: int)
    requires Ready(z, srcImg, tgtImg, src, tgt) && 0 <= i < |tgt|
    ensures |src| == |tgt| && src[i].Normal? == tgt[i].Normal?
    ensures Sound(z, srcImg, src[i]) && Sound(z, tgtImg, tgt[i]) && Settled(z, tgtImg, tgt[i])
    ensures src[i].Deflate? ==> |src[i].data| < TWO_TO_31
    ensures src[i].start == src[i].at && src[i].start + src[i].Extent() <= |srcImg|
    ensures tgt[i].start == tgt[i].at && tgt[i].start + tgt[i].Extent() <= |tgtImg|
  {
    TilesInImage(src, 0, |srcImg|, i);
    TilesInImage(tgt, 0, |tgtImg|, i);
  }

  /** The records written so far produce their pieces of the target. */
  ghost predicate RecordsDone(z: Zlib, bz: Bzip, srcImg: seq<byte>, tgtImg: seq<byte>, tgt: seq<Chunk>,
                              bonus: Option<seq<byte>>, rs: seq<Record>)
  {
    |rs| <= |tgt| && forall k :: 0 <= k < |rs| ==>
      Fits(rs[k]) && tgt[k].start + tgt[k].Extent() <= |tgtImg| &&
      Produces(z, bz, srcImg, BonusFor(bonus, k), rs[k], Piece(tgtImg, tgt[k]))
  }

  /** One record of the patch loop; it gives up on bonus data for a normal chunk and on source data
      that outgrows 2^31 bytes. */
  method MakeRecord(z: Zlib, bz: Bzip, srcImg: seq<byte>, tgtImg: seq<byte>, src: Chunk, tgt: Chunk, bonus: seq<byte>)
      returns (ok: bool, r: Record)
    requires z.Lawful() && bz.Faithful() && |srcImg| < TWO_TO_31 && |tgtImg| < TWO_TO_31
    requires src.Normal? == tgt.Normal? && Sound(z, srcImg, src) && Sound(z, tgtImg, tgt) && Settled(z, tgtImg, tgt)
    requires src.start == src.at && src.start + src.Extent() <= |srcImg| && tgt.start == tgt.at
    requires tgt.start + tgt.Extent() <= |tgtImg|
    ensures ok <==> if src.Normal? then bonus == [] else |src.data| + |bonus| < TWO_TO_31
    ensures ok ==> Fits(r) && Produces(z, bz, srcImg, bonus, r, Piece(tgtImg, tgt))
  {
    hide *;
    ok, r := true, RawRecord([]);
    if src.Normal? {
      if bonus != [] { return false, r; }
      var I;
      ghost var diff;
      r, I, diff := PatchNormal(z, bz, srcImg, tgtImg, src, tgt, null);
    } else {
      if |src.data| + |bonus| >= TWO_TO_31 { return false, r; }
      InflateExtent(z, srcImg, src);
      InflateExtent(z, tgtImg, tgt);
      r := PatchDeflate(z, bz, srcImg, tgtImg, src, tgt, bonus);
    }
  }

  method MakeRecords(z: Zlib, bz: Bzip, srcImg: seq<byte>, tgtImg: seq<byte>, src: array<Chunk>, tgt: array<Chunk>,
                     num: nat, bonus: Option<seq<byte>>)
    returns (ok: bool, rs: seq<Record>)
    requires z.Lawful() && bz.Faithful() && |srcImg| < TWO_TO_31 && |tgtImg| < TWO_TO_31
    requires num <= src.Length && num <= tgt.Length && Ready(z, srcImg, tgtImg, src[..num], tgt[..num])
    ensures ok ==> |rs| == num && RecordsDone(z, bz, srcImg, tgtImg, tgt[..num], bonus, rs)
    ensures bonus == None || bonus.value == [] ==> ok
  {
    ok, rs := true, [];
    hide Ready, Produces, Fits, Zlib.Lawful, Bzip.Faithful, Sound, Settled;
    for i := 0 to num
      invariant |rs| == i && RecordsDone(z, bz, srcImg, tgtImg, tgt[..num], bonus, rs)
    {
      ReadyPair(z, srcImg, tgtImg, src[..num], tgt[..num], i);
      var r;
      ok, r := MakeRecord(z, bz, srcImg, tgtImg, src[i], tgt[i], BonusFor(bonus, i));
      if !ok { return; }
      rs := rs + [r];
    }
  }

  method MeasureHeader(rs: seq<Record>) returns (total: nat)
    ensures total == HeaderSize(rs)
  {
    total := 12;
    assert rs[0..] == rs;
    for i := 0 to |rs|
      invariant total + RecordsSize(rs[i..]) == HeaderSize(rs)
    {
      assert rs[i..][1..] == rs[i + 1..];
      total := total + RecordSize(rs[i]);
    }
  }

  method WriteRecords(rs: seq<Record>, total: nat) returns (out: seq<byte>)
    requires AllFit(rs) && Fits8(total + |PatchBytes(rs)|)
    ensures out == RecordsBytes(rs, total)
  {
    hide *;
    out := [];
    assert rs[0..] == rs && out + RecordsBytes(rs, total) == RecordsBytes(rs, total);
    var offset: nat := total;
    for i := 0 to |rs|
      invariant AllFit(rs[i..]) && Fits8(offset + |PatchBytes(rs[i..])|)
      invariant out + RecordsBytes(rs[i..], offset) == RecordsBytes(rs, total)
    {
      assert rs[i..][1..] == rs[i + 1..] && rs[i..][0] == rs[i];
      ghost var rest := RecordsSplit(rs[i..], offset);
      assert out + (RecordBytes(rs[i], offset) + rest) == out + RecordBytes(rs[i], offset) + rest;
      out := out + RecordBytes(rs[i], offset);
      offset := offset + |PatchOf(rs[i])|;
    }
    RecordsOfNone(rs[|rs|..], offset);
  }

  lemma RecordsOfNone(rs: seq<Record>, off: nat)
    requires rs == [] && AllFit(rs) && Fits8(off + |PatchBytes(rs)|)
    ensures RecordsBytes(rs, off) == []
  {}

  method WritePatches(rs: seq<Record>) returns (out: seq<byte>)
    ensures out == PatchBytes(rs)
  {
    out := [];
    assert rs[0..] == rs;
    for i := 0 to |rs|
      invariant out + PatchBytes(rs[i..]) == PatchBytes(rs)
    {
      assert rs[i..][1..] == rs[i + 1..];
      if !rs[i].RawRecord? {
        out := out + rs[i].patch;
      }
    }
  }

  /** Writing the container: the header size first, then the records with the offsets of their
      patches, then the patches. */
  method WriteContainer(rs: seq<Record>) returns (out: seq<byte>)
    requires Writable(rs)
    ensures out == Container(rs)
  {
    hide RecordsBytes, PatchBytes, Word4, RecordsSize;
    var total := MeasureHeader(rs);
    var records := WriteRecords(rs, total);
    var patches := WritePatches(rs);
    out := IMGDIFF_MAGIC + Word4(|rs|) + records + patches;
    assert out == IMGDIFF_MAGIC + (Word4(|rs|) + (records + patches));
  }

  /** Merges both lists and checks that they have the same structure. */
  method Align(z: Zlib, srcImg: seq<byte>, tgtImg: seq<byte>, src: array<Chunk>, tgt: array<Chunk>)
      returns (ok: bool, num: nat)
    requires src != tgt && Prepared(z, srcImg, src[..]) && Prepared(z, tgtImg, tgt[..])
    modifies src, tgt
    ensures ok <==> SameTypes(Merged(old(src[..])), Merged(old(tgt[..])))
    ensures ok ==> num <= src.Length && num <= tgt.Length && SameTypes(src[..num], tgt[..num])
    ensures ok ==> Prepared(z, srcImg, src[..num]) && Prepared(z, tgtImg, tgt[..num])
  {
    hide Prepared, Merged;
    assert src[..src.Length] == src[..] && tgt[..tgt.Length] == tgt[..];
    PreparedMerged(z, srcImg, src[..]);
    PreparedMerged(z, tgtImg, tgt[..]);
    num := MergeAdjacentNormalChunks(tgt, tgt.Length);
    var numSrc := MergeAdjacentNormalChunks(src, src.Length);
    if numSrc != num { return false, num; }
    for i := 0 to num
      invariant forall k :: 0 <= k < i ==> src[k].Normal? == tgt[k].Normal?
    {
      if src[i].Normal? != tgt[i].Normal? { return false, num; }
    }
    ok := true;
  }

  /** Decides which chunks are patched uncompressed and merges again; the lists keep the same
      structure. */
  method SettleAndMerge(z: Zlib, srcImg: seq<byte>, tgtImg: seq<byte>, src: array<Chunk>, tgt: array<Chunk>, num: nat)
      returns (num': nat)
    requires src != tgt && num <= src.Length && num <= tgt.Length && SameTypes(src[..num], tgt[..num])
    requires Prepared(z, srcImg, src[..num]) && Prepared(z, tgtImg, tgt[..num])
    modifies src, tgt
    ensures num' <= num && Ready(z, srcImg, tgtImg, src[..num'], tgt[..num'])
  {
    ghost var src0, tgt0 := src[..num], tgt[..num];
    SettleChunks(z, srcImg, tgtImg, src, tgt, num);
    hide *;
    SettledIsReady(z, srcImg, tgtImg, src0, tgt0, src[..num], tgt[..num]);
    ReadyMerged(z, srcImg, tgtImg, src[..num], tgt[..num]);
    ReadyLengths(z, srcImg, tgtImg, Merged(src[..num]), Merged(tgt[..num]));
    num' := MergeAdjacentNormalChunks(tgt, num);
    var numSrc := MergeAdjacentNormalChunks(src, num);
    assert numSrc == |src[..numSrc]| && num' == |tgt[..num']|;
    assert numSrc == num';  // "merging normal chunks went awry" is unreachable
  }

  lemma ReadyLengths(z: Zlib, srcImg: seq<byte>, tgtImg: seq<byte>, src: seq<Chunk>, tgt: seq<Chunk>)
    requires Ready(z, srcImg, tgtImg, src, tgt)
    ensures |src| == |tgt|
  {}

  /** Records that produce the pieces of a tiling of the target make a patch file for it. */
  lemma DoneRoundTrips(z: Zlib, bz: Bzip, srcImg: seq<byte>, tgtImg: seq<byte>, tgt: seq<Chunk>,
                       bonus: Option<seq<byte>>, rs: seq<Record>)
    requires Tiles(tgt, 0, |tgtImg|) && |rs| == |tgt| && Writable(rs)
    requires RecordsDone(z, bz, srcImg, tgtImg, tgt, bonus, rs)
    ensures Interpreted(z, bz, srcImg, Container(rs), bonus) == Ok(tgtImg)
  {
    hide Produces, Interpreted, Container;
    var ts := seq(|tgt|, i requires 0 <= i < |tgt| => Piece(tgtImg, tgt[i]));
    PiecesAddUp(tgtImg, tgt, ts, 0, |tgtImg|);
    ContainerRoundTrip(z, bz, srcImg, bonus, rs, ts);
    assert tgtImg[0..|tgtImg|] == tgtImg;
  }

  lemma ReadyTiles(z: Zlib, srcImg: seq<byte>, tgtImg: seq<byte>, src: seq<Chunk>, tgt: seq<Chunk>)
    requires Ready(z, srcImg, tgtImg, src, tgt)
    ensures Tiles(tgt, 0, |tgtImg|)
  {}

  datatype Reason =
    | SourceUnreadable
    | TargetUnreadable
    | StructureDiffers
    | BonusMisfit
    | EntryUnpaired
    | ContainerTooLarge

  datatype Outcome = Written(patch: seq<byte>) | Failed(why: Reason)

  method ChunkArray(cs: seq<Chunk>) returns (a: array<Chunk>)
    ensures fresh(a) && a[..] == cs && a.Length == |cs|
  {
    a := new Chunk[|cs|](i requires 0 <= i < |cs| => cs[i]);
  }

  /** The images have the same sequence of normal and deflate chunks once neighbours are merged. */
  ghost predicate SameStructure(z: Zlib, srcImg: seq<byte>, tgtImg: seq<byte>)
  {
    var s, t := ReadFrom(z, srcImg, 0), ReadFrom(z, tgtImg, 0);
    s.Chunked? && t.Chunked? && SameTypes(Merged(s.cs), Merged(t.cs))
  }

  /** main of imgdiff in image mode: applying the patch it writes to the source image, with the same
      bonus data, gives the target image byte for byte; without bonus data, images of the same
      structure are only refused if the container outgrows its offsets. */
  method DiffImages(z: Zlib, bz: Bzip, srcImg: seq<byte>, tgtImg: seq<byte>, bonus: Option<seq<byte>>)
      returns (r: Outcome)
    requires z.Lawful() && bz.Faithful() && |srcImg| < TWO_TO_31 && |tgtImg| < TWO_TO_31
    ensures r.Written? ==> Interpreted(z, bz, srcImg, r.patch, bonus) == Ok(tgtImg)
    ensures r.Written? ==> SameStructure(z, srcImg, tgtImg)
    ensures SameStructure(z, srcImg, tgtImg) && (bonus == None || bonus.value == []) ==>
              r.Written? || r.why == ContainerTooLarge
  {
    var rs := ReadImage(z, srcImg);
    if !rs.Chunked? { return Failed(SourceUnreadable); }
    var rt := ReadImage(z, tgtImg);
    if !rt.Chunked? { return Failed(TargetUnreadable); }
    assert Prepared(z, srcImg, rs.cs) && Prepared(z, tgtImg, rt.cs);
    assert SameStructure(z, srcImg, tgtImg) <==> SameTypes(Merged(rs.cs), Merged(rt.cs));
    hide *;
    var src := ChunkArray(rs.cs);
    var tgt := ChunkArray(rt.cs);
    var ok, num := Align(z, srcImg, tgtImg, src, tgt);
    if !ok { return Failed(StructureDiffers); }
    num := SettleAndMerge(z, srcImg, tgtImg, src, tgt, num);
    var records;
    ok, records := MakeRecords(z, bz, srcImg, tgtImg, src, tgt, num, bonus);
    if !ok { return Failed(BonusMisfit); }
    if !Writable(records) { return Failed(ContainerTooLarge); }
    var patch := WriteContainer(records);
    ReadyTiles(z, srcImg, tgtImg, src[..num], tgt[..num]);
    DoneRoundTrips(z, bz, srcImg, tgtImg, tgt[..num], bonus, records);
    r := Written(patch);
  }
}
