/** Images laid out as gzip members with other data between them, and how imgdiff (applypatch/imgdiff.c) reads
    them. */
module ImgLayout {
  import opened Bytes
  import opened Codec
  import opened BsPatch
  import opened Chunks
  import opened ImgPatch
  import opened ImgDiff

  /** A part of an image: data in which no gzip member starts, or a gzip member, which is a header, the
      compressed data, a checksum and the size of the data. */
  datatype Part =
    | Plain(bytes: seq<byte>)
    | Gzip(header: seq<byte>, body: seq<byte>, crc: seq<byte>, size: seq<byte>)
  {
    function Text(): seq<byte>
    {
      if Plain? then bytes else header + body + crc + size
    }
  }

  function Laid(ps: seq<Part>): seq<byte>
  {
    if ps == [] then [] else ps[0].Text() + Laid(ps[1..])
  }

  /** No gzip member starts in the first n bytes. */
  predicate NoMagic(text: seq<byte>, n: nat)
  {
    forall i :: 0 <= i < n ==> !MagicAt(text, i)
  }

  /** The member has the form of one; followed by `after`, its data inflates, to less than 2^31 bytes. */
  predicate Formed(z: Zlib, p: Part, after: seq<byte>)
  {
    p.Gzip? && |p.header| == 10 && p.header[..4] == [0x1f, 0x8b, 0x08, 0x00] && |p.crc| == 4 && |p.size| == 4 &&
    var r := z.inflate(p.body + p.crc + p.size + after);
    r.Some? && r.value.0 == |p.body| && |r.value.1| < TWO_TO_31
  }

  /** What the member holds. */
  function Held(z: Zlib, p: Part, after: seq<byte>): seq<byte>
    requires Formed(z, p, after)
  {
    z.inflate(p.body + p.crc + p.size + after).value.1
  }

  /** The parts, followed by `post`, are as they should be: members whose sizes are right, and between them data
      in which none starts. */
  predicate Sound(z: Zlib, ps: seq<Part>, post: seq<byte>)
  {
    ps == [] ||
    var after := Laid(ps[1..]) + post;
    Sound(z, ps[1..], post) &&
    if ps[0].Plain? then
      ps[0].bytes != [] && NoMagic(ps[0].bytes + after, |ps[0].bytes|) && (after == [] || MagicAt(after, 0))
    else Formed(z, ps[0], after) && Four(ps[0].size) == |Held(z, ps[0], after)|
  }

  /** The chunks of the first part. */
  function First(z: Zlib, at: nat, ps: seq<Part>, post: seq<byte>): seq<Chunk>
    requires ps != [] && Sound(z, ps, post)
  {
    if ps[0].Plain? then [Normal(at, at, |ps[0].bytes|)]
    else MemberCuts(at, |ps[0].body|, Held(z, ps[0], Laid(ps[1..]) + post))
  }

  /** The chunks of parts that start at `at`. */
  function Cuts(z: Zlib, at: nat, ps: seq<Part>, post: seq<byte>): seq<Chunk>
    requires Sound(z, ps, post)
    decreases |ps|
  {
    if ps == [] then [] else First(z, at, ps, post) + Cuts(z, at + |ps[0].Text()|, ps[1..], post)
  }

  function MemberCuts(at: nat, n: nat, data: seq<byte>): seq<Chunk>
  {
    [Normal(at, at, 10), Deflate(at + 10, at + 10, n, data, UNSET, None), Normal(at + 10 + n, at + 10 + n, 8)]
  }

  // ----- one part -----

  lemma MagicAfter(pre: seq<byte>, text: seq<byte>, i: nat)
    ensures MagicAt(pre + text, |pre| + i) <==> MagicAt(text, i)
  {
    assert forall k: nat :: Padded(pre + text, |pre| + k) == Padded(text, k);
    assert |pre| + (i + 1) == (|pre| + i) + 1 && |pre| + (i + 2) == (|pre| + i) + 2;
    assert |pre| + (i + 3) == (|pre| + i) + 3;
  }

  /** Where the fields of a member are. */
  lemma MemberPlaces(z: Zlib, pre: seq<byte>, p: Part, after: seq<byte>)
    requires Formed(z, p, after)
    ensures var img, at := pre + (p.Text() + after), |pre| + 10;
            MagicAt(img, |pre|) && |p.Text()| == 18 + |p.body| && img[at..] == p.body + p.crc + p.size + after &&
            |pre| + |p.Text()| <= |img| && img[|pre| + 14 + |p.body|..|pre| + 18 + |p.body|] == p.size
  {
    var text := p.Text() + after;
    var img, at := pre + text, |pre| + 10;
    assert text == p.header + (p.body + p.crc + p.size + after);
    assert forall i :: 0 <= i < 4 ==> text[i] == p.header[i] == p.header[..4][i];
    MagicAfter(pre, text, 0);
    assert img[at..] == text[10..];
    assert text[10 + |p.body| + 4..10 + |p.body| + 8] == p.size;
  }

  /** A member is cut into header, data and footer exactly if its size is right; otherwise the image is
      refused. */
  lemma MemberCut(z: Zlib, pre: seq<byte>, p: Part, after: seq<byte>)
    requires Formed(z, p, after)
    ensures var img, next := pre + (p.Text() + after), |pre| + |p.Text()|;
            ReadFrom(z, img, |pre|) ==
              if Four(p.size) == |Held(z, p, after)|
              then Before(MemberCuts(|pre|, |p.body|, Held(z, p, after)), ReadFrom(z, img, next))
              else FooterMismatch
  {
    hide *;
    MemberPlaces(z, pre, p, after);
    FormedMeans(z, p, after);
    FromFour(p.size);
    var img := pre + (p.Text() + after);
    MemberIs(z, img, |pre|, |p.body|, Held(z, p, after));
    MemberStep(z, img, |pre|);
  }

  lemma FormedMeans(z: Zlib, p: Part, after: seq<byte>)
    requires Formed(z, p, after)
    ensures p.Gzip? && |p.size| == 4 && |Held(z, p, after)| < TWO_TO_31
    ensures z.inflate(p.body + p.crc + p.size + after) == Some((|p.body|, Held(z, p, after)))
  {}

  lemma MemberIs(z: Zlib, img: seq<byte>, pos: nat, k: nat, d: seq<byte>)
    requires pos + 18 + k <= |img| && z.inflate(img[pos + 10..]) == Some((k, d)) && |d| < TWO_TO_31
    ensures Member(z, img, pos) ==
              if FromDigits(img[pos + 14 + k..pos + 18 + k]) == |d| then (Chunked(MemberCuts(pos, k, d)), pos + 18 + k)
              else (FooterMismatch, pos)
  {
    hide FromDigits;
  }

  lemma {:induction false} NoMemberBefore(img: seq<byte>, from: nat, to: nat)
    requires from <= to <= |img| && forall i :: from <= i < to ==> !MagicAt(img, i)
    requires to == |img| || MagicAt(img, to)
    ensures NextMember(img, from) == to
    decreases |img| - from
  {
    hide MagicAt;
    if from < to {
      NoMemberBefore(img, from + 1, to);
    }
  }

  lemma PlainCut(z: Zlib, pre: seq<byte>, bytes: seq<byte>, after: seq<byte>)
    requires bytes != [] && NoMagic(bytes + after, |bytes|) && (after == [] || MagicAt(after, 0))
    ensures var img, next := pre + (bytes + after), |pre| + |bytes|;
            ReadFrom(z, img, |pre|) == Before([Normal(|pre|, |pre|, |bytes|)], ReadFrom(z, img, next))
  {
    hide MagicAt, ReadFrom;
    var img, next := pre + (bytes + after), |pre| + |bytes|;
    forall i | |pre| <= i < next ensures !MagicAt(img, i) {
      MagicAfter(pre, bytes + after, i - |pre|);
    }
    assert img == (pre + bytes) + after;
    MagicAfter(pre + bytes, after, 0);
    NoMemberBefore(img, |pre|, next);
    NormalStep(z, img, |pre|, |bytes|);
  }

  // ----- whole images -----

  lemma BeforeBefore(a: seq<Chunk>, b: seq<Chunk>, r: Reading)
    ensures Before(a, Before(b, r)) == Before(a + b, r)
  {
    assert r.Chunked? ==> a + (b + r.cs) == a + b + r.cs;
  }

  lemma FirstCut(z: Zlib, pre: seq<byte>, ps: seq<Part>, post: seq<byte>)
    requires ps != [] && Sound(z, ps, post)
    ensures var img := pre + (ps[0].Text() + (Laid(ps[1..]) + post));
            ReadFrom(z, img, |pre|) == Before(First(z, |pre|, ps, post), ReadFrom(z, img, |pre| + |ps[0].Text()|))
  {
    hide ReadFrom, MagicAt, NoMagic, Formed, Four, MemberCuts, Before;
    var p, after := ps[0], Laid(ps[1..]) + post;
    if p.Plain? {
      PlainCut(z, pre, p.bytes, after);
    } else {
      MemberCut(z, pre, p, after);
    }
  }

  lemma SplitFirst(z: Zlib, at: nat, ps: seq<Part>, post: seq<byte>)
    requires ps != [] && Sound(z, ps, post)
    ensures Sound(z, ps[1..], post) && Laid(ps) + post == ps[0].Text() + (Laid(ps[1..]) + post)
    ensures Cuts(z, at, ps, post) == First(z, at, ps, post) + Cuts(z, at + |ps[0].Text()|, ps[1..], post)
    ensures |Laid(ps)| == |ps[0].Text()| + |Laid(ps[1..])|
  {
    hide MagicAt, NoMagic, Formed, Four, MemberCuts, Part.Text;
  }

  /** The reading of an image takes its parts one by one. */
  lemma {:induction false} PartsCut(z: Zlib, pre: seq<byte>, ps: seq<Part>, post: seq<byte>)
    requires Sound(z, ps, post)
    ensures var img := pre + (Laid(ps) + post);
            ReadFrom(z, img, |pre|) == Before(Cuts(z, |pre|, ps, post), ReadFrom(z, img, |pre| + |Laid(ps)|))
    decreases |ps|
  {
    hide *;
    var img := pre + (Laid(ps) + post);
    if ps == [] {
      NothingCut(z, |pre|, post);
      BeforeNothing(ReadFrom(z, img, |pre|));
    } else {
      SplitFirst(z, |pre|, ps, post);
      FirstCut(z, pre, ps, post);
      PartsCut(z, pre + ps[0].Text(), ps[1..], post);
      assert pre + ps[0].Text() + (Laid(ps[1..]) + post) == img;
      BeforeBefore(First(z, |pre|, ps, post), Cuts(z, |pre| + |ps[0].Text()|, ps[1..], post),
                   ReadFrom(z, img, |pre| + |Laid(ps)|));
    }
  }

  lemma NothingCut(z: Zlib, at: nat, post: seq<byte>)
    ensures Sound(z, [], post) && Cuts(z, at, [], post) == [] && Laid([]) == []
  {}

  lemma BeforeNothing(r: Reading)
    ensures Before([], r) == r
  {
    assert r.Chunked? ==> [] + r.cs == r.cs;
  }

  /** An image of sound parts is read as their chunks. */
  lemma LaidOutReads(z: Zlib, ps: seq<Part>)
    requires Sound(z, ps, [])
    ensures ReadFrom(z, Laid(ps), 0) == Chunked(Cuts(z, 0, ps, []))
  {
    hide Sound, Cuts, Laid, ReadFrom;
    PartsCut(z, [], ps, []);
    assert [] + (Laid(ps) + []) == Laid(ps);
    ReadEnds(z, Laid(ps));
    assert Cuts(z, 0, ps, []) + [] == Cuts(z, 0, ps, []);
  }

  /** A member with a wrong size, after sound parts, makes the image unreadable, whatever follows. */
  lemma WrongSizeRefused(z: Zlib, ps: seq<Part>, p: Part, after: seq<byte>)
    requires Sound(z, ps, p.Text() + after) && Formed(z, p, after) && Four(p.size) != |Held(z, p, after)|
    ensures ReadFrom(z, Laid(ps) + (p.Text() + after), 0) == FooterMismatch
  {
    hide ReadFrom, Formed, Four, Sound, Cuts, Laid, Part.Text;
    PartsCut(z, [], ps, p.Text() + after);
    assert [] + (Laid(ps) + (p.Text() + after)) == Laid(ps) + (p.Text() + after);
    MemberCut(z, Laid(ps), p, after);
  }

  /** The two images have the same layout: members and other data in the same order. */
  predicate Alike(ps: seq<Part>, qs: seq<Part>)
  {
    |ps| == |qs| && forall i :: 0 <= i < |ps| ==> ps[i].Plain? == qs[i].Plain?
  }

  lemma FirstAlike(z: Zlib, a: nat, ps: seq<Part>, x: seq<byte>, b: nat, qs: seq<Part>, y: seq<byte>)
    requires ps != [] && qs != [] && Sound(z, ps, x) && Sound(z, qs, y) && ps[0].Plain? == qs[0].Plain?
    ensures SameTypes(First(z, a, ps, x), First(z, b, qs, y))
  {
    hide Sound, Held, Laid;
  }

  lemma {:induction false} CutsAlike(z: Zlib, a: nat, ps: seq<Part>, x: seq<byte>, b: nat, qs: seq<Part>, y: seq<byte>)
    requires Sound(z, ps, x) && Sound(z, qs, y) && Alike(ps, qs)
    ensures SameTypes(Cuts(z, a, ps, x), Cuts(z, b, qs, y))
    decreases |ps|
  {
    hide Sound, Cuts, First, Laid, Part.Text;
    if ps == [] {
      NothingCut(z, a, x);
      NothingCut(z, b, y);
    } else {
      SplitFirst(z, a, ps, x);
      SplitFirst(z, b, qs, y);
      FirstAlike(z, a, ps, x, b, qs, y);
      CutsAlike(z, a + |ps[0].Text()|, ps[1..], x, b + |qs[0].Text()|, qs[1..], y);
    }
  }

  lemma FirstTiles(z: Zlib, at: nat, ps: seq<Part>, post: seq<byte>)
    requires ps != [] && Sound(z, ps, post)
    ensures Tiles(First(z, at, ps, post), at, at + |ps[0].Text()|)
  {
    hide NoMagic, MagicAt, Four, Laid, Held;
    var first := First(z, at, ps, post);
    if ps[0].Gzip? {
      var n := |ps[0].body|;
      assert first[1..] == [first[1], first[2]] && [first[1], first[2]][1..] == [first[2]];
      assert Tiles([first[2]], at + 10 + n, at + 18 + n) && Tiles([first[1], first[2]], at + 10, at + 18 + n);
    }
  }

  lemma NothingTiles(at: nat)
    ensures Tiles([], at, at)
  {}

  lemma {:induction false} CutsTile(z: Zlib, at: nat, ps: seq<Part>, post: seq<byte>)
    requires Sound(z, ps, post)
    ensures Tiles(Cuts(z, at, ps, post), at, at + |Laid(ps)|)
    decreases |ps|
  {
    hide Sound, Cuts, Laid, First, Part.Text, Tiles;
    if ps == [] {
      NothingCut(z, at, post);
      NothingTiles(at);
    } else {
      SplitFirst(z, at, ps, post);
      FirstTiles(z, at, ps, post);
      CutsTile(z, at + |ps[0].Text()|, ps[1..], post);
      TilesAppend(First(z, at, ps, post), Cuts(z, at + |ps[0].Text()|, ps[1..], post), at, at + |ps[0].Text()|,
                  at + |Laid(ps)|);
    }
  }

  /** Images of sound parts in the same order can be patched: DiffImages gives a patch, unless the container
      outgrows its offsets. */
  lemma LaidOutAlike(z: Zlib, ps: seq<Part>, qs: seq<Part>)
    requires Sound(z, ps, []) && Sound(z, qs, []) && Alike(ps, qs)
    ensures SameStructure(z, Laid(ps), Laid(qs))
  {
    hide Sound, Cuts, Laid, ReadFrom, Merged, SameTypes, Tiles, Alike;
    LaidOutReads(z, ps);
    LaidOutReads(z, qs);
    CutsAlike(z, 0, ps, [], 0, qs, []);
    CutsTile(z, 0, ps, []);
    CutsTile(z, 0, qs, []);
    MergedAlike(Cuts(z, 0, ps, []), Cuts(z, 0, qs, []), 0, |Laid(ps)|, 0, |Laid(qs)|);
  }

  /** Two such images go through imgdiff and back. */
  method DiffLaidOut(z: Zlib, bz: Bzip, ps: seq<Part>, qs: seq<Part>) returns (r: Outcome)
    requires z.Lawful() && bz.Faithful() && Sound(z, ps, []) && Sound(z, qs, []) && Alike(ps, qs)
    requires |Laid(ps)| < TWO_TO_31 && |Laid(qs)| < TWO_TO_31
    ensures r.Written? || r == Failed(ContainerTooLarge)
    ensures r.Written? ==> Interpreted(z, bz, Laid(ps), r.patch, None) == Ok(Laid(qs))
  {
    hide *;
    LaidOutAlike(z, ps, qs);
    r := DiffImages(z, bz, Laid(ps), Laid(qs), None);
  }
}
