/** The scan and emit loop of bsdiff (applypatch/bsdiff.c). */
module BsDiff {
  import opened Bytes
  import opened Codec
  import opened BsPatch
  import opened QSufSort
  import opened Search

  /** Position p of target repeats source at the given offset. */
  predicate Repeats(source: seq<byte>, target: seq<byte>, offset: int, p: int)
  {
    0 <= p < |target| && 0 <= p + offset < |source| && source[p + offset] == target[p]
  }

  /** How many positions of [lo, hi) repeat source at the given offset. */
  function Repetitions(source: seq<byte>, target: seq<byte>, offset: int, lo: int, hi: int): nat
    decreases hi - lo
  {
    if hi <= lo then 0
    else Repetitions(source, target, offset, lo, hi - 1) + if Repeats(source, target, offset, hi - 1) then 1 else 0
  }

  lemma {:induction false} RepetitionsFront(source: seq<byte>, target: seq<byte>, offset: int, lo: int, hi: int)
    requires lo < hi
    ensures Repetitions(source, target, offset, lo, hi)
         == Repetitions(source, target, offset, lo + 1, hi) + if Repeats(source, target, offset, lo) then 1 else 0
    decreases hi - lo
  {
    if lo + 1 < hi {
      RepetitionsFront(source, target, offset, lo, hi - 1);
    }
  }

  /** The inner scan: advances scan to a position whose match is clearly better than going on at
      the current offset. With sorted suffixes, oldscore is the number of positions of
      [scan, scsc) that the current offset already gets right. */
  method NextMatch(I: array<int>, source: seq<byte>, target: seq<byte>, start: nat, lastoffset: int,
                   len0: nat, pos0: nat) returns (scan: nat, len: nat, pos: nat, oldscore: int, scsc: nat)
    requires I.Length == |source| + 1 && forall i :: 0 <= i < I.Length ==> 0 <= I[i] <= |source|
    requires start <= |target| && start + lastoffset >= 0 && pos0 <= |source|
    ensures start <= scan <= |target| && pos <= |source|
    ensures start == |target| ==> len == len0 && pos == pos0
    ensures scan < |target| ==> LongestMatch(source, pos, target, scan, len)
    ensures scan < |target| ==> (len == oldscore && len != 0) || len > oldscore + 8
    ensures scan < |target| ==> scan + len <= scsc <= |target|
    ensures scan == start < |target| ==> len > 0
    ensures scan < |target| ==> scan + len <= |target|
    ensures IsSuffixArray(source, I[..]) ==> oldscore == Repetitions(source, target, lastoffset, scan, scsc)
  {
    scan, len, pos, oldscore, scsc := start, len0, pos0, 0, start;
    while scan < |target|
      invariant start <= scan <= |target| && start <= scsc <= |target| && pos <= |source|
      invariant scan == start ==> oldscore == 0 && scsc == start && len == len0 && pos == pos0
      invariant IsSuffixArray(source, I[..]) ==>
                  oldscore == Repetitions(source, target, lastoffset, scan, scsc) &&
                  (forall p :: scsc <= p < scan ==> !Repeats(source, target, lastoffset, p))
    {
      len, pos := FindMatch(I, source, target, scan);
      ghost var before := scsc;
      while scsc < scan + len
        invariant before <= scsc && scsc <= |target|
        invariant scan == start ==> oldscore >= 0
        invariant IsSuffixArray(source, I[..]) ==>
                    oldscore == Repetitions(source, target, lastoffset, scan, scsc) &&
                    (forall p :: scsc <= p < scan ==> !Repeats(source, target, lastoffset, p))
      {
        if scsc + lastoffset < |source| && source[scsc + lastoffset] == target[scsc] {
          oldscore := oldscore + 1;
        }
        scsc := scsc + 1;
      }
      if (len == oldscore && len != 0) || len > oldscore + 8 {
        return;
      }
      if IsSuffixArray(source, I[..]) && scan < scsc {
        RepetitionsFront(source, target, lastoffset, scan, scsc);
      }
      if scan + lastoffset < |source| && source[scan + lastoffset] == target[scan] {
        oldscore := oldscore - 1;
      }
      scan := scan + 1;
    }
  }

  /** Twice the repetitions in [lo, hi) less its length: what bsdiff maximises when it extends a
      match. */
  function Score(source: seq<byte>, target: seq<byte>, offset: int, lo: int, hi: int): int
  {
    2 * Repetitions(source, target, offset, lo, hi) - (hi - lo)
  }

  /** Of all ends up to limit, end is the first at which [lo, end) scores best. */
  ghost predicate BestEnd(source: seq<byte>, target: seq<byte>, offset: int, lo: int, end: int, limit: int)
  {
    lo <= end <= limit &&
    forall q :: lo <= q <= limit ==>
      var d := Score(source, target, offset, lo, end) - Score(source, target, offset, lo, q);
      if q < end then d > 0 else d >= 0
  }

  /** Of all starts down to limit, start is the last at which [start, hi) scores best. */
  ghost predicate BestStart(source: seq<byte>, target: seq<byte>, offset: int, start: int, hi: int, limit: int)
  {
    limit <= start <= hi &&
    forall q :: limit <= q <= hi ==>
      var d := Score(source, target, offset, start, hi) - Score(source, target, offset, q, hi);
      if q > start then d > 0 else d >= 0
  }

  /** How far to extend the last match forwards. */
  method ExtendForward(source: seq<byte>, target: seq<byte>, lastscan: nat, lastpos: nat, scan: nat) returns (lenf: nat)
    requires lastscan <= scan <= |target| && lastpos <= |source|
    ensures lastpos + lenf <= |source|
    ensures BestEnd(source, target, lastpos - lastscan, lastscan, lastscan + lenf,
                    Min(scan, lastscan + |source| - lastpos))
  {
    var s, best, i := 0, 0, 0;
    lenf := 0;
    ghost var off := lastpos - lastscan;
    while lastscan + i < scan && lastpos + i < |source|
      invariant lenf <= i && lastscan + i <= scan && lastpos + i <= |source|
      invariant s == Repetitions(source, target, off, lastscan, lastscan + i)
      invariant best == Repetitions(source, target, off, lastscan, lastscan + lenf)
      invariant BestEnd(source, target, off, lastscan, lastscan + lenf, lastscan + i)
    {
      if source[lastpos + i] == target[lastscan + i] { s := s + 1; }
      i := i + 1;
      if s * 2 - i > best * 2 - lenf { best, lenf := s, i; }
    }
  }

  function Min(a: int, b: int): int { if a < b then a else b }
  function Max(a: int, b: int): int { if a < b then b else a }

  /** How far to extend the new match backwards. */
  method ExtendBackward(source: seq<byte>, target: seq<byte>, lastscan: nat, scan: nat, pos: nat) returns (lenb: nat)
    requires lastscan <= scan <= |target| && pos <= |source|
    ensures lenb <= pos
    ensures BestStart(source, target, pos - scan, scan - lenb, scan, Max(lastscan, scan - pos))
  {
    var s, best, i := 0, 0, 1;
    lenb := 0;
    ghost var off := pos - scan;
    while scan >= lastscan + i && pos >= i
      invariant lenb < i && lastscan + i <= scan + 1 && i <= pos + 1
      invariant s == Repetitions(source, target, off, scan - i + 1, scan)
      invariant best == Repetitions(source, target, off, scan - lenb, scan)
      invariant BestStart(source, target, off, scan - lenb, scan, scan - i + 1)
    {
      RepetitionsFront(source, target, off, scan - i, scan);
      if source[pos - i] == target[scan - i] { s := s + 1; }
      if s * 2 - i > best * 2 - lenb { best, lenb := s, i; }
      i := i + 1;
    }
  }

  /** What [lo, hi) gains in repetitions at offset left over offset right. */
  function Gain(source: seq<byte>, target: seq<byte>, left: int, right: int, lo: int, hi: int): int
  {
    Repetitions(source, target, left, lo, hi) - Repetitions(source, target, right, lo, hi)
  }

  /** Of all cuts up to limit, cut is the first at which [lo, cut) gains most. */
  ghost predicate BestCut(source: seq<byte>, target: seq<byte>, left: int, right: int, lo: int, cut: int, limit: int)
  {
    lo <= cut <= limit &&
    forall q :: lo <= q <= limit ==>
      var d := Gain(source, target, left, right, lo, cut) - Gain(source, target, left, right, lo, q);
      if q < cut then d > 0 else d >= 0
  }

  /** Where to cut the overlap of the two extensions, which starts at lo. */
  method CutOverlap(source: seq<byte>, target: seq<byte>, lo: nat, left: nat, right: nat, overlap: nat)
      returns (lens: nat)
    requires lo + overlap <= |target| && left + overlap <= |source| && right + overlap <= |source|
    ensures BestCut(source, target, left - lo, right - lo, lo, lo + lens, lo + overlap)
  {
    var s, best := 0, 0;
    lens := 0;
    for i := 0 to overlap
      invariant lens <= i
      invariant s == Gain(source, target, left - lo, right - lo, lo, lo + i)
      invariant best == Gain(source, target, left - lo, right - lo, lo, lo + lens)
      invariant BestCut(source, target, left - lo, right - lo, lo, lo + lens, lo + i)
    {
      if target[lo + i] == source[left + i] { s := s + 1; }
      if target[lo + i] == source[right + i] { s := s - 1; }
      if s > best { best, lens := s, i + 1; }
    }
  }

  /** The lengths of one triple: the last match extended forwards by f and the new one backwards
      by b, unless they overlap; then both end where the overlap is best cut. */
  method ChooseLengths(source: seq<byte>, target: seq<byte>, lastscan: nat, lastpos: nat, scan: nat, pos: nat)
    returns (lenf: nat, lenb: nat, ghost f: nat, ghost b: nat)
    requires lastscan <= scan <= |target| && lastpos <= |source| && pos <= |source|
    ensures lastscan + lenf <= scan - lenb && lastpos + lenf <= |source| && lenb <= pos
    ensures scan == |target| ==> lenb == 0
    ensures BestEnd(source, target, lastpos - lastscan, lastscan, lastscan + f,
                    Min(scan, lastscan + |source| - lastpos))
    ensures if scan < |target| then BestStart(source, target, pos - scan, scan - b, scan, Max(lastscan, scan - pos))
            else b == 0
    ensures if lastscan + f <= scan - b then lenf == f && lenb == b
            else lastscan + lenf == scan - lenb &&
                 BestCut(source, target, lastpos - lastscan, pos - scan, scan - b, scan - lenb, lastscan + f)
  {
    lenf := ExtendForward(source, target, lastscan, lastpos, scan);
    lenb := 0;
    if scan < |target| {
      lenb := ExtendBackward(source, target, lastscan, scan, pos);
    }
    f, b := lenf, lenb;
    if lastscan + lenf > scan - lenb {
      var overlap := (lastscan + lenf) - (scan - lenb);
      var lens := CutOverlap(source, target, lastscan + lenf - overlap, lastpos + lenf - overlap, pos - lenb, overlap);
      lenf := lenf + lens - overlap;
      lenb := lenb - lens;
    }
  }

  /** The bytes of target[at..at + n] less those of source[from..from + n]. */
  function Differences(source: seq<byte>, from: nat, target: seq<byte>, at: nat, n: nat): (d: seq<byte>)
    requires from + n <= |source| && at + n <= |target|
    ensures |d| == n
    ensures forall i :: 0 <= i < n ==> d[i] == Minus(target[at + i], source[from + i])
  {
    seq<byte>(n, i requires 0 <= i < n => Minus(target[at + i], source[from + i]))
  }

  /** Adding the old data back to the differences gives the new data. */
  lemma DifferencesAddUp(source: seq<byte>, from: nat, target: seq<byte>, at: nat, n: nat)
    requires from + n <= |source| && at + n <= |target|
    ensures AddOld(source, from, Differences(source, from, target, at, n)) == target[at..at + n]
  {}

  method AppendDiff(db: array<byte>, dblen: nat, source: seq<byte>, from: nat, target: seq<byte>, at: nat, n: nat)
    requires dblen + n <= db.Length && from + n <= |source| && at + n <= |target|
    modifies db
    ensures db[..dblen + n] == old(db[..dblen]) + Differences(source, from, target, at, n)
  {
    ghost var d := Differences(source, from, target, at, n);
    for i := 0 to n
      invariant db[..dblen + i] == old(db[..dblen]) + d[..i]
    {
      db[dblen + i] := Minus(target[at + i], source[from + i]);
    }
  }

  method AppendExtra(eb: array<byte>, eblen: nat, target: seq<byte>, at: nat, n: nat)
    requires eblen + n <= eb.Length && at + n <= |target|
    modifies eb
    ensures eb[..eblen + n] == old(eb[..eblen]) + target[at..at + n]
  {
    ghost var e := target[at..at + n];
    for i := 0 to n
      invariant eb[..eblen + i] == old(eb[..eblen]) + e[..i]
    {
      eb[eblen + i] := target[at + i];
    }
  }

  /** The 24 bytes of one control triple. */
  function Triple(x: int, y: int, z: int): (b: seq<byte>)
    requires -TWO_TO_63 < x < TWO_TO_63 && -TWO_TO_63 < y < TWO_TO_63 && -TWO_TO_63 < z < TWO_TO_63
    ensures |b| == 24
  {
    OffToBytes(x) + OffToBytes(y) + OffToBytes(z)
  }

  /** Whatever follows the streams s, replaying them leads to old position pos with out written. */
  ghost predicate Reaches(source: seq<byte>, size: nat, s: Streams, pos: int, out: seq<byte>)
  {
    forall r: Streams :: Replay(source, size, s.Then(r), 0, []) == Replay(source, size, r, pos, out)
  }

  lemma TripleParts(x: int, y: int, z: int, t: seq<byte>)
    requires -TWO_TO_63 < x < TWO_TO_63 && -TWO_TO_63 < y < TWO_TO_63 && -TWO_TO_63 < z < TWO_TO_63
    ensures var s := Triple(x, y, z) + t;
            BytesToOff(s[..8]) == x && BytesToOff(s[8..16]) == y && BytesToOff(s[16..24]) == z && s[24..] == t
  {
    hide OffToBytes, BytesToOff;
    var s := Triple(x, y, z) + t;
    assert s[..8] == OffToBytes(x) && s[8..16] == OffToBytes(y) && s[16..24] == OffToBytes(z);
    OffRoundTrip(x);
    OffRoundTrip(y);
    OffRoundTrip(z);
  }

  /** Replaying one triple with its diff and extra bytes. */
  lemma ReplayTriple(source: seq<byte>, size: nat, x: int, y: int, z: int, d: seq<byte>, e: seq<byte>, r: Streams,
                     pos: int, out: seq<byte>)
    requires -TWO_TO_63 < x < TWO_TO_63 && -TWO_TO_63 < y < TWO_TO_63 && -TWO_TO_63 < z < TWO_TO_63
    requires |d| == x && |e| == y && |out| + x + y <= size
    ensures Replay(source, size, Streams(Triple(x, y, z), d, e).Then(r), pos, out)
         == Replay(source, size, r, pos + x + z, out + AddOld(source, pos, d) + e)
  {
    var s := Streams(Triple(x, y, z), d, e).Then(r);
    TripleParts(x, y, z, r.ctrl);
    if |out| < size {
      ReplayStep(source, size, s, pos, out, x, y, z);
      hide Replay, BytesToOff, Triple, AddOld;
      assert s.diff[..x] == d && s.extra[..y] == e;
      assert Rest(s, 24, x, y) == r;
    } else {
      assert out + AddOld(source, pos, d) + e == out;
    }
  }

  lemma ReachesTriple(source: seq<byte>, size: nat, s: Streams, x: int, y: int, z: int, d: seq<byte>, e: seq<byte>,
                      pos: int, out: seq<byte>)
    requires -TWO_TO_63 < x < TWO_TO_63 && -TWO_TO_63 < y < TWO_TO_63 && -TWO_TO_63 < z < TWO_TO_63
    requires |d| == x && |e| == y && |out| + x + y <= size
    requires Reaches(source, size, s, pos, out)
    ensures Reaches(source, size, s.Then(Streams(Triple(x, y, z), d, e)), pos + x + z, out + AddOld(source, pos, d) + e)
  {
    hide Replay, Triple, AddOld;
    var t := Streams(Triple(x, y, z), d, e);
    forall r: Streams
      ensures Replay(source, size, s.Then(t).Then(r), 0, [])
           == Replay(source, size, r, pos + x + z, out + AddOld(source, pos, d) + e)
    {
      assert s.Then(t).Then(r) == s.Then(t.Then(r));
      ReplayTriple(source, size, x, y, z, d, e, r, pos, out);
    }
  }

  /** Writes one triple: the bytes of target from lastscan to the end of the triple go to the diff
      and extra buffers. */
  method Emit(source: seq<byte>, target: seq<byte>, db: array<byte>, dblen: nat, eb: array<byte>, eblen: nat,
              ctrl: seq<byte>,
              lastscan: nat, lastpos: nat, scan: nat, pos: nat)
    returns (ctrl': seq<byte>, dblen': nat, eblen': nat, lastscan': nat, lastpos': nat)
    requires db != eb && db.Length == |target| + 1 && eb.Length == |target| + 1 && dblen + eblen == lastscan
    requires lastscan <= scan <= |target| < TWO_TO_31 && lastpos <= |source| < TWO_TO_31 && pos <= |source|
    requires Reaches(source, |target|, Streams(ctrl, db[..dblen], eb[..eblen]), lastpos, target[..lastscan])
    modifies db, eb
    ensures lastscan <= lastscan' <= scan && lastpos' <= |source| && dblen' + eblen' == lastscan'
    ensures |ctrl'| == |ctrl| + 24
    ensures scan == |target| ==> lastscan' == |target|
    ensures Reaches(source, |target|, Streams(ctrl', db[..dblen'], eb[..eblen']), lastpos', target[..lastscan'])
  {
    hide *;
    SizesFitOffsets();
    ghost var s := Streams(ctrl, db[..dblen], eb[..eblen]);
    var lenf, lenb, _, _ := ChooseLengths(source, target, lastscan, lastpos, scan, pos);
    var x, y, z := lenf, (scan - lenb) - (lastscan + lenf), (pos - lenb) - (lastpos + lenf);
    AppendDiff(db, dblen, source, lastpos, target, lastscan, x);
    AppendExtra(eb, eblen, target, lastscan + x, y);
    ctrl', dblen', eblen' := ctrl + Triple(x, y, z), dblen + x, eblen + y;
    lastscan', lastpos' := scan - lenb, pos - lenb;
    ReachesEmitted(source, target, s, lastscan, lastpos, x, y, z);
  }

  /** A triple that covers target[lastscan..lastscan + x + y] extends what is reached by it. */
  lemma ReachesEmitted(source: seq<byte>, target: seq<byte>, s: Streams, lastscan: nat, lastpos: nat, x: nat, y: nat,
                       z: int)
    requires lastscan + x + y <= |target| < TWO_TO_31 && lastpos + x <= |source| && -TWO_TO_63 < z < TWO_TO_63
    requires Reaches(source, |target|, s, lastpos, target[..lastscan])
    ensures Reaches(source, |target|,
                    Streams(s.ctrl + Triple(x, y, z),
                            s.diff + Differences(source, lastpos, target, lastscan, x),
                            s.extra + target[lastscan + x..lastscan + x + y]),
                    lastpos + x + z, target[..lastscan + x + y])
  {
    hide *;
    SizesFitOffsets();
    var d, e := Differences(source, lastpos, target, lastscan, x), target[lastscan + x..lastscan + x + y];
    ReachesTriple(source, |target|, s, x, y, z, d, e, lastpos, target[..lastscan]);
    DifferencesAddUp(source, lastpos, target, lastscan, x);
    ThenIs(s, Streams(Triple(x, y, z), d, e));
    assert target[..lastscan] + target[lastscan..lastscan + x] + e == target[..lastscan + x + y];
  }

  lemma ThenIs(s: Streams, r: Streams)
    ensures s.Then(r) == Streams(s.ctrl + r.ctrl, s.diff + r.diff, s.extra + r.extra)
  {}

  lemma ReachesNothing(source: seq<byte>, size: nat)
    ensures Reaches(source, size, Streams([], [], []), 0, [])
  {
    hide Replay;
    forall r: Streams ensures Streams([], [], []).Then(r) == r {}
  }

  /** The main loop of bsdiff: whatever array I of suffix positions it is given, replaying the
      streams it produces yields the target. */
  method DiffStreams(I: array<int>, source: seq<byte>, target: seq<byte>) returns (s: Streams)
    requires I.Length == |source| + 1 && forall i :: 0 <= i < I.Length ==> 0 <= I[i] <= |source|
    requires |source| < TWO_TO_31 && |target| < TWO_TO_31
    ensures exists pos :: Reaches(source, |target|, s, pos, target)
    ensures |s.ctrl| <= 24 * (|target| + 2) && |s.diff| + |s.extra| == |target|
  {
    hide *;
    var db, eb := new byte[|target| + 1], new byte[|target| + 1];
    var ctrl, dblen: nat, eblen: nat := [], 0, 0;
    var scan: nat, len: nat, pos: nat, lastscan: nat, lastpos: nat, lastoffset: int := 0, 0, 0, 0, 0, 0;
    ReachesNothing(source, |target|);
    assert db[..0] == [] && eb[..0] == [] && target[..0] == [];
    ghost var rounds := 0;
    while scan < |target|
      invariant lastscan <= scan <= |target| && lastpos <= |source| && pos <= |source|
      invariant scan < |target| ==> scan + len <= |target|
      invariant scan + lastoffset >= 0 && dblen + eblen == lastscan
      invariant scan == |target| ==> lastscan == |target|
      invariant |ctrl| <= 24 * rounds && 0 <= rounds <= |target| + 2 && (scan < |target| ==> rounds <= scan + len)
      invariant Reaches(source, |target|, Streams(ctrl, db[..dblen], eb[..eblen]), lastpos, target[..lastscan])
      decreases |target| - (scan + len)
    {
      var oldscore, scsc;
      scan, len, pos, oldscore, scsc := NextMatch(I, source, target, scan + len, lastoffset, len, pos);
      if len != oldscore || scan == |target| {
        ctrl, dblen, eblen, lastscan, lastpos :=
          Emit(source, target, db, dblen, eb, eblen, ctrl, lastscan, lastpos, scan, pos);
        lastoffset := pos - scan;
      }
      rounds := rounds + 1;
    }
    s := Streams(ctrl, db[..dblen], eb[..eblen]);
    assert target[..lastscan] == target;
  }

  /** The patch file: header, then the three compressed streams. */
  function PatchFile(bz: Bzip, s: Streams, size: nat): seq<byte>
    requires |bz.compress(s.ctrl)| < TWO_TO_63 && |bz.compress(s.diff)| < TWO_TO_63 && size < TWO_TO_63
  {
    BSDIFF_MAGIC + (OffToBytes(|bz.compress(s.ctrl)|) + (OffToBytes(|bz.compress(s.diff)|) + (OffToBytes(size) +
    (bz.compress(s.ctrl) + (bz.compress(s.diff) + bz.compress(s.extra))))))
  }

  /** A patch file, byte by byte: BSDIFF40, the lengths of the first two compressed streams and the size of the
      target; then the three streams. */
  predicate HasLayout(p: seq<byte>, c: seq<byte>, d: seq<byte>, e: seq<byte>, size: nat)
  {
    |p| == 32 + |c| + |d| + |e| && p[..8] == [66, 83, 68, 73, 70, 70, 52, 48] && Eight(p[8..16]) == |c| &&
    Eight(p[16..24]) == |d| && Eight(p[24..32]) == size && p[32..] == c + d + e
  }

  lemma PatchFileLayout(bz: Bzip, s: Streams, size: nat)
    requires |bz.compress(s.ctrl)| < TWO_TO_63 && |bz.compress(s.diff)| < TWO_TO_63 && size < TWO_TO_63
    ensures HasLayout(PatchFile(bz, s, size), bz.compress(s.ctrl), bz.compress(s.diff), bz.compress(s.extra), size)
  {
    hide OffToBytes, BytesToOff;
    var p, c, d := PatchFile(bz, s, size), bz.compress(s.ctrl), bz.compress(s.diff);
    OffLayout(|c|);
    OffLayout(|d|);
    OffLayout(size);
    assert p[8..16] == OffToBytes(|c|) && p[16..24] == OffToBytes(|d|) && p[24..32] == OffToBytes(size);
  }

  lemma OffLayout(n: nat)
    requires n < TWO_TO_63
    ensures |OffToBytes(n)| == 8 && Eight(OffToBytes(n)) == n
  {
    var b := OffToBytes(n);
    OffRoundTrip(n);
    Powers();
    TopDigit(n, 7);
    hide OffToBytes, BytesToOff, Digits;
    OffIs(b);
  }

  lemma Peel(all: seq<byte>, at: nat, b: seq<byte>, rest: seq<byte>, post: seq<byte>)
    requires at <= |all| && all[at..] == b + rest + post
    ensures at + |b| <= |all| && all[at..at + |b|] == b && all[at + |b|..] == rest + post
  {
    assert all[at..][..|b|] == b;
    assert all[at..][|b|..] == rest + post;
  }

  /** Where the parts of a patch file lie when it is embedded. */
  lemma Embedded(pre: seq<byte>, m: seq<byte>, h1: seq<byte>, h2: seq<byte>, h3: seq<byte>,
                 c: seq<byte>, d: seq<byte>, e: seq<byte>,
                 post: seq<byte>, all: seq<byte>)
    requires |m| == 8 && |h1| == 8 && |h2| == 8 && |h3| == 8
    requires all == pre + (m + (h1 + (h2 + (h3 + (c + (d + e)))))) + post
    ensures var off := |pre|; var body := off + 32;
            |all| >= body + |c| + |d| &&
            all[off..off + 8] == m && all[off + 8..off + 16] == h1 && all[off + 16..off + 24] == h2 &&
            all[off + 24..off + 32] == h3 &&
            all[body..body + |c|] == c && all[body + |c|..body + |c| + |d|] == d && all[body + |c| + |d|..] == e + post
  {
    var off := |pre|;
    assert all[off..] == m + (h1 + (h2 + (h3 + (c + (d + e))))) + post;
    Peel(all, off, m, h1 + (h2 + (h3 + (c + (d + e)))), post);
    Peel(all, off + 8, h1, h2 + (h3 + (c + (d + e))), post);
    Peel(all, off + 16, h2, h3 + (c + (d + e)), post);
    Peel(all, off + 24, h3, c + (d + e), post);
    Peel(all, off + 32, c, d + e, post);
    Peel(all, off + 32 + |c|, d, e, post);
  }

  /** Streams whose beginning is s replay to what s reaches. */
  lemma ReplayReached(source: seq<byte>, target: seq<byte>, s: Streams, pos: int, t: Streams)
    requires Reaches(source, |target|, s, pos, target)
    requires s.ctrl <= t.ctrl && s.diff <= t.diff && s.extra <= t.extra
    ensures Replay(source, |target|, t, 0, []) == Ok(target)
  {
    var r := Streams(t.ctrl[|s.ctrl|..], t.diff[|s.diff|..], t.extra[|s.extra|..]);
    assert s.Then(r) == t;
    ReplayEnds(source, |target|, r, pos, target);
  }

  lemma PatchApplies(bz: Bzip, source: seq<byte>, target: seq<byte>, s: Streams, pos: int, pre: seq<byte>,
                     post: seq<byte>)
    requires bz.Faithful() && |target| < TWO_TO_63
    requires |bz.compress(s.ctrl)| < TWO_TO_63 && |bz.compress(s.diff)| < TWO_TO_63
    requires Reaches(source, |target|, s, pos, target)
    ensures Patched(bz, source, pre + PatchFile(bz, s, |target|) + post, |pre|) == Ok(target)
  {
    hide Reaches, Replay, OffToBytes, BytesToOff;
    var c, d, e := bz.compress(s.ctrl), bz.compress(s.diff), bz.compress(s.extra);
    var all := pre + PatchFile(bz, s, |target|) + post;
    Embedded(pre, BSDIFF_MAGIC, OffToBytes(|c|), OffToBytes(|d|), OffToBytes(|target|), c, d, e, post, all);
    OffRoundTrip(|c|);
    OffRoundTrip(|d|);
    OffRoundTrip(|target|);
    assert c + [] == c && d + [] == d;
    assert s.ctrl <= bz.expand(c + []) && s.diff <= bz.expand(d + []) && s.extra <= bz.expand(e + post);
    ReplayReached(source, target, s, pos, Streams(bz.expand(c), bz.expand(d), bz.expand(e + post)));
  }

  /** bsdiff: builds the patch, sorting the suffixes of the source first unless the caller already
      has the sorted array. Wherever the patch is embedded, applying it to the source yields the
      target. */
  method Diff(bz: Bzip, source: seq<byte>, IP: array?<int>, target: seq<byte>) returns (patch: seq<byte>, I: array<int>)
    requires bz.Faithful() && |source| < TWO_TO_31 && |target| < TWO_TO_31
    requires IP != null ==> IP.Length == |source| + 1 && forall i :: 0 <= i < IP.Length ==> 0 <= IP[i] <= |source|
    ensures IP != null ==> I == IP
    ensures IP == null ==> IsSuffixArray(source, I[..])
    ensures PatchesTo(bz, source, patch, target)
  {
    if IP == null {
      I := new int[|source| + 1];
      var V := new int[|source| + 1];
      QSufSort.QSufSort(I, V, source);
    } else {
      I := IP;
    }
    var s := DiffStreams(I, source, target);
    assert |bz.compress(s.ctrl)| < TWO_TO_63 && |bz.compress(s.diff)| < TWO_TO_63;
    patch := PatchFile(bz, s, |target|);
    ghost var pos :| Reaches(source, |target|, s, pos, target);
    forall pre: seq<byte>, post: seq<byte> ensures Patched(bz, source, pre + patch + post, |pre|) == Ok(target) {
      PatchApplies(bz, source, target, s, pos, pre, post);
    }
  }
}
