/** The compressed list of a retouched binary (minelf/Retouch.c) from the side of whoever writes it: what each
    form of an entry stands for, and that a list is read back. */
module RetouchList {
  import opened Bytes
  import opened Codec
  import opened Retouch

  // ----- the three forms of an entry -----

  /** Two bytes: the word is s words further on, and its original value differs by delta. */
  function Short(s: nat, delta: int): seq<byte>
    requires 1 <= s <= 4 && -0x1000 <= delta < 0x1000
  {
    var m := delta % 0x2000;
    [0x80 + (s - 1) * 32 + m / 256, m % 256]
  }

  /** Three bytes: likewise. */
  function Middle(s: nat, delta: int): seq<byte>
    requires 1 <= s <= 4 && -0x8_0000 <= delta < 0x8_0000
  {
    var m := delta % 0x10_0000;
    [0x40 + (s - 1) * 16 + m / 0x1_0000, m / 256 % 256, m % 256]
  }

  /** The bytes of a word, the highest first. */
  function HighFirst(n: nat): seq<byte>
    requires n < WORD_32
  {
    [n / 0x100_0000, n / 0x1_0000 % 256, n / 256 % 256, n % 256]
  }

  /** Eight bytes: the place, where 3fffffff stands for -1, and the original value. */
  function Full(e: Entry): seq<byte>
    requires Encodable(e)
  {
    HighFirst(if e.offset == -1 then 0x3fff_ffff else e.offset) + HighFirst(e.original)
  }

  /** The place and value that an entry can have. */
  predicate Encodable(e: Entry) {
    -1 <= e.offset < 0x3fff_ffff && e.original < WORD_32
  }

  lemma ShortTop(s: nat, h: nat)
    requires 1 <= s <= 4 && h < 32
    ensures var b := 0x80 + (s - 1) * 32 + h; 128 <= b < 256 && b % 32 == h && b / 32 % 4 + 1 == s
  {
    assert s == 1 || s == 2 || s == 3 || s == 4;
  }

  lemma ShortDecodes(prev: Prev, s: nat, delta: int)
    requires 1 <= s <= 4 && -0x1000 <= delta < 0x1000
    ensures |Short(s, delta)| == 2 == Size(Short(s, delta)[0])
    ensures Decoded(Short(s, delta), prev) == Entry(prev.offset + 4 * s, (prev.original + delta) % WORD_32)
  {
    var m := delta % 0x2000;
    ShortTop(s, m / 256);
    assert m / 256 * 256 + m % 256 == m && Signed(m, 0x2000) == delta;
  }

  lemma MiddleTop(s: nat, h: nat)
    requires 1 <= s <= 4 && h < 16
    ensures var b := 0x40 + (s - 1) * 16 + h; 64 <= b < 128 && b % 16 == h && b / 16 % 4 + 1 == s
  {
    assert s == 1 || s == 2 || s == 3 || s == 4;
  }

  lemma ThreeBytes(m: nat)
    ensures m / 0x1_0000 * 0x1_0000 + m / 256 % 256 * 256 + m % 256 == m
  {
    var q := m / 256;
    assert m / 0x1_0000 == q / 256;
  }

  lemma MiddleDecodes(prev: Prev, s: nat, delta: int)
    requires 1 <= s <= 4 && -0x8_0000 <= delta < 0x8_0000
    ensures |Middle(s, delta)| == 3 == Size(Middle(s, delta)[0])
    ensures Decoded(Middle(s, delta), prev) == Entry(prev.offset + 4 * s, (prev.original + delta) % WORD_32)
  {
    var m := delta % 0x10_0000;
    MiddleTop(s, m / 0x1_0000);
    ThreeBytes(m);
    assert Signed(m, 0x10_0000) == delta;
  }

  lemma HighFirstRead(n: nat)
    requires n < WORD_32
    ensures BigEndian(HighFirst(n)) == n
  {
    assert n == (n / 0x100_0000) * 0x100_0000 + (n / 0x1_0000 % 256) * 0x1_0000 + (n / 256 % 256) * 256 + n % 256;
  }

  lemma FullDecodes(prev: Prev, e: Entry)
    requires Encodable(e)
    ensures |Full(e)| == 8 == Size(Full(e)[0]) && Decoded(Full(e), prev) == e
  {
    var n := if e.offset == -1 then 0x3fff_ffff else e.offset;
    HighFirstRead(n);
    HighFirstRead(e.original);
    assert Full(e)[..4] == HighFirst(n) && Full(e)[4..] == HighFirst(e.original);
    assert Full(e)[0] < 64;
    hide HighFirst, BigEndian;
  }

  // ----- lists -----

  /** How an entry is written after another: in the shortest form that can tell it. */
  function Encoded(prev: Prev, e: Entry): (b: seq<byte>)
    requires Encodable(e)
    ensures 2 <= |b| <= 8
  {
    var step, delta := e.offset - prev.offset, Int32(e.original - prev.original);
    if Near(step) && -0x1000 <= delta < 0x1000 then Short(step / 4, delta)
    else if Near(step) && -0x8_0000 <= delta < 0x8_0000 then Middle(step / 4, delta)
    else Full(e)
  }

  predicate Near(step: int) {
    step == 4 || step == 8 || step == 12 || step == 16
  }

  lemma DeltaAdds(a: nat, b: nat)
    requires b < WORD_32
    ensures (a + Int32(b - a)) % WORD_32 == b
  {
    var q := (b - a + 0x8000_0000) / WORD_32;
    assert Int32(b - a) == b - a - q * WORD_32;
    assert (b - q * WORD_32) % WORD_32 == b;
  }

  lemma EncodedDecodes(prev: Prev, e: Entry)
    requires Encodable(e)
    ensures Size(Encoded(prev, e)[0]) == |Encoded(prev, e)| && Decoded(Encoded(prev, e), prev) == e
  {
    hide Int32, Decoded, Short, Middle, Full, Size, Encodable;
    var step, delta := e.offset - prev.offset, Int32(e.original - prev.original);
    EncodableMeans(e);
    DeltaAdds(prev.original, e.original);
    if Near(step) && -0x1000 <= delta < 0x1000 {
      ShortDecodes(prev, step / 4, delta);
    } else if Near(step) && -0x8_0000 <= delta < 0x8_0000 {
      MiddleDecodes(prev, step / 4, delta);
    } else {
      FullDecodes(prev, e);
    }
  }

  lemma EncodableMeans(e: Entry)
    requires Encodable(e)
    ensures e.original < WORD_32
  {}

  ghost predicate AllEncodable(es: seq<Entry>) {
    forall i :: 0 <= i < |es| ==> Encodable(es[i])
  }

  function Blob(prev: Prev, es: seq<Entry>): seq<byte>
    requires AllEncodable(es)
    decreases |es|
  {
    if es == [] then [] else Encoded(prev, es[0]) + Blob(Prev(es[0].offset, es[0].original), es[1..])
  }

  lemma Cut(s: seq<byte>, pos: nat, r: nat, b: seq<byte>, rest: seq<byte>)
    requires pos <= r <= |s| && s[pos..r] == b + rest && b != []
    ensures pos + |b| <= r && s[pos] == b[0] && s[pos..pos + |b|] == b && s[pos + |b|..r] == rest
  {
    var text := s[pos..r];
    assert |text| == |b| + |rest| && text[0] == b[0] && text[..|b|] == b && text[|b|..] == rest;
    assert s[pos..pos + |b|] == text[..|b|] && s[pos + |b|..r] == text[|b|..];
  }

  lemma ListedWhen(s: seq<byte>, l: Layout, pos: nat, prev: Prev, e: Entry, es: seq<Entry>)
    requires Fitting(l, |s|) && pos < l.r && pos + Size(s[pos]) <= l.r && Inside(e, l)
    requires e == Decoded(s[pos..pos + Size(s[pos])], prev)
    requires Listed(s, l, pos + Size(s[pos]), Prev(e.offset, e.original)) == Some(es)
    ensures Listed(s, l, pos, prev) == Some([e] + es)
  {
    hide Decoded, Inside;
  }

  /** The written list is read back: the bytes from pos to the record are those of the list. */
  lemma {:induction false} BlobListed(s: seq<byte>, l: Layout, pos: nat, prev: Prev, es: seq<Entry>)
    requires Fitting(l, |s|) && l.b <= pos <= l.r && AllEncodable(es) && AllInside(es, l)
    requires s[pos..l.r] == Blob(prev, es)
    ensures Listed(s, l, pos, prev) == Some(es)
    decreases |es|
  {
    if es == [] {
      assert pos == l.r;
    } else {
      hide Decoded, Encoded, Size, Inside, Encodable, Listed;
      var e := es[0];
      var b, next := Encoded(prev, e), Prev(e.offset, e.original);
      EncodedDecodes(prev, e);
      EncodedLength(prev, e);
      Cut(s, pos, l.r, b, Blob(next, es[1..]));
      BlobListed(s, l, pos + |b|, next, es[1..]);
      ListedWhen(s, l, pos, prev, e, es[1..]);
      assert [e] + es[1..] == es;
    }
  }

  lemma EncodedLength(prev: Prev, e: Entry)
    requires Encodable(e)
    ensures 2 <= |Encoded(prev, e)| <= 8
  {}

  /** A binary with its list and both records behind it: tag and size, address and tag. */
  function Sealed(body: seq<byte>, es: seq<Entry>, address: seq<byte>): seq<byte>
    requires AllEncodable(es)
  {
    var blob := Blob(Prev(0, 0), es);
    body + blob + RETOUCH_TAG + Digits(|blob|, 4) + address + PRE_TAG
  }

  lemma Places(body: seq<byte>, blob: seq<byte>, size: seq<byte>, address: seq<byte>)
    requires |size| == 4 && |address| == 4
    ensures var s, r := body + blob + RETOUCH_TAG + size + address + PRE_TAG, |body| + |blob|;
            |s| == r + 20 && s[|body|..r] == blob && s[r..r + 8] == RETOUCH_TAG && s[r + 8..r + 12] == size &&
            s[r + 16..] == PRE_TAG
  {
    var head := body + blob;
    var s, r := head + RETOUCH_TAG + size + address + PRE_TAG, |head|;
    assert head[|body|..] == blob && s[..r] == head && s[|body|..r] == head[|body|..];
  }

  lemma SmallInt(n: int)
    requires 0 <= n < TWO_TO_31
    ensures Int32(n) == n
  {}

  lemma SealedLayout(body: seq<byte>, es: seq<Entry>, address: seq<byte>)
    requires AllEncodable(es) && |address| == 4 && |Sealed(body, es, address)| < TWO_TO_31
    ensures var s, r := Sealed(body, es, address), |body| + |Blob(Prev(0, 0), es)|;
            LayoutOf(s) == Layout(|body|, r, r + 12) && |s| == r + 20 && s[|body|..r] == Blob(Prev(0, 0), es)
  {
    hide Blob, Int32, FromDigits, Digits;
    var blob := Blob(Prev(0, 0), es);
    Places(body, blob, Digits(|blob|, 4), address);
    Powers();
    DigitsInverse(|blob|, 4);
    SmallInt(|body|);
    var s := Sealed(body, es, address);
    LayoutWhen(s, |body|, |body| + |blob|, |blob|);
  }

  lemma LayoutWhen(s: seq<byte>, b: nat, r: nat, size: nat)
    requires |s| == r + 20 && s[r..r + 8] == RETOUCH_TAG && s[r + 16..] == PRE_TAG
    requires FromDigits(s[r + 8..r + 12]) == size && b == r - size && Int32(b) == b
    ensures LayoutOf(s) == Layout(b, r, r + 12)
  {
    hide Int32, FromDigits;
  }

  /** The words listed in a binary are those that were written to its list. */
  lemma SealedWords(body: seq<byte>, es: seq<Entry>, address: seq<byte>)
    requires AllEncodable(es) && |address| == 4 && |Sealed(body, es, address)| < TWO_TO_31
    requires forall i :: 0 <= i < |es| ==> es[i].offset == -1 || 0 <= es[i].offset <= |body| - 4
    ensures Words(Sealed(body, es, address)) == Some(es)
  {
    hide Sealed, Blob, LayoutOf, Listed, Encodable;
    SealedLayout(body, es, address);
    var s := Sealed(body, es, address);
    BlobListed(s, LayoutOf(s), |body|, Prev(0, 0), es);
  }

  /** Masking such a binary rewrites exactly those words. */
  lemma SealedMasks(body: seq<byte>, es: seq<Entry>, address: seq<byte>, d: int)
    requires AllEncodable(es) && |address| == 4 && |Sealed(body, es, address)| < TWO_TO_31 && IsInt32(d)
    requires forall i :: 0 <= i < |es| ==> es[i].offset == -1 || 0 <= es[i].offset <= |body| - 4
    ensures var s := Sealed(body, es, address);
            Fitting(LayoutOf(s), |s|) && AllInside(es, LayoutOf(s)) &&
            Masked(s, Some(d)) == Outcome(Matched, Writes(s, LayoutOf(s), es, d), d)
  {
    hide *;
    SealedWords(body, es, address);
    WordsFit(Sealed(body, es, address));
    MaskWrites(Sealed(body, es, address), d);
  }

  /** Neither of the words reaches into the other. */
  predicate Apart(e: Entry, f: Entry, l: Layout)
    requires l.Layout?
  {
    At(f, l) + 4 <= At(e, l) || At(e, l) + 4 <= At(f, l)
  }

  lemma FirstStays(t: seq<byte>, l: Layout, e: Entry, es: seq<Entry>, d: int)
    requires Fitting(l, |t|) && AllInside(es, l) && Inside(e, l) && forall i :: 0 <= i < |es| ==> Apart(e, es[i], l)
    ensures Writes(t, l, es, d)[At(e, l)..At(e, l) + 4] == t[At(e, l)..At(e, l) + 4]
  {
    hide Writes;
    forall i | At(e, l) <= i < At(e, l) + 4 ensures Writes(t, l, es, d)[i] == t[i] {
      assert !Covered(es, l, i);
      WritesByte(t, t, l, es, d, i);
    }
  }

  /** A word that no later entry overlaps ends up with its original value plus d, the lowest byte first. */
  lemma {:induction false} WritesWord(s: seq<byte>, l: Layout, es: seq<Entry>, d: int, k: nat)
    requires Fitting(l, |s|) && AllInside(es, l) && k < |es| && forall i :: k < i < |es| ==> Apart(es[k], es[i], l)
    ensures 0 <= At(es[k], l) <= |s| - 4
    ensures Four(Writes(s, l, es, d)[At(es[k], l)..At(es[k], l) + 4]) == (es[k].original + d) % WORD_32
    decreases |es|
  {
    hide FromDigits, Put, Four;
    var at, w := At(es[0], l), (es[0].original + d) % WORD_32;
    if k > 0 {
      WritesWord(Put(s, at, w), l, es[1..], d, k - 1);
    } else {
      FirstStays(Put(s, at, w), l, es[0], es[1..], d);
      WordPut(s, at, w);
      FromFour(Put(s, at, w)[at..at + 4]);
    }
  }

  /** A list with an entry that is not before the blob is refused, after the words before it are written. */
  lemma {:induction false} ScanRefuses(s: seq<byte>, l: Layout, pos: nat, prev: Prev, es: seq<Entry>, k: nat,
                                       d: Option<int>, seen: Option<int>, mismatch: bool)
    requires Fitting(l, |s|) && l.b <= pos <= l.r && AllEncodable(es) && s[pos..l.r] == Blob(prev, es)
    requires k < |es| && AllInside(es[..k], l) && es[k].offset >= l.b
    ensures Scan(s, l, pos, prev, d, seen, mismatch).status == Error
    decreases |es|
  {
    hide Decoded, Encoded, Size, Encodable, Scan, Put, Shift;
    var e := es[0];
    var b, next := Encoded(prev, e), Prev(e.offset, e.original);
    EncodedDecodes(prev, e);
    EncodedLength(prev, e);
    Cut(s, pos, l.r, b, Blob(next, es[1..]));
    if k == 0 {
      ScanStep(s, s, l, pos, prev, d, seen, mismatch, e);
    } else {
      assert es[..k][0] == e && es[..k][1..] == es[1..][..k - 1];
      assert Inside(e, l);
      var s' := if d.Some? then Put(s, At(e, l), (e.original + d.value) % WORD_32) else s;
      ScanStep(s, s', l, pos, prev, d, seen, mismatch, e);
      PutSpares(s, l, e, d);
      assert s'[pos + |b|..l.r] == s[pos + |b|..l.r];
      var shift := Shift(s', At(e, l), e.original);
      ScanRefuses(s', l, pos + |b|, next, es[1..], k - 1, d, if seen == None then Some(shift) else seen,
                  mismatch || (seen.Some? && seen.value != shift));
    }
  }

  lemma PutSpares(s: seq<byte>, l: Layout, e: Entry, d: Option<int>)
    requires Fitting(l, |s|) && Inside(e, l)
    ensures 0 <= At(e, l) <= |s| - 8
    ensures d.Some? ==>
              var t := Put(s, At(e, l), (e.original + d.value) % WORD_32);
              |t| == |s| && forall i :: l.b <= i < l.r ==> t[i] == s[i]
  {}

  lemma SealedRefused(body: seq<byte>, es: seq<Entry>, address: seq<byte>, k: nat, d: Option<int>)
    requires AllEncodable(es) && |address| == 4 && |Sealed(body, es, address)| < TWO_TO_31 && k < |es|
    requires forall i :: 0 <= i < k ==> es[i].offset == -1 || 0 <= es[i].offset <= |body| - 4
    requires es[k].offset >= |body|
    ensures Masked(Sealed(body, es, address), d).status == Error
  {
    hide Sealed, Blob, LayoutOf, Encodable, Scan;
    SealedLayout(body, es, address);
    var s := Sealed(body, es, address);
    ScanRefuses(s, LayoutOf(s), |body|, Prev(0, 0), es, k, d, None, false);
  }
}
