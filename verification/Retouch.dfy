/** Retouching of prelinked libraries (minelf/Retouch.c): a compressed list of words at the end of the
    binary, decoded with a running state, and the words rewritten in place or compared. */
module Retouch {
  import opened Bytes
  import opened Codec

  predicate IsInt32(n: int) {
    -0x8000_0000 <= n < 0x8000_0000
  }

  // ----- the compressed list -----

  /** The decoder's memory of the entry before. */
  datatype Prev = Prev(offset: int, original: nat)

  datatype Entry = Entry(offset: int, original: nat)

  /** The length of an encoded entry, from its first byte. */
  function Size(b: byte): nat {
    if b >= 128 then 2 else if b >= 64 then 3 else 8
  }

  /** A number of that many bits in two's complement. */
  function Signed(n: int, bits: int): int {
    if n >= bits / 2 then n - bits else n
  }

  /** decode_bytes: small entries step forward from the one before, long ones stand alone. */
  function Decoded(b: seq<byte>, prev: Prev): Entry
    requires |b| > 0 && |b| == Size(b[0])
  {
    var b0: int := b[0];
    var b1: int := b[1];
    if b0 >= 128 then
      Entry(prev.offset + (b0 / 32 % 4 + 1) * 4, (prev.original + Signed(b0 % 32 * 256 + b1, 0x2000)) % WORD_32)
    else if b0 >= 64 then
      Entry(prev.offset + (b0 / 16 % 4 + 1) * 4,
            (prev.original + Signed(b0 % 16 * 0x1_0000 + b1 * 256 + b[2], 0x10_0000)) % WORD_32)
    else
      var offset := BigEndian(b[..4]);
      Entry(if offset == 0x3fff_ffff then -1 else offset, BigEndian(b[4..]))
  }

  function BigEndian(b: seq<byte>): (n: nat)
    requires |b| == 4
    ensures n < WORD_32
  {
    var b0: int := b[0];
    var b1: int := b[1];
    var b2: int := b[2];
    b0 * 0x100_0000 + b1 * 0x1_0000 + b2 * 256 + b[3]
  }

  /** The static variables of the decoder. */
  class Decoder {
    var prev: Prev

    /** init_compression_state. */
    constructor ()
      ensures prev == Prev(0, 0)
    {
      prev := Prev(0, 0);
    }

    /** decode_in_memory. */
    method Decode(a: array<byte>, pos: nat) returns (next: nat, e: Entry)
      requires pos + 8 <= a.Length
      modifies this
      ensures next == pos + Size(a[pos])
      ensures e == Decoded(a[pos..next], old(prev)) && prev == Prev(e.offset, e.original)
    {
      var size := Size(a[pos]);
      var input := [a[pos]];
      next := pos + 1;
      while |input| < size
        invariant next == pos + |input| && |input| <= size && input == a[pos..next] && input[0] == a[pos]
      {
        input := input + [a[next]];
        next := next + 1;
      }
      e := Decoded(input, prev);
      prev := Prev(e.offset, e.original);
    }
  }

  // ----- the footer -----

  /** Where the blob, the retouch record and the prelink record start. */
  datatype Layout = Plain | Broken | Layout(b: nat, r: nat, p: nat)

  const PRE_TAG: seq<byte> := [0x50, 0x52, 0x45, 0x20]
  const RETOUCH_TAG: seq<byte> := [0x52, 0x45, 0x54, 0x4f, 0x55, 0x43, 0x48, 0x20]

  /** The records sit at the end: tag and blob size, then address and tag. The blob's start is computed
      in 32-bit arithmetic and may wrap. */
  function LayoutOf(s: seq<byte>): (l: Layout)
    ensures l.Layout? ==> l.r + 12 == l.p && l.p + 8 == |s|
  {
    var p := |s| - 8;
    var r := p - 12;
    if r < 0 || s[p + 4..] != PRE_TAG || s[r..r + 8] != RETOUCH_TAG then Plain
    else
      var b := Int32(r - FromDigits(s[r + 8..r + 12]));
      if b < 0 then Broken else Layout(b, r, p)
  }

  // ----- words -----

  function Word(s: seq<byte>, at: nat): nat
    requires at + 4 <= |s|
  {
    FromDigits(s[at..at + 4])
  }

  function Put(s: seq<byte>, at: nat, w: nat): (r: seq<byte>)
    requires at + 4 <= |s|
    ensures |r| == |s|
    ensures forall i :: 0 <= i < |s| && !(at <= i < at + 4) ==> r[i] == s[i]
  {
    s[..at] + Digits(w, 4) + s[at + 4..]
  }

  lemma WordPut(s: seq<byte>, at: nat, w: nat)
    requires at + 4 <= |s| && w < WORD_32
    ensures Word(Put(s, at, w), at) == w
  {
    assert Put(s, at, w)[at..at + 4] == Digits(w, 4);
    Powers();
    DigitsInverse(w, 4);
  }

  /** The word of an entry; offset -1 stands for the address in the prelink record. */
  function At(e: Entry, l: Layout): int
    requires l.Layout?
  {
    if e.offset == -1 then l.p else e.offset
  }

  function Shift(s: seq<byte>, at: nat, original: nat): int
    requires at + 4 <= |s|
  {
    Int32(Word(s, at) - original)
  }

  // ----- the whole pass -----

  datatype Status = Error | Matched | Mismatched | NotApplicable

  /** What retouch_mask_data returns, leaves in the binary and stores in retouch_offset. */
  datatype Outcome = Outcome(status: Status, data: seq<byte>, offset: int)

  function Target(d: Option<int>): int {
    if d.Some? then d.value else 0
  }

  /** The pass from blob position pos on. Words may reach into the blob, so it reads what it has written. */
  function Scan(s: seq<byte>, l: Layout, pos: nat, prev: Prev, d: Option<int>, seen: Option<int>,
                mismatch: bool): Outcome
    requires l.Layout? && l.r + 12 == l.p && l.p + 8 == |s| && l.b <= pos
    decreases l.r - pos
  {
    if pos > l.r then Outcome(Error, s, Target(d))
    else if pos == l.r then
      if mismatch then Outcome(Mismatched, s, Target(d))
      else Outcome(Matched, s, if seen.Some? then seen.value else Target(d))
    else
      var next := pos + Size(s[pos]);
      var e := Decoded(s[pos..next], prev);
      if e.offset < -1 || e.offset >= l.b then Outcome(Error, s, Target(d))
      else
        var at := At(e, l);
        var s' := if d.Some? then Put(s, at, (e.original + d.value) % WORD_32) else s;
        var shift := Shift(s', at, e.original);
        Scan(s', l, next, Prev(e.offset, e.original), d, if seen == None then Some(shift) else seen,
             mismatch || (seen.Some? && seen.value != shift))
  }

  function Masked(s: seq<byte>, d: Option<int>): Outcome {
    var l := LayoutOf(s);
    match l
    case Plain => Outcome(if d == None then NotApplicable else Matched, s, Target(d))
    case Broken => Outcome(Error, s, Target(d))
    case Layout(b, _, _) => Scan(s, l, b, Prev(0, 0), d, None, false)
  }

  method PutWord(a: array<byte>, at: nat, w: nat)
    requires at + 4 <= a.Length
    modifies a
    ensures a[..] == Put(old(a[..]), at, w)
  {
    var d := Digits(w, 4);
    a[at], a[at + 1], a[at + 2], a[at + 3] := d[0], d[1], d[2], d[3];
  }

  /** One step of the pass. */
  lemma ScanStep(s: seq<byte>, s': seq<byte>, l: Layout, pos: nat, prev: Prev, d: Option<int>, seen: Option<int>,
                 mismatch: bool, e: Entry)
    requires l.Layout? && l.r + 12 == l.p && l.p + 8 == |s| && l.b <= pos < l.r
    requires e == Decoded(s[pos..pos + Size(s[pos])], prev)
    ensures e.offset < -1 || e.offset >= l.b ==>
              Scan(s, l, pos, prev, d, seen, mismatch) == Outcome(Error, s, Target(d))
    ensures -1 <= e.offset < l.b &&
            s' == (if d.Some? then Put(s, At(e, l), (e.original + d.value) % WORD_32) else s) ==>
              var shift := Shift(s', At(e, l), e.original);
              Scan(s, l, pos, prev, d, seen, mismatch) ==
                Scan(s', l, pos + Size(s[pos]), Prev(e.offset, e.original), d,
                     if seen == None then Some(shift) else seen,
                     mismatch || (seen.Some? && seen.value != shift))
  {
    hide Decoded, Put, Shift;
  }

  lemma ScanEnd(s: seq<byte>, l: Layout, pos: nat, prev: Prev, d: Option<int>, seen: Option<int>, mismatch: bool)
    requires l.Layout? && l.r + 12 == l.p && l.p + 8 == |s| && l.b <= pos && pos >= l.r
    ensures Scan(s, l, pos, prev, d, seen, mismatch) ==
            if pos > l.r then Outcome(Error, s, Target(d))
            else if mismatch then Outcome(Mismatched, s, Target(d))
            else Outcome(Matched, s, if seen.Some? then seen.value else Target(d))
  {}

  lemma MaskedStart(s: seq<byte>, d: Option<int>)
    ensures var l := LayoutOf(s);
            Masked(s, d) == match l
                            case Plain => Outcome(if d == None then NotApplicable else Matched, s, Target(d))
                            case Broken => Outcome(Error, s, Target(d))
                            case Layout(b, _, _) => Scan(s, l, b, Prev(0, 0), d, None, false)
  {
    hide LayoutOf, Scan;
  }

  /** retouch_mask_data, in place. Every access is inside the binary, whatever it holds. */
  method MaskData(a: array<byte>, desired: Option<int>) returns (status: Status, offset: int)
    modifies a
    ensures Outcome(status, a[..], offset) == Masked(old(a[..]), desired)
  {
    hide *;
    offset := Target(desired);
    ghost var s := a[..];
    MaskedStart(s, desired);
    var l := LayoutOf(a[..]);
    if l.Plain? {
      return if desired == None then NotApplicable else Matched, offset;
    }
    if l.Broken? {
      return Error, offset;
    }
    var candidate, known, mismatch := offset, false, false;
    var decoder := new Decoder();
    var pos := l.b;
    while pos < l.r
      invariant l.b <= pos && (known || candidate == offset)
      invariant Masked(s, desired) ==
                Scan(a[..], l, pos, decoder.prev, desired, if known then Some(candidate) else None, mismatch)
      decreases l.r - pos
    {
      ghost var before, prev := a[..], decoder.prev;
      SizeSmall(a[pos]);
      var next, e := decoder.Decode(a, pos);
      assert before[pos..next] == a[pos..next];
      ScanStep(before, before, l, pos, prev, desired, if known then Some(candidate) else None, mismatch, e);
      if e.offset < -1 || e.offset >= l.b {
        return Error, offset;
      }
      AtInside(e, l);
      var at := At(e, l);
      if desired.Some? {
        NonNegative(e.original + desired.value);
        PutWord(a, at, (e.original + desired.value) % WORD_32);
      }
      ScanStep(before, a[..], l, pos, prev, desired, if known then Some(candidate) else None, mismatch, e);
      var shift := Shift(a[..], at, e.original);
      if !known {
        candidate, known := shift, true;
      } else if candidate != shift {
        mismatch := true;
      }
      pos := next;
    }
    ScanEnd(a[..], l, pos, decoder.prev, desired, if known then Some(candidate) else None, mismatch);
    if pos > l.r {
      return Error, offset;
    }
    if mismatch {
      return Mismatched, offset;
    }
    return Matched, candidate;
  }

  lemma SizeSmall(b: byte)
    ensures 2 <= Size(b) <= 8
  {}

  lemma AtInside(e: Entry, l: Layout)
    requires l.Layout? && -1 <= e.offset
    ensures At(e, l) == if e.offset == -1 then l.p else e.offset
  {}

  lemma NonNegative(n: int)
    ensures WORD_32 > 0 && 0 <= n % WORD_32 < WORD_32
  {}

  // ----- well-formed blobs -----

  /** A layout of a binary of n bytes. */
  predicate Fitting(l: Layout, n: nat) {
    l.Layout? && l.r + 12 == l.p && l.p + 8 == n && l.b <= l.r
  }

  /** The entry's word is the prelink address or ends before the blob. */
  predicate Inside(e: Entry, l: Layout)
    requires l.Layout?
  {
    e.offset == -1 || 0 <= e.offset <= l.b - 4
  }

  /** The entries of the blob, if they fill it exactly and their words end before it. */
  function Listed(s: seq<byte>, l: Layout, pos: nat, prev: Prev): (r: Option<seq<Entry>>)
    requires Fitting(l, |s|)
    ensures r.Some? ==> AllInside(r.value, l)
    decreases l.r - pos
  {
    if pos == l.r then Some([])
    else if pos > l.r || pos + Size(s[pos]) > l.r then None
    else
      var e := Decoded(s[pos..pos + Size(s[pos])], prev);
      var rest := Listed(s, l, pos + Size(s[pos]), Prev(e.offset, e.original));
      if Inside(e, l) && rest.Some? then Some([e] + rest.value) else None
  }

  predicate AllInside(es: seq<Entry>, l: Layout)
    requires l.Layout?
  {
    forall i :: 0 <= i < |es| ==> Inside(es[i], l)
  }

  /** The binary with every listed word set to its original value plus d. */
  function Writes(s: seq<byte>, l: Layout, es: seq<Entry>, d: int): (r: seq<byte>)
    requires Fitting(l, |s|) && AllInside(es, l)
    ensures |r| == |s|
    decreases |es|
  {
    if es == [] then s
    else Writes(Put(s, At(es[0], l), (es[0].original + d) % WORD_32), l, es[1..], d)
  }

  /** Byte i belongs to a listed word. */
  ghost predicate Covered(es: seq<Entry>, l: Layout, i: int)
    requires l.Layout?
  {
    exists k :: 0 <= k < |es| && At(es[k], l) <= i < At(es[k], l) + 4
  }

  lemma CoveredStep(es: seq<Entry>, l: Layout, i: int)
    requires l.Layout? && es != []
    ensures Covered(es, l, i) <==> At(es[0], l) <= i < At(es[0], l) + 4 || Covered(es[1..], l, i)
  {
    if Covered(es, l, i) {
      var k :| 0 <= k < |es| && At(es[k], l) <= i < At(es[k], l) + 4;
      if k > 0 { assert es[1..][k - 1] == es[k]; }
    }
    if Covered(es[1..], l, i) {
      var k :| 0 <= k < |es[1..]| && At(es[1..][k], l) <= i < At(es[1..][k], l) + 4;
      assert es[k + 1] == es[1..][k];
    }
  }

  /** Bytes outside the listed words keep their value; those inside end up the same from any start. */
  lemma {:induction false} WritesByte(s: seq<byte>, t: seq<byte>, l: Layout, es: seq<Entry>, d: int, i: nat)
    requires Fitting(l, |s|) && |t| == |s| && AllInside(es, l) && i < |s|
    ensures !Covered(es, l, i) ==> Writes(s, l, es, d)[i] == s[i]
    ensures Covered(es, l, i) || s[i] == t[i] ==> Writes(s, l, es, d)[i] == Writes(t, l, es, d)[i]
    decreases |es|
  {
    if es != [] {
      hide Covered, Int32;
      CoveredStep(es, l, i);
      var w := (es[0].original + d) % WORD_32;
      WritesByte(Put(s, At(es[0], l), w), Put(t, At(es[0], l), w), l, es[1..], d, i);
    } else {
      assert !Covered(es, l, i);
    }
  }

  /** Masking twice is masking once, with the second offset. */
  lemma WritesTwice(s: seq<byte>, l: Layout, es: seq<Entry>, d: int, e: int)
    requires Fitting(l, |s|) && AllInside(es, l)
    ensures Writes(Writes(s, l, es, d), l, es, e) == Writes(s, l, es, e)
  {
    hide Writes, AllInside, Covered;
    var t := Writes(s, l, es, d);
    forall i | 0 <= i < |s|
      ensures Writes(t, l, es, e)[i] == Writes(s, l, es, e)[i]
    {
      WritesByte(s, s, l, es, d, i);
      WritesByte(t, s, l, es, e, i);
    }
  }

  /** The words of the blob and both records, apart from the address, are not touched. */
  lemma WritesSpare(s: seq<byte>, l: Layout, es: seq<Entry>, d: int, i: nat)
    requires Fitting(l, |s|) && AllInside(es, l) && l.b <= i < |s| && !(l.p <= i < l.p + 4)
    ensures Writes(s, l, es, d)[i] == s[i]
  {
    hide Writes;
    assert !Covered(es, l, i);
    WritesByte(s, s, l, es, d, i);
  }

  ghost predicate SameBlob(s: seq<byte>, t: seq<byte>, l: Layout)
  {
    |s| == |t| && Fitting(l, |s|) &&
    forall i :: l.b <= i < |s| && !(l.p <= i < l.p + 4) ==> s[i] == t[i]
  }

  lemma {:induction false} ListedSame(s: seq<byte>, t: seq<byte>, l: Layout, pos: nat, prev: Prev)
    requires SameBlob(s, t, l) && l.b <= pos
    ensures Listed(s, l, pos, prev) == Listed(t, l, pos, prev)
    decreases l.r - pos
  {
    if pos < l.r {
      hide Decoded, Inside, AllInside;
      var n := Size(s[pos]);
      SizeSmall(s[pos]);
      if pos + n <= l.r {
        assert s[pos..pos + n] == t[pos..pos + n];
        var e := Decoded(s[pos..pos + n], prev);
        ListedSame(s, t, l, pos + n, Prev(e.offset, e.original));
      }
    }
  }

  lemma LayoutSame(s: seq<byte>, t: seq<byte>, l: Layout)
    requires l == LayoutOf(s) && SameBlob(s, t, l)
    ensures LayoutOf(t) == l
  {
    hide Int32, FromDigits;
    assert s[l.p + 4..] == t[l.p + 4..];
    assert s[l.r..l.r + 8] == t[l.r..l.r + 8];
    assert s[l.r + 8..l.r + 12] == t[l.r + 8..l.r + 12];
  }

  /** The listed entries of a binary with a well-formed blob. */
  function Words(s: seq<byte>): Option<seq<Entry>> {
    var l := LayoutOf(s);
    if Fitting(l, |s|) then Listed(s, l, l.b, Prev(0, 0)) else None
  }

  lemma ShiftIsTarget(original: nat, d: int)
    requires IsInt32(d)
    ensures Int32((original + d) % WORD_32 - original) == d
  {
    var q := (original + d) / WORD_32;
    assert (original + d) % WORD_32 - original == d - q * WORD_32;
    assert (d - q * WORD_32 + 0x8000_0000) % WORD_32 == d + 0x8000_0000;
  }

  lemma ShiftPut(s: seq<byte>, at: nat, original: nat, d: int)
    requires at + 4 <= |s| && IsInt32(d)
    ensures (original + d) % WORD_32 >= 0 && Shift(Put(s, at, (original + d) % WORD_32), at, original) == d
  {
    hide Word, Put, Int32;
    WordPut(s, at, (original + d) % WORD_32);
    ShiftIsTarget(original, d);
  }

  /** The first entry of the rest of the list. */
  lemma ListedStep(s: seq<byte>, l: Layout, pos: nat, prev: Prev)
    requires Fitting(l, |s|) && l.b <= pos && Listed(s, l, pos, prev).Some?
    ensures pos <= l.r
    ensures pos == l.r ==> Listed(s, l, pos, prev).value == []
    ensures pos < l.r ==>
              var n := Size(s[pos]);
              var e := Decoded(s[pos..pos + n], prev);
              var rest := Listed(s, l, pos + n, Prev(e.offset, e.original));
              2 <= n <= 8 && Inside(e, l) && rest.Some? && Listed(s, l, pos, prev).value == [e] + rest.value
  {
    hide Decoded, Inside;
  }

  lemma WritesStep(s: seq<byte>, l: Layout, e: Entry, es: seq<Entry>, d: int)
    requires Fitting(l, |s|) && AllInside([e] + es, l)
    ensures Inside(e, l) && AllInside(es, l) && 0 <= At(e, l) <= |s| - 8 && -1 <= e.offset < l.b
    ensures Writes(s, l, [e] + es, d) == Writes(Put(s, At(e, l), (e.original + d) % WORD_32), l, es, d)
    ensures SameBlob(s, Put(s, At(e, l), (e.original + d) % WORD_32), l)
  {
    hide Put;
    assert ([e] + es)[0] == e && ([e] + es)[1..] == es;
    assert forall i :: 0 <= i < |es| ==> es[i] == ([e] + es)[i + 1];
  }

  lemma WritesNothing(s: seq<byte>, l: Layout, d: int)
    requires Fitting(l, |s|)
    ensures AllInside([], l) && Writes(s, l, [], d) == s
  {}

  /** On a well-formed blob the pass does the writes and reports the offset. */
  lemma {:induction false} ScanWrites(s: seq<byte>, l: Layout, pos: nat, prev: Prev, d: int, seen: Option<int>)
    requires Fitting(l, |s|) && l.b <= pos && Listed(s, l, pos, prev).Some? && IsInt32(d)
    requires seen == None || seen == Some(d)
    ensures Scan(s, l, pos, prev, Some(d), seen, false) ==
            Outcome(Matched, Writes(s, l, Listed(s, l, pos, prev).value, d), d)
    decreases l.r - pos
  {
    hide Decoded, Scan, Put, Shift, Writes, AllInside, Listed, IsInt32, Size, Inside;
    ListedStep(s, l, pos, prev);
    if pos == l.r {
      ScanEnd(s, l, pos, prev, Some(d), seen, false);
      WritesNothing(s, l, d);
    } else {
      var n := Size(s[pos]);
      var e := Decoded(s[pos..pos + n], prev);
      var next := Prev(e.offset, e.original);
      var es := Listed(s, l, pos + n, next).value;
      WritesStep(s, l, e, es, d);
      ShiftPut(s, At(e, l), e.original, d);
      var s' := Put(s, At(e, l), (e.original + d) % WORD_32);
      ScanStep(s, s', l, pos, prev, Some(d), seen, false, e);
      ListedSame(s, s', l, pos + n, next);
      ScanWrites(s', l, pos + n, next, d, Some(d));
    }
  }

  /** Masking to offset d: matched, d reported, exactly the listed words rewritten, the list unharmed. */
  lemma MaskWrites(s: seq<byte>, d: int)
    requires Words(s).Some? && IsInt32(d)
    ensures Masked(s, Some(d)) == Outcome(Matched, Writes(s, LayoutOf(s), Words(s).value, d), d)
    ensures Words(Masked(s, Some(d)).data) == Words(s) && LayoutOf(Masked(s, Some(d)).data) == LayoutOf(s)
  {
    var l := LayoutOf(s);
    var es := Words(s).value;
    hide LayoutOf, Writes, Listed, Scan;
    ScanWrites(s, l, l.b, Prev(0, 0), d, None);
    var t := Writes(s, l, es, d);
    forall i | l.b <= i < |s| && !(l.p <= i < l.p + 4)
      ensures s[i] == t[i]
    {
      WritesSpare(s, l, es, d, i);
    }
    LayoutSame(s, t, l);
    ListedSame(s, t, l, l.b, Prev(0, 0));
  }

  /** Masking after masking depends on the last offset only: it is idempotent, and masking to 0 undoes
      any other. */
  lemma MaskAgain(s: seq<byte>, d: int, e: int)
    requires Words(s).Some? && IsInt32(d) && IsInt32(e)
    ensures Masked(Masked(s, Some(d)).data, Some(e)) == Masked(s, Some(e))
  {
    hide *;
    MaskWrites(s, d);
    MaskWrites(s, e);
    MaskWrites(Masked(s, Some(d)).data, e);
    WordsFit(s);
    WritesTwice(s, LayoutOf(s), Words(s).value, d, e);
  }

  lemma WordsFit(s: seq<byte>)
    requires Words(s).Some?
    ensures Fitting(LayoutOf(s), |s|) && AllInside(Words(s).value, LayoutOf(s))
  {}

  // ----- inferring the offset -----

  /** The offset an entry's word is at. */
  function ShiftOf(s: seq<byte>, l: Layout, e: Entry): int
    requires Fitting(l, |s|) && Inside(e, l)
  {
    Shift(s, At(e, l), e.original)
  }

  /** All entries are at offset v. */
  ghost predicate AllAt(s: seq<byte>, l: Layout, es: seq<Entry>, v: int)
    requires Fitting(l, |s|) && AllInside(es, l)
  {
    forall i :: 0 <= i < |es| ==> ShiftOf(s, l, es[i]) == v
  }

  lemma AllAtStep(s: seq<byte>, l: Layout, e: Entry, es: seq<Entry>, v: int)
    requires Fitting(l, |s|) && AllInside([e] + es, l)
    ensures Inside(e, l) && AllInside(es, l) && -1 <= e.offset < l.b
    ensures AllAt(s, l, [e] + es, v) <==> ShiftOf(s, l, e) == v && AllAt(s, l, es, v)
  {
    hide Shift;
    var all := [e] + es;
    assert all[0] == e && forall i :: 0 <= i < |es| ==> es[i] == all[i + 1];
    assert forall i :: 1 <= i < |all| ==> all[i] == es[i - 1];
  }

  /** Without a desired offset nothing is written, and the pass matches exactly when no mismatch was seen
      and all entries agree with the offset seen first. */
  lemma {:induction false} ScanInfers(s: seq<byte>, l: Layout, pos: nat, prev: Prev, seen: Option<int>, mismatch: bool)
    requires Fitting(l, |s|) && l.b <= pos && Listed(s, l, pos, prev).Some?
    requires mismatch ==> seen.Some?
    ensures var es := Listed(s, l, pos, prev).value;
            var first := if seen.Some? then seen.value else if es != [] then ShiftOf(s, l, es[0]) else 0;
            Scan(s, l, pos, prev, None, seen, mismatch) ==
              if !mismatch && AllAt(s, l, es, first) then Outcome(Matched, s, first) else Outcome(Mismatched, s, 0)
    decreases l.r - pos
  {
    hide Decoded, Scan, Shift, AllInside, Listed, Size, Inside, AllAt;
    ListedStep(s, l, pos, prev);
    if pos == l.r {
      ScanEnd(s, l, pos, prev, None, seen, mismatch);
      AllAtNone(s, l, if seen.Some? then seen.value else 0);
    } else {
      var n := Size(s[pos]);
      var e := Decoded(s[pos..pos + n], prev);
      var next := Prev(e.offset, e.original);
      var es := Listed(s, l, pos + n, next).value;
      var shift := ShiftOf(s, l, e);
      var first := if seen.Some? then seen.value else shift;
      AllAtStep(s, l, e, es, first);
      ScanStep(s, s, l, pos, prev, None, seen, mismatch, e);
      ScanInfers(s, l, pos + n, next, Some(first), mismatch || first != shift);
    }
  }

  lemma AllAtNone(s: seq<byte>, l: Layout, v: int)
    requires Fitting(l, |s|)
    ensures AllInside([], l) && AllAt(s, l, [], v)
  {}

  /** Inference on a well-formed blob: the binary is not changed, and the result is a match exactly when
      all words are at one offset, which is the one reported. */
  lemma InferExactly(s: seq<byte>, v: int)
    requires Words(s).Some?
    ensures var es := Words(s).value;
            var first := if es != [] then ShiftOf(s, LayoutOf(s), es[0]) else 0;
            Masked(s, None) ==
              if AllAt(s, LayoutOf(s), es, first) then Outcome(Matched, s, first) else Outcome(Mismatched, s, 0)
    ensures Words(s).value != [] ==>
              (Masked(s, None) == Outcome(Matched, s, v) <==> AllAt(s, LayoutOf(s), Words(s).value, v))
  {
    var l := LayoutOf(s);
    hide Listed, LayoutOf, Scan, Shift;
    ScanInfers(s, l, l.b, Prev(0, 0), None, false);
    var es := Words(s).value;
    if es != [] && AllAt(s, l, es, v) {
      assert ShiftOf(s, l, es[0]) == v;
    }
  }

  /** No two listed words share a byte. */
  ghost predicate Disjoint(es: seq<Entry>, l: Layout)
    requires l.Layout?
  {
    forall i, j :: 0 <= i < j < |es| ==> At(es[i], l) + 4 <= At(es[j], l) || At(es[j], l) + 4 <= At(es[i], l)
  }

  lemma DisjointRest(es: seq<Entry>, l: Layout)
    requires l.Layout? && Disjoint(es, l) && AllInside(es, l) && es != []
    ensures es == [es[0]] + es[1..] && Disjoint(es[1..], l) && AllInside(es[1..], l)
    ensures forall i :: At(es[0], l) <= i < At(es[0], l) + 4 ==> !Covered(es[1..], l, i)
  {
    var rest := es[1..];
    assert forall i :: 0 <= i < |rest| ==> rest[i] == es[i + 1];
  }

  /** Later words do not disturb the first. */
  lemma WritesFirst(s: seq<byte>, l: Layout, es: seq<Entry>, d: int)
    requires Fitting(l, |s|) && AllInside(es, l) && Disjoint(es, l) && es != [] && IsInt32(d)
    ensures ShiftOf(Writes(s, l, es, d), l, es[0]) == d
  {
    hide Put, Shift, Int32, Writes, Covered, Disjoint, AllInside;
    var e, rest := es[0], es[1..];
    DisjointRest(es, l);
    WritesStep(s, l, e, rest, d);
    var at := At(e, l);
    var s' := Put(s, at, (e.original + d) % WORD_32);
    ShiftPut(s, at, e.original, d);
    var t := Writes(s', l, rest, d);
    forall i | at <= i < at + 4
      ensures t[i] == s'[i]
    {
      WritesByte(s', s', l, rest, d, i);
    }
    ShiftSame(s', t, at, e.original);
  }

  lemma {:induction false} WritesWord(s: seq<byte>, l: Layout, es: seq<Entry>, d: int, k: nat)
    requires Fitting(l, |s|) && AllInside(es, l) && Disjoint(es, l) && k < |es| && IsInt32(d)
    ensures Inside(es[k], l) && ShiftOf(Writes(s, l, es, d), l, es[k]) == d
    decreases |es|
  {
    if k == 0 {
      WritesFirst(s, l, es, d);
    } else {
      var e, rest := es[0], es[1..];
      assert AllInside(es, l) && Inside(es[k], l);
      hide Put, Shift, Int32, Writes, Covered, Disjoint, AllInside;
      DisjointRest(es, l);
      WritesStep(s, l, e, rest, d);
      WritesWord(Put(s, At(e, l), (e.original + d) % WORD_32), l, rest, d, k - 1);
    }
  }

  lemma ShiftSame(s: seq<byte>, t: seq<byte>, at: nat, original: nat)
    requires |s| == |t| && at + 4 <= |s| && forall i :: at <= i < at + 4 ==> s[i] == t[i]
    ensures Shift(s, at, original) == Shift(t, at, original)
  {
    assert s[at..at + 4] == t[at..at + 4];
  }

  /** After masking to d, inference over a non-empty list of separate words finds d. */
  lemma InferAfterMask(s: seq<byte>, d: int)
    requires Words(s).Some? && Words(s).value != [] && Disjoint(Words(s).value, LayoutOf(s)) && IsInt32(d)
    ensures Masked(Masked(s, Some(d)).data, None) == Outcome(Matched, Masked(s, Some(d)).data, d)
  {
    var l, es, t := LayoutOf(s), Words(s).value, Masked(s, Some(d)).data;
    hide LayoutOf, Words, Masked, Writes, Shift, Listed, Scan;
    WordsFit(s);
    MaskWrites(s, d);
    forall k | 0 <= k < |es|
      ensures ShiftOf(t, l, es[k]) == d
    {
      WritesWord(s, l, es, d, k);
    }
    InferExactly(t, d);
  }

  lemma {:induction false} ScanNeverMismatched(s: seq<byte>, l: Layout, pos: nat, prev: Prev, d: int, seen: Option<int>)
    requires l.Layout? && l.r + 12 == l.p && l.p + 8 == |s| && l.b <= pos && IsInt32(d)
    requires seen == None || seen == Some(d)
    ensures var r := Scan(s, l, pos, prev, Some(d), seen, false); r.status in {Matched, Error} && r.offset == d
    decreases l.r - pos
  {
    hide Decoded, Scan, Put, Shift, IsInt32, Size;
    if pos >= l.r {
      ScanEnd(s, l, pos, prev, Some(d), seen, false);
    } else {
      SizeSmall(s[pos]);
      var e := Decoded(s[pos..pos + Size(s[pos])], prev);
      ScanStep(s, s, l, pos, prev, Some(d), seen, false, e);
      if -1 <= e.offset < l.b {
        ShiftPut(s, At(e, l), e.original, d);
        var s' := Put(s, At(e, l), (e.original + d) % WORD_32);
        ScanStep(s, s', l, pos, prev, Some(d), seen, false, e);
        ScanNeverMismatched(s', l, pos + Size(s[pos]), Prev(e.offset, e.original), d, Some(d));
      }
    }
  }

  /** With a desired offset no binary at all, well-formed or not, is reported as mismatched. */
  lemma NeverMismatched(s: seq<byte>, d: int)
    requires IsInt32(d)
    ensures Masked(s, Some(d)).status in {Matched, Error} && Masked(s, Some(d)).offset == d
  {
    var l := LayoutOf(s);
    hide LayoutOf, Scan;
    if l.Layout? {
      ScanNeverMismatched(s, l, l.b, Prev(0, 0), d, None);
    }
  }

  // ----- masking a file on load -----

  /** What LoadFileContents makes of a file's data: masked to offset 0, or nothing. */
  function Mask(s: seq<byte>): Option<seq<byte>> {
    var r := Masked(s, Some(0));
    if r.status.Matched? then Some(r.data) else None
  }

  /** No retouch record, or one whose words end before the blob. */
  predicate WellFormed(s: seq<byte>) {
    LayoutOf(s).Plain? || Words(s).Some?
  }

  /** Data loaded from a well-formed file loads as itself. */
  lemma MaskedIsMasked(s: seq<byte>)
    requires WellFormed(s) && Mask(s).Some?
    ensures Mask(Mask(s).value) == Mask(s)
  {
    var l := LayoutOf(s);
    hide LayoutOf, Words, Scan;
    MaskedStart(s, Some(0));
    if !l.Plain? {
      MaskAgain(s, 0, 0);
    }
  }

  /** Data too short for the records is loaded as it is. */
  lemma ShortIsPlain(s: seq<byte>)
    requires |s| < 20
    ensures WellFormed(s) && Mask(s) == Some(s)
  {}
}
