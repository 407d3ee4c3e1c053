/** The first stage of qsufsort (applypatch/bsdiff.c): a counting sort of the suffixes by their
    first byte, which gives the ranks of width 1. */
module BucketSort {
  import opened Bytes
  import opened SuffixOrder
  import opened SuffixRanks

  /** How many of the first m bytes of s are c. */
  function Occurrences(s: seq<byte>, m: nat, c: int): nat
    requires m <= |s|
  {
    if m == 0 then 0 else Occurrences(s, m - 1, c) + if s[m - 1] == c then 1 else 0
  }

  /** How many bytes of the first m bytes of s are smaller than c. */
  function Smaller(s: seq<byte>, m: nat, c: int): nat
    requires m <= |s|
  {
    if m == 0 then 0 else Smaller(s, m - 1, c) + if s[m - 1] < c then 1 else 0
  }

  /** The last place before the bucket of byte c. */
  function Base(s: seq<byte>, c: int): nat { Smaller(s, |s|, c) }

  /** The last place of the bucket of byte c. */
  function End(s: seq<byte>, c: int): nat { Smaller(s, |s|, c + 1) }

  lemma {:induction false} SmallerNext(s: seq<byte>, m: nat, c: int)
    requires m <= |s|
    ensures Smaller(s, m, c + 1) == Smaller(s, m, c) + Occurrences(s, m, c)
    decreases m
  {
    if m > 0 { SmallerNext(s, m - 1, c); }
  }

  lemma {:induction false} SmallerEnds(s: seq<byte>, m: nat)
    requires m <= |s|
    ensures Smaller(s, m, 0) == 0 && Smaller(s, m, 256) == m
    decreases m
  {
    if m > 0 { SmallerEnds(s, m - 1); }
  }

  lemma {:induction false} SmallerMonotone(s: seq<byte>, m: nat, c: int, d: int)
    requires m <= |s| && c <= d
    ensures Smaller(s, m, c) <= Smaller(s, m, d)
    decreases m
  {
    if m > 0 { SmallerMonotone(s, m - 1, c, d); }
  }

  lemma {:induction false} OccurrencesMonotone(s: seq<byte>, k: nat, m: nat, c: int)
    requires k <= m <= |s|
    ensures Occurrences(s, k, c) <= Occurrences(s, m, c)
    decreases m
  {
    if k < m { OccurrencesMonotone(s, k, m - 1, c); }
  }

  /** Place q belongs to the bucket of byte c. */
  predicate InBucket(s: seq<byte>, c: int, q: int)
  {
    0 <= c < 256 && Base(s, c) < q <= End(s, c)
  }

  /** Buckets of different bytes do not overlap. */
  lemma BucketsApart(s: seq<byte>)
    ensures forall c, d, q :: InBucket(s, c, q) && InBucket(s, d, q) ==> c == d
    ensures forall c :: 0 <= c < 256 ==> End(s, c) <= |s|
  {
    SmallerEnds(s, |s|);
    forall c, d, q | InBucket(s, c, q) && InBucket(s, d, q) ensures c == d {
      if c < d {
        SmallerMonotone(s, |s|, c + 1, d);
      } else if d < c {
        SmallerMonotone(s, |s|, d + 1, c);
      }
    }
    forall c | 0 <= c < 256 ensures End(s, c) <= |s| {
      SmallerMonotone(s, |s|, c + 1, 256);
    }
  }

  /** Every place but the first is in the bucket of some byte. */
  lemma {:induction false} BucketOf(s: seq<byte>, q: int, c: nat) returns (d: int)
    requires c <= 256 && 0 < q <= Base(s, c)
    ensures InBucket(s, d, q)
    decreases c
  {
    SmallerEnds(s, |s|);
    if Base(s, c - 1) < q {
      d := c - 1;
    } else {
      d := BucketOf(s, q, c - 1);
    }
  }

  /** The counting loops: on return entry c holds the last place before the bucket of c. */
  method CountBytes(text: seq<byte>, buckets: array<int>)
    requires buckets.Length == 256
    modifies buckets
    ensures forall c :: 0 <= c < 256 ==> buckets[c] == Base(text, c)
  {
    for i := 0 to 256
      invariant forall c :: 0 <= c < i ==> buckets[c] == 0
    {
      buckets[i] := 0;
    }
    for i := 0 to |text|
      invariant forall c :: 0 <= c < 256 ==> buckets[c] == Occurrences(text, i, c)
    {
      buckets[text[i]] := buckets[text[i]] + 1;
    }
    SmallerEnds(text, |text|);
    SmallerNext(text, |text|, 0);
    for i := 1 to 256
      invariant forall c :: 0 <= c < i ==> buckets[c] == Base(text, c + 1)
      invariant forall c :: i <= c < 256 ==> buckets[c] == Occurrences(text, |text|, c)
    {
      SmallerNext(text, |text|, i);
      buckets[i] := buckets[i] + buckets[i - 1];
    }
    for i := 255 downto 0
      invariant forall c :: 0 <= c <= i ==> buckets[c] == Base(text, c + 1)
      invariant forall c :: i < c < 256 ==> buckets[c] == Base(text, c)
    {
      buckets[i + 1] := buckets[i];
    }
    buckets[0] := 0;
  }

  /** The first i suffixes are in the buckets of their first bytes. */
  ghost predicate Filled(s: seq<byte>, I: seq<int>, ends: seq<int>, spot: seq<int>, i: int)
  {
    0 <= i <= |s| && |I| == |s| + 1 && |spot| == |s| + 1 && |ends| == 256 &&
    (forall c :: 0 <= c < 256 ==> ends[c] == Base(s, c) + Occurrences(s, i, c)) &&
    (forall a :: 0 <= a < i ==>
      InBucket(s, s[a], spot[a]) && spot[a] <= |s| && spot[a] <= ends[s[a]] && I[spot[a]] == a) &&
    (forall c, q :: InBucket(s, c, q) && q <= ends[c] && q <= |s| ==> 0 <= I[q] < i && s[I[q]] == c && spot[I[q]] == q)
  }

  lemma FillStep(s: seq<byte>, I: seq<int>, ends: seq<int>, spot: seq<int>, i: int)
    requires Filled(s, I, ends, spot, i) && i < |s|
    ensures 0 < ends[s[i]] + 1 <= |s|
    ensures Filled(s, I[ends[s[i]] + 1 := i], ends[s[i] := ends[s[i]] + 1], spot[i := ends[s[i]] + 1], i + 1)
  {
    var c := s[i];
    SmallerNext(s, |s|, c);
    OccurrencesMonotone(s, i + 1, |s|, c);
    BucketsApart(s);
    var q := ends[c] + 1;
    assert InBucket(s, c, q);
    forall a | 0 <= a < i ensures spot[a] != q {
      assert s[a] == c ==> spot[a] <= ends[c];
    }
  }

  /** Puts every suffix into the bucket of its first byte, in order of position. */
  method FillBuckets(text: seq<byte>, I: array<int>, buckets: array<int>) returns (ghost spot: seq<int>)
    requires buckets != I && buckets.Length == 256 && I.Length == |text| + 1
    requires forall c :: 0 <= c < 256 ==> buckets[c] == Base(text, c)
    modifies I, buckets
    ensures Filled(text, I[..], buckets[..], spot, |text|)
  {
    spot := seq(|text| + 1, _ => 0);
    for i := 0 to |text|
      invariant Filled(text, I[..], buckets[..], spot, i)
    {
      ghost var ends, J := buckets[..], I[..];
      FillStep(text, J, ends, spot, i);
      spot := spot[i := buckets[text[i]] + 1];
      buckets[text[i]] := buckets[text[i]] + 1;
      I[buckets[text[i]]] := i;
      assert buckets[..] == ends[text[i] := ends[text[i]] + 1];
      assert I[..] == J[ends[text[i]] + 1 := i];
    }
  }

  /** Every suffix is in the bucket of its first byte; the empty suffix comes first. */
  ghost predicate Bucketed(s: seq<byte>, p: Perm)
  {
    p.Valid(|s|) && p.spot[|s|] == 0 && forall a :: 0 <= a < |s| ==> InBucket(s, s[a], p.spot[a])
  }

  /** Suffixes are ranked by the last place of their bucket. */
  ghost predicate RankedByBucket(s: seq<byte>, v: seq<int>)
  {
    |v| == |s| + 1 && v[|s|] == 0 && forall a :: 0 <= a < |s| ==> v[a] == End(s, s[a])
  }

  lemma FilledEnds(s: seq<byte>, I: seq<int>, ends: seq<int>, spot: seq<int>)
    requires Filled(s, I, ends, spot, |s|)
    ensures forall c :: 0 <= c < 256 ==> ends[c] == End(s, c)
  {
    forall c | 0 <= c < 256 ensures ends[c] == End(s, c) {
      SmallerNext(s, |s|, c);
    }
  }

  lemma FilledIsBucketed(s: seq<byte>, I: seq<int>, ends: seq<int>, spot: seq<int>)
    requires Filled(s, I, ends, spot, |s|)
    ensures Bucketed(s, Perm(I[0 := |s|], spot[|s| := 0]))
  {
    FilledEnds(s, I, ends, spot);
    forall q | 0 < q <= |s| ensures 0 <= I[q] < |s| && spot[I[q]] == q {
      SmallerEnds(s, |s|);
      var c := BucketOf(s, q, 256);
      assert InBucket(s, c, q);
    }
    var p := Perm(I[0 := |s|], spot[|s| := 0]);
    assert forall a :: 0 <= a < |s| ==> p.spot[a] == spot[a] && 0 < spot[a] <= |s|;
    assert p.Valid(|s|);
  }

  lemma BucketOrder(s: seq<byte>, v: seq<int>, p: Perm, a: int, b: int)
    requires Bucketed(s, p) && RankedByBucket(s, v) && 0 <= a <= |s| && 0 <= b <= |s|
    ensures CharAt(s, a) < CharAt(s, b) ==> v[a] < p.spot[b] && v[a] < v[b]
    ensures CharAt(s, a) == CharAt(s, b) ==> v[a] == v[b]
    ensures p.spot[a] <= v[a] <= |s|
  {
    BucketsApart(s);
    if a < |s| && b < |s| && s[a] < s[b] {
      SmallerMonotone(s, |s|, s[a] + 1, s[b]);
    }
  }

  /** The bucket order ranks the suffixes by one character. */
  lemma BucketedIsRanked(s: seq<byte>, v: seq<int>, p: Perm)
    requires Bucketed(s, p) && RankedByBucket(s, v)
    ensures Ranked(s, v, p, 1)
  {
    forall a, b | 0 <= a <= |s| && 0 <= b <= |s|
      ensures p.spot[a] <= v[a] <= |s|
      ensures p.spot[a] <= p.spot[b] <= v[a] ==> v[b] == v[a]
      ensures v[a] == v[b] ==> Agree(s, a, b, 1)
      ensures v[a] < v[b] ==> Before(s, a, b)
    {
      BucketOrder(s, v, p, a, b);
      BucketOrder(s, v, p, b, a);
      assert Agree(s, a + 1, b + 1, 0);
    }
  }

  /** I holds the bucket order, except that buckets of a single suffix may be marked. */
  ghost predicate MarkedBuckets(s: seq<byte>, I: seq<int>, p: Perm)
    requires p.Valid(|s|)
  {
    |I| == |s| + 1 && I[0] == -1 &&
    forall c, q :: InBucket(s, c, q) && q <= |s| ==> I[q] == p.at[q] || (I[q] == -1 && End(s, c) == Base(s, c) + 1)
  }

  /** A non-empty bucket is one group, or one finished place. */
  lemma BucketHead(s: seq<byte>, I: seq<int>, v: seq<int>, p: Perm, c: nat)
    requires Bucketed(s, p) && RankedByBucket(s, v) && MarkedBuckets(s, I, p) && c < 256 && Base(s, c) < End(s, c)
    ensures Base(s, c) < |s| && HeadAt(s, I, v, p, 1, Base(s, c) + 1, End(s, c) + 1, |s| + 1)
  {
    var lo := Base(s, c) + 1;
    BucketsApart(s);
    BucketMembers(s, v, p, c);
    forall q | lo <= q <= End(s, c) ensures InBucket(s, c, q) {}
  }

  /** The buckets from byte c on are encoded at width 1. */
  lemma {:induction false} BucketsEncoded(s: seq<byte>, I: seq<int>, v: seq<int>, p: Perm, c: nat)
    requires Bucketed(s, p) && RankedByBucket(s, v) && MarkedBuckets(s, I, p) && c <= 256
    ensures Base(s, c) <= |s| && Encoded(s, I, v, p, 1, Base(s, c) + 1, |s| + 1)
    decreases 256 - c
  {
    hide Encoded, HeadAt, InBucket;
    SmallerEnds(s, |s|);
    if c == 256 {
      EncodedEmpty(s, I, v, p, 1, |s| + 1);
    } else {
      BucketsEncoded(s, I, v, p, c + 1);
      SmallerMonotone(s, |s|, c, c + 1);
      if Base(s, c) < End(s, c) {
        BucketHead(s, I, v, p, c);
        EncodedHead(s, I, v, p, 1, Base(s, c) + 1, End(s, c) + 1, |s| + 1);
      }
    }
  }

  lemma BucketMembers(s: seq<byte>, v: seq<int>, p: Perm, c: int)
    requires Bucketed(s, p) && RankedByBucket(s, v) && 0 <= c < 256
    ensures End(s, c) <= |s|
    ensures forall q :: Base(s, c) < q <= End(s, c) ==> p.at[q] < |s| && s[p.at[q]] == c && v[p.at[q]] == End(s, c)
    ensures forall q, r :: Base(s, c) < q <= End(s, c) && Base(s, c) < r <= End(s, c) ==> Agree(s, p.at[q], p.at[r], 1)
  {
    BucketsApart(s);
    forall q | Base(s, c) < q <= End(s, c) ensures p.at[q] < |s| && s[p.at[q]] == c {
      assert InBucket(s, c, q);
      assert p.at[q] < |s| ==> InBucket(s, s[p.at[q]], q);
    }
    forall q, r | Base(s, c) < q <= End(s, c) && Base(s, c) < r <= End(s, c) ensures Agree(s, p.at[q], p.at[r], 1) {
      assert Agree(s, p.at[q] + 1, p.at[r] + 1, 0);
    }
  }

  lemma BucketedIsEncoded(s: seq<byte>, I: seq<int>, v: seq<int>, p: Perm)
    requires Bucketed(s, p) && RankedByBucket(s, v) && MarkedBuckets(s, I, p)
    ensures Encoded(s, I, v, p, 1, 0, |s| + 1)
  {
    SmallerEnds(s, |s|);
    BucketsEncoded(s, I, v, p, 0);
    assert p.at[0] == |s|;
  }

  /** The bucket stage of qsufsort: ranks and encodes the suffixes by their first byte. */
  method SortByFirstByte(I: array<int>, V: array<int>, text: seq<byte>) returns (ghost p: Perm)
    requires I != V && I.Length == |text| + 1 && V.Length == |text| + 1
    modifies I, V
    ensures p.Valid(|text|) && Ranked(text, V[..], p, 1) && Encoded(text, I[..], V[..], p, 1, 0, |text| + 1)
  {
    var buckets := new int[256];
    CountBytes(text, buckets);
    ghost var spot := FillBuckets(text, I, buckets);
    ghost var J := I[..];
    FilledEnds(text, J, buckets[..], spot);
    FilledIsBucketed(text, J, buckets[..], spot);
    assert forall c :: 0 <= c < 256 ==> buckets[c] == End(text, c);
    I[0] := |text|;
    assert I[..] == J[0 := |text|];
    p := Perm(I[..], spot[|text| := 0]);
    hide Filled;
    RankBuckets(text, V, buckets);
    MarkSingles(text, I, buckets, p);
    BucketedIsRanked(text, V[..], p);
    BucketedIsEncoded(text, I[..], V[..], p);
  }

  method RankBuckets(text: seq<byte>, V: array<int>, buckets: array<int>)
    requires V != buckets && V.Length == |text| + 1 && buckets.Length == 256
    requires forall c :: 0 <= c < 256 ==> buckets[c] == End(text, c)
    modifies V
    ensures RankedByBucket(text, V[..])
  {
    for i := 0 to |text|
      invariant forall a :: 0 <= a < i ==> V[a] == End(text, text[a])
    {
      V[i] := buckets[text[i]];
    }
    V[|text|] := 0;
  }

  /** Marks the buckets of one suffix as finished (the bucket of byte 0 excepted) and the
      empty suffix. */
  method MarkSingles(text: seq<byte>, I: array<int>, buckets: array<int>, ghost p: Perm)
    requires I != buckets && buckets.Length == 256 && I.Length == |text| + 1
    requires forall c :: 0 <= c < 256 ==> buckets[c] == End(text, c)
    requires Bucketed(text, p) && I[..] == p.at
    modifies I
    ensures MarkedBuckets(text, I[..], p)
  {
    BucketsApart(text);
    for i := 1 to 256
      invariant forall c, q :: InBucket(text, c, q) && q <= |text| ==>
                  I[q] == p.at[q] || (I[q] == -1 && End(text, c) == Base(text, c) + 1)
    {
      if buckets[i] == buckets[i - 1] + 1 {
        assert InBucket(text, i, buckets[i]);
        I[buckets[i]] := -1;
      }
    }
    I[0] := -1;
  }
}
