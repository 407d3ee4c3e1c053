/** qsufsort of applypatch/bsdiff.c: passes of doubling width until every suffix has a rank of
    its own. */
module QSufSort {
  import opened Bytes
  import opened SuffixOrder
  import opened SuffixRanks
  import opened SuffixSort
  import BucketSort

  /** A pass of width h has reached place i: the places before i - len are encoded at width 2h,
      the last len places are finished, the places from i on are encoded at width h. */
  ghost predicate Passing(s: seq<byte>, c: State, h: nat, i: int, len: int)
  {
    c.Sized(|s|) && 0 <= len <= i <= |s| + 1 && Ranked(s, c.v, c.p, h) &&
    Encoded(s, c.I, c.v, c.p, 2 * h, 0, i - len) &&
    (forall j :: i - len <= j < i ==> c.v[c.p.at[j]] == j) &&
    (forall j :: 0 <= j < i ==> c.v[c.p.at[j]] < i) &&
    Encoded(s, c.I, c.v, c.p, h, i, |s| + 1)
  }

  /** Finished places at i join the run before them. */
  lemma PassingRun(s: seq<byte>, c: State, h: nat, i: int, len: int)
    requires Passing(s, c, h, i, len) && i <= |s| && c.I[i] < 0
    ensures Passing(s, c, h, i - c.I[i], len - c.I[i])
  {
    EncodedInBounds(s, c.I, c.v, c.p, h, i - c.I[i], |s| + 1);
  }

  /** Writing the length of the run at its head encodes it. */
  lemma PassingClosesRun(s: seq<byte>, c: State, d: State, h: nat, i: int, len: int)
    requires Passing(s, c, h, i, len)
    requires d == if len > 0 then c.(I := c.I[i - len := -len]) else c
    ensures Passing(s, d, h, i, 0)
  {
    hide Encoded, Ranked;
    if len > 0 {
      EncodedFrame(s, c.I, c.v, c.p, d.I, d.v, d.p, h, i, |s| + 1);
      EncodedFrame(s, c.I, c.v, c.p, d.I, d.v, d.p, 2 * h, 0, i - len);
      EncodedEmpty(s, d.I, d.v, d.p, 2 * h, i);
      EncodedHead(s, d.I, d.v, d.p, 2 * h, i - len, i, i);
      EncodedAppend(s, d.I, d.v, d.p, 2 * h, 0, i - len, i);
    }
  }

  /** A group at i is what split expects, and shows that h is at most |s|. */
  lemma PassingGroup(s: seq<byte>, c: State, h: nat, i: int)
    requires Passing(s, c, h, i, 0) && i <= |s| && c.I[i] >= 0
    ensures 0 <= c.I[i] == c.p.at[i] <= |s| && i <= c.v[c.p.at[i]] <= |s| && h <= |s|
    ensures Splitting(s, c, c, h, i, i, c.v[c.p.at[i]] + 1, c.v[c.p.at[i]])
  {
    EncodedEmpty(s, c.I, c.v, c.p, 2 * h, i);
  }

  lemma PassingBehind(s: seq<byte>, c: State, h: nat, i: int, next: int)
    requires Passing(s, c, h, i, 0) && i <= |s| && c.I[i] >= 0 && next == c.v[c.p.at[i]] + 1
    ensures i < next <= |s| + 1 && Encoded(s, c.I, c.v, c.p, h, next, |s| + 1) && Encoded(s, c.I, c.v, c.p, 2 * h, 0, i)
  {
    EncodedInBounds(s, c.I, c.v, c.p, h, next, |s| + 1);
  }

  /** After split, the pass goes on behind the group. */
  lemma PassingSplit(s: seq<byte>, c: State, d: State, h: nat, i: int, next: int)
    requires Passing(s, c, h, i, 0) && i <= |s| && c.I[i] >= 0 && next == c.v[c.p.at[i]] + 1
    requires Splitting(s, c, d, h, i, next, next, next - 1)
    ensures Passing(s, d, h, next, 0)
  {
    hide Encoded, Ranked;
    PassingBehind(s, c, h, i, next);
    EncodedFrame(s, c.I, c.v, c.p, d.I, d.v, d.p, 2 * h, 0, i);
    EncodedFrame(s, c.I, c.v, c.p, d.I, d.v, d.p, h, next, |s| + 1);
    EncodedAppend(s, d.I, d.v, d.p, 2 * h, 0, i, next);
  }

  /** Writes the length of the run of len finished places before i at its head. */
  method CloseRun(I: array<int>, ghost v: seq<int>, i: nat, len: nat, h: nat, ghost s: seq<byte>, ghost p: Perm)
    requires I.Length == |s| + 1 && len <= i <= |s| + 1
    requires Passing(s, State(I[..], v, p), h, i, len)
    modifies I
    ensures Passing(s, State(I[..], v, p), h, i, 0)
    ensures forall j :: 0 <= j <= |s| && (j != i - len || len == 0) ==> I[j] == old(I[j])
    ensures len > 0 ==> I[i - len] == 0 - len
  {
    hide *;
    ghost var c := State(I[..], v, p);
    if len > 0 {
      I[i - len] := 0 - len;
      assert I[..] == c.I[i - len := 0 - len];
    }
    PassingClosesRun(s, c, State(I[..], v, p), h, i, len);
  }

  /** Splits the group at place i and moves on to the place behind it. */
  method PassGroup(I: array<int>, V: array<int>, i: nat, h: nat, ghost s: seq<byte>, ghost p: Perm)
    returns (next: nat, ghost q: Perm)
    requires I != V && I.Length == |s| + 1 && V.Length == |s| + 1 && i <= |s| && I[i] >= 0
    requires Passing(s, State(I[..], V[..], p), h, i, 0)
    modifies I, V
    ensures i < next <= |s| + 1 && h <= |s| && Passing(s, State(I[..], V[..], q), h, next, 0)
  {
    hide *;
    ghost var c := State(I[..], V[..], p);
    PassingInRange(s, c, h, i, 0);
    PassingGroup(s, c, h, i);
    var len := V[I[i]] + 1 - i;
    next := i + len;
    q := Split(I, V, i, len, h, s, p, i + len - 1);
    PassingSplit(s, c, State(I[..], V[..], q), h, i, next);
  }

  /** One pass of qsufsort over all places. */
  method Pass(I: array<int>, V: array<int>, h: nat, ghost s: seq<byte>, ghost p: Perm) returns (ghost q: Perm)
    requires I != V && I.Length == |s| + 1 && V.Length == |s| + 1 && h > 0
    requires Ranked(s, V[..], p, h) && Encoded(s, I[..], V[..], p, h, 0, |s| + 1)
    modifies I, V
    ensures q.Valid(|s|) && Ranked(s, V[..], q, 2 * h) && Encoded(s, I[..], V[..], q, 2 * h, 0, |s| + 1)
    ensures I[0] == -(|s| + 1) || h <= |s|
  {
    hide *;
    var i, len := 0, 0;
    q := p;
    PassingStarts(s, State(I[..], V[..], p), h);
    while i < I.Length
      invariant 0 <= len <= i <= |s| + 1
      invariant Passing(s, State(I[..], V[..], q), h, i, len)
      invariant len == i || h <= |s|
      decreases I.Length - i
    {
      if I[i] < 0 {
        PassingRun(s, State(I[..], V[..], q), h, i, len);
        len := len - I[i];
        i := i - I[i];
        PassingInRange(s, State(I[..], V[..], q), h, i, len);
      } else {
        CloseRun(I, V[..], i, len, h, s, q);
        i, q := PassGroup(I, V, i, h, s, q);
        len := 0;
      }
    }
    CloseRun(I, V[..], i, len, h, s, q);
    PassingEnds(s, State(I[..], V[..], q), h);
  }

  lemma PassingStarts(s: seq<byte>, c: State, h: nat)
    requires |c.I| == |s| + 1 && Ranked(s, c.v, c.p, h) && Encoded(s, c.I, c.v, c.p, h, 0, |s| + 1)
    ensures Passing(s, c, h, 0, 0)
  {
    EncodedEmpty(s, c.I, c.v, c.p, 2 * h, 0);
  }

  lemma PassingInRange(s: seq<byte>, c: State, h: nat, i: int, len: int)
    requires Passing(s, c, h, i, len)
    ensures c.Sized(|s|) && 0 <= len <= i <= |s| + 1
  {}

  lemma PassingEnds(s: seq<byte>, c: State, h: nat)
    requires Passing(s, c, h, |s| + 1, 0)
    ensures c.p.Valid(|s|) && |c.v| == |s| + 1 && Ranked(s, c.v, c.p, 2 * h)
    ensures Encoded(s, c.I, c.v, c.p, 2 * h, 0, |s| + 1)
  {
    EncodedWidens(s, c.I, c.v, c.p, h, 2 * h);
  }

  /** The suffix array of s: every suffix once, in lexicographic order. */
  ghost predicate IsSuffixArray(s: seq<byte>, a: seq<int>)
  {
    |a| == |s| + 1 && (forall i :: 0 <= i < |a| ==> 0 <= a[i] <= |s|) &&
    (forall k :: 0 <= k <= |s| ==> k in a) &&
    (forall i, j :: 0 <= i < j < |a| ==> LexLess(s[a[i]..], s[a[j]..]))
  }

  /** Two suffixes can share a rank only while the width is below the length of the string,
      which bounds the number of passes. */
  lemma TiesNeedNarrowRanks(s: seq<byte>, v: seq<int>, p: Perm, h: nat, a: int, b: int)
    requires Ranked(s, v, p, h) && 0 <= a <= |s| && 0 <= b <= |s| && a != b && v[a] == v[b]
    ensures h < |s|
  {
    AgreeInRange(s, a, b, h);
  }

  /** Ranks that are all different list the suffixes in order. */
  lemma DistinctRanksSort(s: seq<byte>, v: seq<int>, p: Perm, h: nat)
    requires p.Valid(|s|) && v == p.spot && Ordered(s, v, h)
    ensures IsSuffixArray(s, p.at)
  {
    forall k | 0 <= k <= |s| ensures k in p.at {
      assert p.at[p.spot[k]] == k;
    }
    forall i, j | 0 <= i < j < |p.at| ensures LexLess(s[p.at[i]..], s[p.at[j]..]) {
      assert v[p.at[i]] == i && v[p.at[j]] == j;
      BeforeIsLexLess(s, p.at[i], p.at[j]);
    }
  }

  /** When the whole array is one finished run, the ranks are the suffix array inverted. */
  lemma FinishedIsSorted(s: seq<byte>, I: seq<int>, v: seq<int>, p: Perm, h: nat)
    requires Ranked(s, v, p, h) && |I| == |s| + 1 && Encoded(s, I, v, p, h, 0, |s| + 1) && I[0] == -(|s| + 1)
    ensures p.Valid(|s|) && v == p.spot && IsSuffixArray(s, p.at)
  {
    hide Ordered, IsSuffixArray;
    forall a | 0 <= a <= |s| ensures v[a] == p.spot[a] {
      assert p.at[p.spot[a]] == a;
    }
    DistinctRanksSort(s, v, p, h);
  }

  /** qsufsort: sorts the suffixes of text in place; V ends as the inverse of I. */
  method QSufSort(I: array<int>, V: array<int>, text: seq<byte>)
    requires I != V && I.Length == |text| + 1 && V.Length == |text| + 1
    modifies I, V
    ensures IsSuffixArray(text, I[..])
    ensures forall a :: 0 <= a <= |text| ==> 0 <= V[a] <= |text| && I[V[a]] == a
    ensures forall i :: 0 <= i <= |text| ==> V[I[i]] == i
  {
    hide *;
    ghost var p := BucketSort.SortByFirstByte(I, V, text);
    var n := |text|;
    var h := 1;
    while I[0] != -(n + 1)
      invariant 1 <= h && p.Valid(n) && Ranked(text, V[..], p, h) && Encoded(text, I[..], V[..], p, h, 0, n + 1)
      decreases I[0] != -(n + 1), 2 * n + 1 - h
    {
      p := Pass(I, V, h, text, p);
      h := h + h;
    }
    FinishedIsSorted(text, I[..], V[..], p, h);
    InvertRanks(I, V, n, p);
  }

  /** The last loop of qsufsort: rebuilds the order from the ranks. */
  method InvertRanks(I: array<int>, V: array<int>, n: nat, ghost p: Perm)
    requires I != V && I.Length == n + 1 && V.Length == n + 1 && p.Valid(n) && V[..] == p.spot
    modifies I
    ensures I[..] == p.at
    ensures forall a :: 0 <= a <= n ==> 0 <= V[a] <= n && I[V[a]] == a
    ensures forall i :: 0 <= i <= n ==> V[I[i]] == i
  {
    assert forall a :: 0 <= a <= n ==> V[a] == p.spot[a];
    for i := 0 to n + 1
      invariant forall a :: 0 <= a < i ==> I[p.spot[a]] == a
    {
      assert V[i] == p.spot[i];
      I[V[i]] := i;
    }
    forall j | 0 <= j <= n ensures I[j] == p.at[j] {
      assert I[p.spot[p.at[j]]] == p.at[j];
    }
  }
}
