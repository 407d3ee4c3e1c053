/** The state of the prefix-doubling sort: a permutation of the suffixes, the rank
    of every suffix, and what a pass of width h knows about both. */
module SuffixRanks {
  import opened Bytes
  import opened SuffixOrder

  /** A permutation of 0..n kept with its inverse: at[i] is the suffix in place i
      and spot[a] is the place of suffix a. */
  datatype Perm = Perm(at: seq<int>, spot: seq<int>)
  {
    ghost predicate Valid(n: nat)
    {
      |at| == n + 1 && |spot| == n + 1 &&
      (forall i :: 0 <= i <= n ==> 0 <= at[i] <= n && spot[at[i]] == i) &&
      (forall a :: 0 <= a <= n ==> 0 <= spot[a] <= n && at[spot[a]] == a)
    }

    ghost function Swap(n: nat, x: int, y: int): (q: Perm)
      requires Valid(n) && 0 <= x <= n && 0 <= y <= n
      ensures q.Valid(n)
    {
      Perm(at[x := at[y]][y := at[x]], spot[at[x] := y][at[y] := x])
    }
  }

  /** q differs from p only in the places [lo, hi). */
  ghost predicate Rearranges(p: Perm, q: Perm, n: nat, lo: int, hi: int)
  {
    p.Valid(n) && q.Valid(n) &&
    forall i :: 0 <= i <= n && !(lo <= i < hi) ==> q.at[i] == p.at[i]
  }

  /** Suffixes of equal rank sit side by side and the rank is the last place of their group. */
  ghost predicate Grouped(n: nat, v: seq<int>, p: Perm)
  {
    p.Valid(n) && |v| == n + 1 &&
    (forall a :: 0 <= a <= n ==> p.spot[a] <= v[a] <= n) &&
    (forall a, b :: 0 <= a <= n && 0 <= b <= n && p.spot[a] <= p.spot[b] <= v[a] ==> v[b] == v[a])
  }

  /** Suffixes of equal rank agree on h characters and a smaller rank means a smaller suffix. */
  ghost predicate Ordered(s: seq<byte>, v: seq<int>, h: nat)
  {
    |v| == |s| + 1 &&
    (forall a, b :: 0 <= a <= |s| && 0 <= b <= |s| && v[a] == v[b] ==> Agree(s, a, b, h)) &&
    (forall a, b :: 0 <= a <= |s| && 0 <= b <= |s| && v[a] < v[b] ==> Before(s, a, b))
  }

  ghost predicate Ranked(s: seq<byte>, v: seq<int>, p: Perm, h: nat)
  {
    Grouped(|s|, v, p) && Ordered(s, v, h)
  }

  /** The places [lo, hi) are the front of the group [lo, g], and everything in
      them sorts before the rest of that group. */
  ghost predicate Front(s: seq<byte>, v: seq<int>, p: Perm, h: nat, lo: int, hi: int, g: int)
    requires p.Valid(|s|) && |v| == |s| + 1
  {
    0 <= lo <= hi <= g + 1 <= |s| + 1 &&
    (forall i :: lo <= i <= g ==> v[p.at[i]] == g) &&
    (forall i :: 0 <= i < lo ==> v[p.at[i]] < lo) &&
    (forall i :: lo <= i < hi ==> p.at[i] + h <= |s|) &&
    (forall i, j :: lo <= i < hi <= j <= g ==> Before(s, p.at[i], p.at[j]))
  }

  lemma RearrangedRange(p: Perm, q: Perm, n: nat, lo: int, hi: int)
    requires Rearranges(p, q, n, lo, hi)
    ensures forall a :: 0 <= a <= n ==> (lo <= p.spot[a] < hi <==> lo <= q.spot[a] < hi)
    ensures forall a :: 0 <= a <= n && !(lo <= q.spot[a] < hi) ==> q.spot[a] == p.spot[a]
  {
    forall a | 0 <= a <= n
      ensures lo <= p.spot[a] < hi <==> lo <= q.spot[a] < hi
      ensures !(lo <= q.spot[a] < hi) ==> q.spot[a] == p.spot[a]
    {
      assert !(lo <= p.spot[a] < hi) ==> q.at[p.spot[a]] == a;
      assert !(lo <= q.spot[a] < hi) ==> p.at[q.spot[a]] == a;
    }
  }

  /** Rearranging the front of a group keeps the groups. */
  lemma RearrangeKeepsGroups(n: nat, v: seq<int>, p: Perm, q: Perm, lo: int, hi: int, g: int)
    requires Grouped(n, v, p) && Rearranges(p, q, n, lo, hi)
    requires 0 <= lo <= hi <= g + 1 <= n + 1
    requires forall i :: lo <= i <= g ==> v[p.at[i]] == g
    requires forall i :: 0 <= i < lo ==> v[p.at[i]] < lo
    ensures Grouped(n, v, q)
    ensures forall i :: lo <= i <= g ==> v[q.at[i]] == g
  {
    RearrangedRange(p, q, n, lo, hi);
    forall a | 0 <= a <= n
      ensures p.spot[a] < lo ==> v[a] < lo
      ensures lo <= p.spot[a] <= g ==> v[a] == g
    {
      assert p.at[p.spot[a]] == a;
    }
    forall i | lo <= i <= g
      ensures v[q.at[i]] == g
    {
      assert lo <= p.spot[q.at[i]] <= g;
    }
  }

  /** Rearranging the front of a group keeps the ranking. */
  lemma RearrangeKeeps(s: seq<byte>, v: seq<int>, p: Perm, q: Perm, h: nat, lo: int, hi: int, g: int)
    requires Ranked(s, v, p, h) && Front(s, v, p, h, lo, hi, g)
    requires Rearranges(p, q, |s|, lo, hi)
    ensures Ranked(s, v, q, h) && Front(s, v, q, h, lo, hi, g)
  {
    RearrangeKeepsGroups(|s|, v, p, q, lo, hi, g);
    RearrangedRange(p, q, |s|, lo, hi);
    forall i | lo <= i < hi
      ensures q.at[i] + h <= |s|
      ensures forall j :: hi <= j <= g ==> Before(s, q.at[i], q.at[j])
    {
      var i' := p.spot[q.at[i]];
      assert lo <= i' < hi && p.at[i'] == q.at[i];
    }
  }

  /** v' is v with the places [lo, mid) given the rank mid - 1. */
  ghost predicate Relabels(n: nat, v: seq<int>, v': seq<int>, p: Perm, lo: int, mid: int)
  {
    p.Valid(n) && |v| == n + 1 && |v'| == n + 1 &&
    forall a :: 0 <= a <= n ==> v'[a] == if lo <= p.spot[a] < mid then mid - 1 else v[a]
  }

  /** Giving the first part [lo, mid) of a group its own rank keeps the groups. */
  lemma RelabelKeepsGroups(n: nat, v: seq<int>, v': seq<int>, p: Perm, lo: int, mid: int, g: int)
    requires Grouped(n, v, p) && Relabels(n, v, v', p, lo, mid)
    requires 0 <= lo < mid <= g + 1 <= n + 1
    requires forall i :: lo <= i <= g ==> v[p.at[i]] == g
    requires forall i :: 0 <= i < lo ==> v[p.at[i]] < lo
    ensures Grouped(n, v', p)
  {
    forall a | 0 <= a <= n
      ensures p.spot[a] < lo ==> v[a] < lo
      ensures lo <= p.spot[a] <= g ==> v[a] == g
    {
      assert p.at[p.spot[a]] == a;
    }
  }

  /** Giving the first part [lo, mid) of a group its own rank keeps the order. */
  lemma RelabelKeepsOrder(s: seq<byte>, v: seq<int>, v': seq<int>, p: Perm, h: nat, lo: int, mid: int, g: int)
    requires Grouped(|s|, v, p) && Ordered(s, v, h) && Relabels(|s|, v, v', p, lo, mid)
    requires 0 <= lo < mid <= g + 1 <= |s| + 1
    requires forall i :: lo <= i <= g ==> v[p.at[i]] == g
    requires forall i :: 0 <= i < lo ==> v[p.at[i]] < lo
    requires forall i, j :: lo <= i < mid <= j <= g ==> Before(s, p.at[i], p.at[j])
    ensures Ordered(s, v', h)
  {
    forall a | 0 <= a <= |s|
      ensures p.spot[a] < lo ==> v[a] < lo
      ensures lo <= p.spot[a] <= g ==> v[a] == g
      ensures p.spot[a] > g ==> v[a] > g
    {
      assert p.at[p.spot[a]] == a;
    }
    forall a, b | 0 <= a <= |s| && 0 <= b <= |s|
      ensures v'[a] == v'[b] ==> Agree(s, a, b, h)
      ensures v'[a] < v'[b] ==> Before(s, a, b)
    {
      if v'[a] == v'[b] {
        assert v[a] == v[b];
      } else if v'[a] < v'[b] && v[a] == v[b] {
        assert Before(s, p.at[p.spot[a]], p.at[p.spot[b]]);
      }
    }
  }

  lemma RelabelKeeps(s: seq<byte>, v: seq<int>, v': seq<int>, p: Perm, h: nat, lo: int, mid: int, hi: int, g: int)
    requires Ranked(s, v, p, h) && Front(s, v, p, h, lo, hi, g)
    requires Relabels(|s|, v, v', p, lo, mid) && lo < mid <= hi
    requires forall i, j :: lo <= i < mid <= j <= g ==> Before(s, p.at[i], p.at[j])
    ensures Ranked(s, v', p, h) && Front(s, v', p, h, mid, hi, g)
  {
    RelabelKeepsGroups(|s|, v, v', p, lo, mid, g);
    RelabelKeepsOrder(s, v, v', p, h, lo, mid, g);
  }

  /** A rank read h characters on decides the order of two suffixes of one group. */
  lemma KeyDecides(s: seq<byte>, v: seq<int>, p: Perm, h: nat, a: int, b: int)
    requires Ranked(s, v, p, h)
    requires 0 <= a && 0 <= b && a + h <= |s| && b + h <= |s| && v[a] == v[b]
    ensures v[a + h] < v[b + h] ==> Before(s, a, b)
    ensures v[a + h] == v[b + h] ==> Agree(s, a, b, 2 * h)
  {
    if v[a + h] < v[b + h] {
      BeforeFromTails(s, a, b, h);
    } else if v[a + h] == v[b + h] {
      AgreeDoubles(s, a, b, h, h);
    }
  }

  /** The array I as applypatch/bsdiff.c encodes it between the places lo and hi: a
      negative entry is the head of a run of finished places of that length, any other
      entry is the head of a group whose members are all in I, agree on k characters
      and have a rank k characters on. */
  ghost predicate Encoded(s: seq<byte>, I: seq<int>, v: seq<int>, p: Perm, k: nat, lo: int, hi: int)
    requires p.Valid(|s|) && |v| == |s| + 1 && |I| == |s| + 1
    requires 0 <= lo && hi <= |s| + 1
    decreases hi - lo
  {
    if lo >= hi then lo == hi
    else if I[lo] < 0 then
      (forall j :: lo <= j < lo - I[lo] && j < hi ==> v[p.at[j]] == j) && Encoded(s, I, v, p, k, lo - I[lo], hi)
    else
      GroupAt(s, I, v, p, k, lo, hi) && Encoded(s, I, v, p, k, v[p.at[lo]] + 1, hi)
  }

  ghost predicate GroupAt(s: seq<byte>, I: seq<int>, v: seq<int>, p: Perm, k: nat, lo: int, hi: int)
    requires p.Valid(|s|) && |v| == |s| + 1 && |I| == |s| + 1
    requires 0 <= lo < hi <= |s| + 1
  {
    var g := v[p.at[lo]];
    lo <= g < hi &&
    (forall j :: lo <= j <= g ==> I[j] == p.at[j] && v[p.at[j]] == g && p.at[j] + k <= |s|) &&
    (forall i, j :: lo <= i <= g && lo <= j <= g ==> Agree(s, p.at[i], p.at[j], k))
  }

  /** The head at lo is followed by the head at next. */
  ghost predicate HeadAt(s: seq<byte>, I: seq<int>, v: seq<int>, p: Perm, k: nat, lo: int, next: int, hi: int)
    requires p.Valid(|s|) && |v| == |s| + 1 && |I| == |s| + 1
    requires 0 <= lo < hi <= |s| + 1
  {
    if I[lo] < 0 then next == lo - I[lo] && forall j :: lo <= j < next && j < hi ==> v[p.at[j]] == j
    else next == v[p.at[lo]] + 1 && GroupAt(s, I, v, p, k, lo, hi)
  }

  lemma EncodedEmpty(s: seq<byte>, I: seq<int>, v: seq<int>, p: Perm, k: nat, lo: int)
    requires p.Valid(|s|) && |v| == |s| + 1 && |I| == |s| + 1 && 0 <= lo <= |s| + 1
    ensures Encoded(s, I, v, p, k, lo, lo)
  {}

  lemma EncodedHead(s: seq<byte>, I: seq<int>, v: seq<int>, p: Perm, k: nat, lo: int, next: int, hi: int)
    requires p.Valid(|s|) && |v| == |s| + 1 && |I| == |s| + 1
    requires 0 <= lo < next && lo < hi <= |s| + 1
    requires HeadAt(s, I, v, p, k, lo, next, hi) && Encoded(s, I, v, p, k, next, hi)
    ensures Encoded(s, I, v, p, k, lo, hi)
  {}

  /** The encoding of [lo, hi) depends on nothing outside [lo, hi). */
  lemma {:induction false} EncodedFrame(s: seq<byte>, I: seq<int>, v: seq<int>, p: Perm,
                                        I': seq<int>, v': seq<int>, p': Perm, k: nat, lo: int, hi: int)
    requires p.Valid(|s|) && |v| == |s| + 1 && |I| == |s| + 1
    requires p'.Valid(|s|) && |v'| == |s| + 1 && |I'| == |s| + 1
    requires 0 <= lo && hi <= |s| + 1
    requires Encoded(s, I, v, p, k, lo, hi)
    requires forall j :: lo <= j < hi ==> I'[j] == I[j] && p'.at[j] == p.at[j] && v'[p.at[j]] == v[p.at[j]]
    ensures Encoded(s, I', v', p', k, lo, hi)
    decreases hi - lo
  {
    if lo < hi {
      if I[lo] < 0 {
        EncodedFrame(s, I, v, p, I', v', p', k, lo - I[lo], hi);
      } else {
        EncodedFrame(s, I, v, p, I', v', p', k, v[p.at[lo]] + 1, hi);
      }
    }
  }

  lemma {:induction false} EncodedAppend(s: seq<byte>, I: seq<int>, v: seq<int>, p: Perm, k: nat, lo: int, mid: int,
                                         hi: int)
    requires p.Valid(|s|) && |v| == |s| + 1 && |I| == |s| + 1
    requires 0 <= lo <= mid <= hi <= |s| + 1
    requires Encoded(s, I, v, p, k, lo, mid) && Encoded(s, I, v, p, k, mid, hi)
    ensures Encoded(s, I, v, p, k, lo, hi)
    decreases mid - lo
  {
    if lo < mid {
      if I[lo] < 0 {
        EncodedInBounds(s, I, v, p, k, lo - I[lo], mid);
        EncodedAppend(s, I, v, p, k, lo - I[lo], mid, hi);
      } else {
        EncodedAppend(s, I, v, p, k, v[p.at[lo]] + 1, mid, hi);
      }
    }
  }

  lemma EncodedInBounds(s: seq<byte>, I: seq<int>, v: seq<int>, p: Perm, k: nat, lo: int, hi: int)
    requires p.Valid(|s|) && |v| == |s| + 1 && |I| == |s| + 1
    requires 0 <= lo && hi <= |s| + 1
    requires Encoded(s, I, v, p, k, lo, hi)
    ensures lo <= hi
  {}

  /** When everything is encoded at width k, the ranks themselves have width k. */
  lemma EncodedWidens(s: seq<byte>, I: seq<int>, v: seq<int>, p: Perm, h: nat, k: nat)
    requires Ranked(s, v, p, h) && |I| == |s| + 1
    requires Encoded(s, I, v, p, k, 0, |s| + 1)
    ensures Ranked(s, v, p, k)
  {
    forall a, b | 0 <= a <= |s| && 0 <= b <= |s| && v[a] == v[b]
      ensures Agree(s, a, b, k)
    {
      EncodedAgree(s, I, v, p, k, 0, |s| + 1, a, b);
    }
  }

  lemma {:induction false} EncodedAgree(s: seq<byte>, I: seq<int>, v: seq<int>, p: Perm, k: nat, lo: int, hi: int,
                                        a: int, b: int)
    requires p.Valid(|s|) && |v| == |s| + 1 && |I| == |s| + 1
    requires 0 <= lo && hi <= |s| + 1
    requires Encoded(s, I, v, p, k, lo, hi)
    requires 0 <= a <= |s| && 0 <= b <= |s| && lo <= p.spot[a] < hi && lo <= p.spot[b] < hi && v[a] == v[b]
    requires forall c :: 0 <= c <= |s| ==> p.spot[c] <= v[c]
    ensures Agree(s, a, b, k)
    decreases hi - lo
  {
    assert p.at[p.spot[a]] == a && p.at[p.spot[b]] == b;
    if I[lo] < 0 {
      EncodedInBounds(s, I, v, p, k, lo - I[lo], hi);
      if p.spot[a] < lo - I[lo] && p.spot[b] < lo - I[lo] {
        AgreeWithSelf(s, a, k);
      } else if p.spot[a] >= lo - I[lo] && p.spot[b] >= lo - I[lo] {
        EncodedAgree(s, I, v, p, k, lo - I[lo], hi, a, b);
      }
    } else {
      var g := v[p.at[lo]];
      if p.spot[a] > g && p.spot[b] > g {
        EncodedAgree(s, I, v, p, k, g + 1, hi, a, b);
      }
    }
  }
}
