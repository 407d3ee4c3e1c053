/** The two ways in which split (applypatch/bsdiff.c) brings the entries of a group with equal
    keys together: a selection round on short ranges and a three-way partition on long ones. */
module SuffixPartition {
  import opened Bytes
  import opened SuffixRanks

  /** -1, 0 or 1 as the rank that place i is compared by in a pass of width h is
      below, at or above x. */
  ghost function Side(v: seq<int>, p: Perm, h: nat, x: int, i: int): int
  {
    if 0 <= i < |p.at| && 0 <= p.at[i] + h < |v| then
      var key := v[p.at[i] + h];
      if key < x then -1 else if key == x then 0 else 1
    else -2
  }

  ghost function Sides(v: seq<int>, p: Perm, h: nat, x: int, lo: int, hi: int): (c: seq<int>)
    requires lo <= hi
    ensures |c| == hi - lo
    ensures forall i :: 0 <= i < hi - lo ==> c[i] == Side(v, p, h, x, lo + i)
  {
    seq(hi - lo, i => Side(v, p, h, x, lo + i))
  }

  lemma SidesExtend(v: seq<int>, p: Perm, h: nat, x: int, lo: int, hi: int)
    requires lo <= hi
    ensures multiset(Sides(v, p, h, x, lo, hi + 1))
         == multiset(Sides(v, p, h, x, lo, hi)) + multiset{Side(v, p, h, x, hi)}
  {
    assert Sides(v, p, h, x, lo, hi + 1) == Sides(v, p, h, x, lo, hi) + [Side(v, p, h, x, hi)];
  }

  lemma SwapKeepsSides(v: seq<int>, p: Perm, n: nat, h: nat, x: int, lo: int, hi: int, i: int, j: int)
    requires p.Valid(n) && 0 <= lo <= i < hi <= n + 1 && lo <= j < hi
    ensures multiset(Sides(v, p.Swap(n, i, j), h, x, lo, hi)) == multiset(Sides(v, p, h, x, lo, hi))
  {
    var c := Sides(v, p, h, x, lo, hi);
    var d := Sides(v, p.Swap(n, i, j), h, x, lo, hi);
    var e := c[i - lo := c[j - lo]][j - lo := c[i - lo]];
    forall k | 0 <= k < hi - lo ensures d[k] == e[k] {
      assert lo + k == i || lo + k == j || p.Swap(n, i, j).at[lo + k] == p.at[lo + k];
    }
    assert d == e;
  }

  lemma {:induction false} AllEqual(c: seq<int>, y: int)
    requires forall i :: 0 <= i < |c| ==> c[i] == y
    ensures multiset(c)[y] == |c|
    decreases |c|
  {
    if c != [] {
      assert c == c[..|c| - 1] + [c[|c| - 1]];
      AllEqual(c[..|c| - 1], y);
    }
  }

  /** A block of y's and one more y outside it outnumber the block. */
  lemma Pigeonhole(c: seq<int>, y: int, lo: int, hi: int, extra: int)
    requires 0 <= lo <= hi <= |c| && 0 <= extra < |c| && !(lo <= extra < hi)
    requires c[extra] == y && forall i :: lo <= i < hi ==> c[i] == y
    ensures multiset(c)[y] > hi - lo
  {
    AllEqual(c[lo..hi], y);
    assert c == c[..lo] + c[lo..hi] + c[hi..];
    assert y in c[..lo] || y in c[hi..] by {
      assert extra < lo ==> c[..lo][extra] == y;
      assert extra >= hi ==> c[hi..][extra - hi] == y;
    }
  }

  /** How many of the places [lo, hi) are on side y of x. */
  ghost function Tally(v: seq<int>, p: Perm, h: nat, x: int, lo: int, hi: int, y: int): nat
    decreases hi - lo
  {
    if hi <= lo then 0
    else Tally(v, p, h, x, lo, hi - 1, y) + if Side(v, p, h, x, hi - 1) == y then 1 else 0
  }

  lemma {:induction false} TallyIsCount(v: seq<int>, p: Perm, h: nat, x: int, lo: int, hi: int, y: int)
    requires lo <= hi
    ensures Tally(v, p, h, x, lo, hi, y) == multiset(Sides(v, p, h, x, lo, hi))[y]
    decreases hi - lo
  {
    if lo < hi {
      TallyIsCount(v, p, h, x, lo, hi - 1, y);
      SidesExtend(v, p, h, x, lo, hi - 1);
    }
  }

  lemma {:induction false} TallyBounds(v: seq<int>, p: Perm, h: nat, x: int, lo: int, hi: int)
    requires lo <= hi
    ensures Tally(v, p, h, x, lo, hi, -1) + Tally(v, p, h, x, lo, hi, 0) <= hi - lo
    decreases hi - lo
  {
    if lo < hi {
      TallyBounds(v, p, h, x, lo, hi - 1);
    }
  }

  lemma SwapKeepsTally(v: seq<int>, p: Perm, n: nat, h: nat, x: int, lo: int, hi: int, i: int, j: int, y: int)
    requires p.Valid(n) && 0 <= lo <= i < hi <= n + 1 && lo <= j < hi
    ensures Tally(v, p.Swap(n, i, j), h, x, lo, hi, y) == Tally(v, p, h, x, lo, hi, y)
  {
    SwapKeepsSides(v, p, n, h, x, lo, hi, i, j);
    TallyIsCount(v, p, h, x, lo, hi, y);
    TallyIsCount(v, p.Swap(n, i, j), h, x, lo, hi, y);
  }

  lemma SideOutnumbers(v: seq<int>, p: Perm, h: nat, x: int, lo: int, hi: int, y: int, a: int, b: int, extra: int)
    requires lo <= a <= b <= hi && lo <= extra < hi && !(a <= extra < b)
    requires Side(v, p, h, x, extra) == y
    requires forall i :: a <= i < b ==> Side(v, p, h, x, i) == y
    ensures Tally(v, p, h, x, lo, hi, y) > b - a
  {
    Pigeonhole(Sides(v, p, h, x, lo, hi), y, a - lo, b - lo, extra - lo);
    TallyIsCount(v, p, h, x, lo, hi, y);
  }

  /** The counting pass of split: how many keys are below and at the pivot. */
  method CountSides(I: array<int>, V: array<int>, start: nat, end: nat, h: nat, x: int,
                    ghost n: nat, ghost p: Perm) returns (below: nat, same: nat)
    requires p.Valid(n) && I.Length == n + 1 && V.Length == n + 1 && start <= end <= n + 1
    requires forall i :: start <= i < end ==> I[i] == p.at[i] && p.at[i] + h <= n
    ensures Counted(V[..], p, h, x, start, start + below, start + below + same, end)
  {
    below, same := 0, 0;
    ghost var v := V[..];
    var i := start;
    while i < end
      invariant start <= i <= end
      invariant Counted(v, p, h, x, start, start + below, start + below + same, i)
    {
      assert v[p.at[i] + h] == V[I[i] + h];
      if V[I[i] + h] < x { below := below + 1; }
      if V[I[i] + h] == x { same := same + 1; }
      i := i + 1;
    }
  }

  /** How many keys lie on each side of the pivot. */
  ghost predicate Counted(v: seq<int>, p: Perm, h: nat, x: int, start: int, jj: int, kk: int, end: int)
  {
    Tally(v, p, h, x, start, end, -1) == jj - start &&
    Tally(v, p, h, x, start, end, 0) == kk - jj &&
    Tally(v, p, h, x, start, end, 1) == end - kk
  }

  lemma SwapKeepsCounts(v: seq<int>, p: Perm, n: nat, h: nat, x: int, start: int, jj: int, kk: int, end: int, i: int,
                        j: int)
    requires p.Valid(n) && 0 <= start <= i < end <= n + 1 && start <= j < end
    requires Counted(v, p, h, x, start, jj, kk, end)
    ensures Counted(v, p.Swap(n, i, j), h, x, start, jj, kk, end)
  {
    SwapKeepsTally(v, p, n, h, x, start, end, i, j, -1);
    SwapKeepsTally(v, p, n, h, x, start, end, i, j, 0);
    SwapKeepsTally(v, p, n, h, x, start, end, i, j, 1);
  }

  /** The places filled so far are on their own side of the pivot. */
  ghost predicate Placed(v: seq<int>, p: Perm, n: nat, h: nat, x: int,
                         start: int, jj: int, kk: int, end: int, i: int, j: int, k: int)
  {
    p.Valid(n) && |v| == n + 1 && 0 <= start <= i <= jj <= j <= kk <= k <= end <= n + 1 &&
    (forall t :: start <= t < i ==> Side(v, p, h, x, t) == -1) &&
    (forall t :: jj <= t < j ==> Side(v, p, h, x, t) == 0) &&
    (forall t :: kk <= t < k ==> Side(v, p, h, x, t) == 1)
  }

  lemma SwapSide(v: seq<int>, p: Perm, n: nat, h: nat, x: int, a: int, b: int)
    requires p.Valid(n) && 0 <= a <= n && 0 <= b <= n
    ensures forall t :: 0 <= t <= n ==>
              Side(v, p.Swap(n, a, b), h, x, t) == Side(v, p, h, x, if t == a then b else if t == b then a else t)
  {}

  lemma PlaceSame(v: seq<int>, p: Perm, n: nat, h: nat, x: int,
                  start: int, jj: int, kk: int, end: int, i: int, j: int, k: int, from: int)
    requires Placed(v, p, n, h, x, start, jj, kk, end, i, j, k) && Counted(v, p, h, x, start, jj, kk, end)
    requires i <= from < end && !(jj <= from < j) && !(kk <= from < k) && Side(v, p, h, x, from) == 0
    ensures j < kk
    ensures Placed(v, p.Swap(n, from, j), n, h, x, start, jj, kk, end, i, j + 1, k)
    ensures Counted(v, p.Swap(n, from, j), h, x, start, jj, kk, end)
  {
    SideOutnumbers(v, p, h, x, start, end, 0, jj, j, from);
    SwapKeepsCounts(v, p, n, h, x, start, jj, kk, end, from, j);
    SwapSide(v, p, n, h, x, from, j);
  }

  lemma PlaceAbove(v: seq<int>, p: Perm, n: nat, h: nat, x: int,
                   start: int, jj: int, kk: int, end: int, i: int, j: int, k: int, from: int)
    requires Placed(v, p, n, h, x, start, jj, kk, end, i, j, k) && Counted(v, p, h, x, start, jj, kk, end)
    requires i <= from < end && !(jj <= from < j) && !(kk <= from < k) && Side(v, p, h, x, from) == 1
    ensures k < end
    ensures Placed(v, p.Swap(n, from, k), n, h, x, start, jj, kk, end, i, j, k + 1)
    ensures Counted(v, p.Swap(n, from, k), h, x, start, jj, kk, end)
  {
    SideOutnumbers(v, p, h, x, start, end, 1, kk, k, from);
    SwapKeepsCounts(v, p, n, h, x, start, jj, kk, end, from, k);
    SwapSide(v, p, n, h, x, from, k);
  }

  /** Once the low places hold the keys below the pivot, no other place does; once the
      middle places hold the keys at the pivot, the remaining ones are above it. */
  lemma RestIsAbove(v: seq<int>, p: Perm, n: nat, h: nat, x: int,
                    start: int, jj: int, kk: int, end: int, j: int, k: int, t: int)
    requires Placed(v, p, n, h, x, start, jj, kk, end, jj, j, k) && Counted(v, p, h, x, start, jj, kk, end)
    requires jj <= t < end && p.at[t] + h <= n
    ensures Side(v, p, h, x, t) != -1
    ensures j == kk <= t ==> Side(v, p, h, x, t) == 1
  {
    if Side(v, p, h, x, t) == -1 {
      SideOutnumbers(v, p, h, x, start, end, -1, start, jj, t);
    } else if j == kk <= t && Side(v, p, h, x, t) == 0 {
      SideOutnumbers(v, p, h, x, start, end, 0, jj, kk, t);
    }
  }

  /** I holds p in the places [start, end), which can all be compared at distance h; p and
      I are p0 and I0 with these places rearranged. */
  ghost predicate Rearranged(I0: seq<int>, p0: Perm, I: seq<int>, p: Perm, n: nat, h: nat, start: int, end: int)
  {
    Rearranges(p0, p, n, start, end) && |I| == n + 1 && |I0| == n + 1 && 0 <= start <= end <= n + 1 &&
    (forall i :: start <= i < end ==> I[i] == p.at[i] && p.at[i] + h <= n) &&
    (forall i :: 0 <= i <= n && !(start <= i < end) ==> I[i] == I0[i])
  }

  /** The state of the three-way partition of [start, end) around x. */
  ghost predicate Parting(I0: seq<int>, p0: Perm, I: seq<int>, v: seq<int>, p: Perm, n: nat, h: nat, x: int,
                          start: int, jj: int, kk: int, end: int, i: int, j: int, k: int)
  {
    Rearranged(I0, p0, I, p, n, h, start, end) &&
    Placed(v, p, n, h, x, start, jj, kk, end, i, j, k) && Counted(v, p, h, x, start, jj, kk, end)
  }

  lemma RearrangedSwap(I0: seq<int>, p0: Perm, I: seq<int>, p: Perm, n: nat, h: nat, start: int, end: int, a: int,
                       b: int)
    requires Rearranged(I0, p0, I, p, n, h, start, end) && start <= a < end && start <= b < end
    ensures Rearranged(I0, p0, I[a := I[b]][b := I[a]], p.Swap(n, a, b), n, h, start, end)
  {}

  /** Moves the entry at from, whose key is not below the pivot, to its own side. */
  method Move(I: array<int>, V: array<int>, start: nat, jj: nat, kk: nat, end: nat, h: nat, x: int,
              i: nat, j: nat, k: nat, from: nat,
              ghost n: nat, ghost I0: seq<int>, ghost p0: Perm, ghost p: Perm) returns (j': nat, k': nat, ghost q: Perm)
    requires I != V && I.Length == n + 1 && V.Length == n + 1
    requires Parting(I0, p0, I[..], V[..], p, n, h, x, start, jj, kk, end, i, j, k)
    requires i <= from < end && !(jj <= from < j) && !(kk <= from < k) && Side(V[..], p, h, x, from) >= 0
    modifies I
    ensures Parting(I0, p0, I[..], V[..], q, n, h, x, start, jj, kk, end, i, j', k')
    ensures j' + k' == j + k + 1 && j <= j' <= kk && k <= k' <= end
  {
    ghost var v, w := V[..], I[..];
    j', k' := j, k;
    if V[I[from] + h] == x {
      PlaceSame(v, p, n, h, x, start, jj, kk, end, i, j, k, from);
      RearrangedSwap(I0, p0, w, p, n, h, start, end, from, j);
      I[from], I[j] := I[j], I[from];
      assert I[..] == w[from := w[j]][j := w[from]];
      q := p.Swap(n, from, j);
      j' := j + 1;
    } else {
      PlaceAbove(v, p, n, h, x, start, jj, kk, end, i, j, k, from);
      RearrangedSwap(I0, p0, w, p, n, h, start, end, from, k);
      I[from], I[k] := I[k], I[from];
      assert I[..] == w[from := w[k]][k := w[from]];
      q := p.Swap(n, from, k);
      k' := k + 1;
    }
  }

  /** The first loop of the partition: fill [start, jj) with the keys below x. */
  method FillBelow(I: array<int>, V: array<int>, start: nat, jj: nat, kk: nat, end: nat, h: nat, x: int,
                   ghost n: nat, ghost I0: seq<int>, ghost p: Perm) returns (j: nat, k: nat, ghost q: Perm)
    requires I != V && I.Length == n + 1 && V.Length == n + 1
    requires Parting(I0, p, I[..], V[..], p, n, h, x, start, jj, kk, end, start, jj, kk)
    modifies I
    ensures Parting(I0, p, I[..], V[..], q, n, h, x, start, jj, kk, end, jj, j, k)
  {
    var i := start;
    j, k, q := jj, kk, p;
    while i < jj
      invariant Parting(I0, p, I[..], V[..], q, n, h, x, start, jj, kk, end, i, j, k)
      decreases jj - i + (kk - j) + (end - k)
    {
      assert I[..][i] == q.at[i];
      if V[I[i] + h] < x {
        assert Side(V[..], q, h, x, i) == -1;
        i := i + 1;
      } else {
        j, k, q := Move(I, V, start, jj, kk, end, h, x, i, j, k, i, n, I0, p, q);
      }
    }
  }

  /** The second loop of the partition: fill [jj, kk) with the keys equal to x. */
  method FillSame(I: array<int>, V: array<int>, start: nat, jj: nat, kk: nat, end: nat, h: nat, x: int,
                  j0: nat, k0: nat, ghost n: nat, ghost I0: seq<int>, ghost p0: Perm, ghost p: Perm)
    returns (k: nat, ghost q: Perm)
    requires I != V && I.Length == n + 1 && V.Length == n + 1
    requires Parting(I0, p0, I[..], V[..], p, n, h, x, start, jj, kk, end, jj, j0, k0)
    modifies I
    ensures Parting(I0, p0, I[..], V[..], q, n, h, x, start, jj, kk, end, jj, kk, k)
  {
    var j := j0;
    k, q := k0, p;
    while j < kk
      invariant Parting(I0, p0, I[..], V[..], q, n, h, x, start, jj, kk, end, jj, j, k)
      decreases kk - j + (end - k)
    {
      assert I[..][j] == q.at[j];
      if V[I[j] + h] == x {
        assert Side(V[..], q, h, x, j) == 0;
        j := j + 1;
      } else {
        RestIsAbove(V[..], q, n, h, x, start, jj, kk, end, j, k, j);
        j, k, q := Move(I, V, start, jj, kk, end, h, x, jj, j, k, j, n, I0, p0, q);
      }
    }
  }

  lemma PartingDone(I0: seq<int>, p0: Perm, I: seq<int>, v: seq<int>, p: Perm, n: nat, h: nat, x: int,
                    start: int, jj: int, kk: int, end: int, k: int)
    requires Parting(I0, p0, I, v, p, n, h, x, start, jj, kk, end, jj, kk, k)
    ensures Placed(v, p, n, h, x, start, jj, kk, end, jj, kk, end)
    ensures p.Valid(n) && Rearranged(I0, p0, I, p, n, h, start, end)
  {
    forall t | kk <= t < end ensures Side(v, p, h, x, t) == 1 {
      RestIsAbove(v, p, n, h, x, start, jj, kk, end, kk, k, t);
    }
  }

  /** The three-way partition of split: on return the keys of [start, jj) are below x, those
      of [jj, kk) are x and those of [kk, end) are above x. */
  method Partition(I: array<int>, V: array<int>, start: nat, jj: nat, kk: nat, end: nat, h: nat, x: int,
                   ghost n: nat, ghost p: Perm) returns (ghost q: Perm)
    requires I != V && I.Length == n + 1 && V.Length == n + 1
    requires Parting(I[..], p, I[..], V[..], p, n, h, x, start, jj, kk, end, start, jj, kk)
    modifies I
    ensures q.Valid(n) && Rearranged(old(I[..]), p, I[..], q, n, h, start, end)
    ensures Placed(V[..], q, n, h, x, start, jj, kk, end, jj, kk, end)
  {
    hide *;
    ghost var I0 := I[..];
    var j, k;
    j, k, q := FillBelow(I, V, start, jj, kk, end, h, x, n, I0, p);
    k, q := FillSame(I, V, start, jj, kk, end, h, x, j, k, n, I0, p, q);
    PartingDone(I0, p, I[..], V[..], q, n, h, x, start, jj, kk, end, k);
  }

  /** One step of the selection round below: entry k + i joins the least keys seen. */
  method SelectStep(I: array<int>, V: array<int>, k: nat, end: nat, h: nat, x: int, j: nat, i: nat,
                    ghost n: nat, ghost I0: seq<int>, ghost p0: Perm, ghost p: Perm) returns (ghost q: Perm)
    requires I != V && I.Length == n + 1 && V.Length == n + 1 && j <= i && k + i < end
    requires Rearranged(I0, p0, I[..], p, n, h, k, end)
    requires Placed(V[..], p, n, h, x, k, k, k + j, end, k, k + j, k + i)
    requires Side(V[..], p, h, x, k + i) == 0
    modifies I
    ensures Rearranged(I0, p0, I[..], q, n, h, k, end)
    ensures Placed(V[..], q, n, h, x, k, k, k + j + 1, end, k, k + j + 1, k + i + 1)
  {
    hide *;
    ghost var w := I[..];
    SelectPlaced(V[..], p, n, h, x, k, end, j, i);
    RearrangedSwap(I0, p0, w, p, n, h, k, end, k + j, k + i);
    I[k + j], I[k + i] := I[k + i], I[k + j];
    assert I[..] == w[k + j := w[k + i]][k + i := w[k + j]];
    q := p.Swap(n, k + j, k + i);
  }

  lemma SelectPlaced(v: seq<int>, p: Perm, n: nat, h: nat, x: int, k: nat, end: nat, j: nat, i: nat)
    requires Placed(v, p, n, h, x, k, k, k + j, end, k, k + j, k + i) && j <= i && k + i < end
    requires Side(v, p, h, x, k + i) == 0
    ensures p.Valid(n) && k + j <= k + i <= n
    ensures Placed(v, p.Swap(n, k + j, k + i), n, h, x, k, k, k + j + 1, end, k, k + j + 1, k + i + 1)
  {
    SwapSide(v, p, n, h, x, k + j, k + i);
    hide Perm.Swap, Side, Perm.Valid;
  }

  /** One round of the selection sort that split uses on short ranges: the entries with
      the smallest key go to the front of [k, end). */
  method SelectLeast(I: array<int>, V: array<int>, k: nat, end: nat, h: nat,
                     ghost n: nat, ghost p: Perm) returns (j: nat, x: int, ghost q: Perm)
    requires I != V && I.Length == n + 1 && V.Length == n + 1 && k < end
    requires Rearranged(I[..], p, I[..], p, n, h, k, end)
    modifies I
    ensures Rearranged(old(I[..]), p, I[..], q, n, h, k, end)
    ensures 0 < j && Placed(V[..], q, n, h, x, k, k, k + j, end, k, k + j, end)
  {
    ghost var I0 := I[..];
    j, q := 1, p;
    assert I[..][k] == q.at[k];
    x := V[I[k] + h];
    var i := 1;
    while k + i < end
      invariant 1 <= j <= i && k + i <= end
      invariant Rearranged(I0, p, I[..], q, n, h, k, end)
      invariant Placed(V[..], q, n, h, x, k, k, k + j, end, k, k + j, k + i)
    {
      assert I[..][k + i] == q.at[k + i];
      if V[I[k + i] + h] < x {
        LowerPivot(V[..], q, n, h, x, V[I[k + i] + h], k, end, j, i);
        x := V[I[k + i] + h];
        j := 0;
      }
      if V[I[k + i] + h] == x {
        q := SelectStep(I, V, k, end, h, x, j, i, n, I0, p, q);
        j := j + 1;
      }
      i := i + 1;
    }
  }

  lemma LowerPivot(v: seq<int>, p: Perm, n: nat, h: nat, x: int, y: int, k: int, end: int, j: int, i: int)
    requires Placed(v, p, n, h, x, k, k, k + j, end, k, k + j, k + i) && y < x
    requires forall t :: k <= t < end ==> p.at[t] + h <= n
    ensures Placed(v, p, n, h, y, k, k, k, end, k, k, k + i)
  {
    forall t | k <= t < k + i ensures Side(v, p, h, y, t) == 1 {
      assert t < k + j ==> Side(v, p, h, x, t) == 0;
      assert t >= k + j ==> Side(v, p, h, x, t) == 1;
    }
  }

  /** Takes the key of the middle entry as pivot and counts the keys on each side of it. */
  method FindPivot(I: array<int>, V: array<int>, start: nat, len: nat, h: nat,
                   ghost n: nat, ghost p: Perm) returns (jj: nat, kk: nat, x: int)
    requires I.Length == n + 1 && V.Length == n + 1 && len > 0
    requires Rearranged(I[..], p, I[..], p, n, h, start, start + len)
    ensures start <= jj < kk <= start + len
    ensures Parting(I[..], p, I[..], V[..], p, n, h, x, start, jj, kk, start + len, start, jj, kk)
  {
    ghost var end := start + len;
    assert forall i :: start <= i < end ==> I[i] == I[..][i];
    x := V[I[start + len / 2] + h];
    assert Side(V[..], p, h, x, start + len / 2) == 0;
    var below, same := CountSides(I, V, start, start + len, h, x, n, p);
    SideOutnumbers(V[..], p, h, x, start, end, 0, start, start, start + len / 2);
    TallyBounds(V[..], p, h, x, start, end);
    jj := start + below;
    kk := jj + same;
  }
}
