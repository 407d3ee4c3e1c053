/** The in-place Larsson-Sadakane suffix sort of applypatch/bsdiff.c: split and qsufsort. */
module SuffixSort {
  import opened Bytes
  import opened SuffixOrder
  import opened SuffixRanks
  import opened SuffixPartition

  /** The arrays I and V together with the permutation they stand for. */
  datatype State = State(I: seq<int>, v: seq<int>, p: Perm)
  {
    ghost predicate Sized(n: nat)
    {
      p.Valid(n) && |v| == n + 1 && |I| == n + 1
    }
  }

  /** c differs from b only in the places [start, end). */
  ghost predicate Within(b: State, c: State, n: nat, start: int, end: int)
  {
    b.Sized(n) && c.Sized(n) && Rearranges(b.p, c.p, n, start, end) &&
    (forall i :: 0 <= i <= n && !(start <= i < end) ==> c.I[i] == b.I[i] && c.v[b.p.at[i]] == b.v[b.p.at[i]])
  }

  /** split has worked its way from b to c: [start, k) is finished at width 2h, and [k, end)
      is still the front of the group that ends at g. */
  ghost predicate Splitting(s: seq<byte>, b: State, c: State, h: nat, start: int, k: int, end: int, g: int)
  {
    Within(b, c, |s|, start, end) && 0 <= start <= k <= end <= |s| + 1 &&
    Ranked(s, c.v, c.p, h) && Front(s, c.v, c.p, h, k, end, g) &&
    (forall i :: k <= i < end ==> c.I[i] == c.p.at[i]) &&
    Encoded(s, c.I, c.v, c.p, 2 * h, start, k)
  }

  lemma WithinCompose(b: State, c: State, d: State, n: nat, start: int, k: int, m: int, end: int)
    requires Within(b, c, n, start, end) && Within(c, d, n, k, m) && start <= k && m <= end
    ensures Within(b, d, n, start, end)
  {}

  /** Work on the places [k, m) leaves the rest of the front as it was. */
  lemma FrontAdvances(s: seq<byte>, c: State, d: State, h: nat, k: int, m: int, end: int, g: int)
    requires Within(c, d, |s|, k, m) && k <= m <= end
    requires Front(s, c.v, c.p, h, k, end, g) && Front(s, d.v, d.p, h, m, m, g)
    ensures Front(s, d.v, d.p, h, m, end, g)
  {}

  /** Splitting the piece [k, m) of [start, end) advances the whole by that piece. */
  lemma SplittingAdvances(s: seq<byte>, b: State, c: State, d: State, h: nat, start: int, k: int, m: int, end: int,
                          g: int)
    requires Splitting(s, b, c, h, start, k, end, g) && k <= m <= end
    requires Splitting(s, c, d, h, k, m, m, g)
    ensures Splitting(s, b, d, h, start, m, end, g)
  {
    WithinCompose(b, c, d, |s|, start, k, m, end);
    FrontAdvances(s, c, d, h, k, m, end, g);
    EncodedFrame(s, c.I, c.v, c.p, d.I, d.v, d.p, 2 * h, start, k);
    EncodedAppend(s, d.I, d.v, d.p, 2 * h, start, k, m);
  }

  /** Rearranging the unfinished places keeps the state of split. */
  lemma SplittingRearranged(s: seq<byte>, b: State, c: State, d: State, h: nat, start: int, k: int, end: int, g: int)
    requires Splitting(s, b, c, h, start, k, end, g)
    requires d.v == c.v && Rearranged(c.I, c.p, d.I, d.p, |s|, h, k, end)
    ensures Splitting(s, b, d, h, start, k, end, g)
  {
    RearrangeKeeps(s, c.v, c.p, d.p, h, k, end, g);
    EncodedFrame(s, c.I, c.v, c.p, d.I, d.v, d.p, 2 * h, start, k);
  }

  /** A front part that sorts before the rest can be split on its own. */
  lemma SplittingStarts(s: seq<byte>, b: State, c: State, h: nat, start: int, k: int, m: int, end: int, g: int)
    requires Splitting(s, b, c, h, start, k, end, g) && k <= m <= end
    requires forall i, j :: k <= i < m <= j < end ==> Before(s, c.p.at[i], c.p.at[j])
    ensures Splitting(s, c, c, h, k, k, m, g)
  {}

  /** What the keys decide: places on a lower side sort first, places on one side agree on
      twice as many characters. */
  lemma SidesDecide(s: seq<byte>, v: seq<int>, p: Perm, h: nat, x: int, lo: int, jj: int, kk: int, hi: int, g: int)
    requires Ranked(s, v, p, h) && Front(s, v, p, h, lo, hi, g)
    requires Placed(v, p, |s|, h, x, lo, jj, kk, hi, jj, kk, hi)
    ensures forall i, j :: lo <= i < jj <= j < hi ==> Before(s, p.at[i], p.at[j])
    ensures forall i, j :: jj <= i < kk <= j < hi ==> Before(s, p.at[i], p.at[j])
    ensures forall i, j :: jj <= i < kk && jj <= j < kk ==> Agree(s, p.at[i], p.at[j], 2 * h)
  {
    forall i, j | lo <= i < jj <= j < hi
      ensures Before(s, p.at[i], p.at[j])
    {
      SideDecides(s, v, p, h, x, i, j);
    }
    forall i, j | jj <= i < kk <= j < hi
      ensures Before(s, p.at[i], p.at[j])
    {
      SideDecides(s, v, p, h, x, i, j);
    }
    forall i, j | jj <= i < kk && jj <= j < kk
      ensures Agree(s, p.at[i], p.at[j], 2 * h)
    {
      SideDecides(s, v, p, h, x, i, j);
    }
  }

  lemma SideDecides(s: seq<byte>, v: seq<int>, p: Perm, h: nat, x: int, i: int, j: int)
    requires Ranked(s, v, p, h) && 0 <= i <= |s| && 0 <= j <= |s|
    requires v[p.at[i]] == v[p.at[j]] && p.at[i] + h <= |s| && p.at[j] + h <= |s|
    ensures Side(v, p, h, x, i) < Side(v, p, h, x, j) ==> Before(s, p.at[i], p.at[j])
    ensures Side(v, p, h, x, i) == 0 == Side(v, p, h, x, j) ==> Agree(s, p.at[i], p.at[j], 2 * h)
  {
    hide Agree, Before;
    KeyDecides(s, v, p, h, p.at[i], p.at[j]);
  }

  /** The labelling loop of split: the places [k, m) get the rank m - 1. */
  method Label(I: array<int>, V: array<int>, k: nat, m: nat, ghost n: nat, ghost p: Perm)
    requires I != V && I.Length == n + 1 && V.Length == n + 1 && p.Valid(n) && k <= m <= n + 1
    requires forall i :: k <= i < m ==> I[i] == p.at[i]
    modifies V
    ensures Relabels(n, old(V[..]), V[..], p, k, m)
  {
    var i := k;
    while i < m
      invariant k <= i <= m
      invariant forall a :: 0 <= a <= n ==> V[a] == if k <= p.spot[a] < i then m - 1 else old(V[a])
    {
      V[I[i]] := m - 1;
      i := i + 1;
    }
  }

  /** Places that agree at width 2h, once labelled, are encoded at width 2h. */
  lemma LabelEncodes(s: seq<byte>, I: seq<int>, v: seq<int>, p: Perm, h: nat, k: int, m: int)
    requires p.Valid(|s|) && |v| == |s| + 1 && |I| == |s| + 1 && 0 <= k < m <= |s| + 1
    requires forall i :: k <= i < m ==> v[p.at[i]] == m - 1
    requires forall i, j :: k <= i < m && k <= j < m ==> Agree(s, p.at[i], p.at[j], 2 * h)
    requires if m == k + 1 then I[k] == -1 else forall i :: k <= i < m ==> I[i] == p.at[i]
    ensures Encoded(s, I, v, p, 2 * h, k, m)
  {
    if k + 1 < m {
      forall j | k <= j < m ensures p.at[j] + 2 * h <= |s| {
        AgreeInRange(s, p.at[j], p.at[if j == k then k + 1 else k], 2 * h);
      }
      assert GroupAt(s, I, v, p, 2 * h, k, m);
    }
  }

  lemma GroupCloses(s: seq<byte>, c: State, d: State, h: nat, k: int, m: int, g: int)
    requires Splitting(s, c, c, h, k, k, m, g) && k < m
    requires forall i, j :: k <= i < m && k <= j < m ==> Agree(s, c.p.at[i], c.p.at[j], 2 * h)
    requires Relabels(|s|, c.v, d.v, c.p, k, m) && d.p == c.p
    requires d.I == if m == k + 1 then c.I[k := -1] else c.I
    ensures Splitting(s, c, d, h, k, m, m, g)
  {
    RelabelKeeps(s, c.v, d.v, c.p, h, k, m, m, g);
    LabelEncodes(s, d.I, d.v, d.p, h, k, m);
  }

  /** Closes the group [k, m): labels it and, if it is a single place, marks it finished. */
  method CloseGroup(I: array<int>, V: array<int>, k: nat, m: nat, h: nat,
                    ghost s: seq<byte>, ghost p: Perm, ghost g: int)
    requires I != V && I.Length == |s| + 1 && V.Length == |s| + 1 && k < m
    requires Splitting(s, State(I[..], V[..], p), State(I[..], V[..], p), h, k, k, m, g)
    requires forall i, j :: k <= i < m && k <= j < m ==> Agree(s, p.at[i], p.at[j], 2 * h)
    modifies I, V
    ensures Splitting(s, State(old(I[..]), old(V[..]), p), State(I[..], V[..], p), h, k, m, m, g)
  {
    ghost var c := State(I[..], V[..], p);
    assert forall i :: k <= i < m ==> I[i] == c.I[i];
    Label(I, V, k, m, |s|, p);
    if m == k + 1 {
      I[k] := -1;
    }
    GroupCloses(s, c, State(I[..], V[..], p), h, k, m, g);
  }

  /** split on a short range: repeated selection of the least keys. */
  method SplitShort(I: array<int>, V: array<int>, start: nat, end: nat, h: nat,
                    ghost s: seq<byte>, ghost p: Perm, ghost g: int) returns (ghost q: Perm)
    requires I != V && I.Length == |s| + 1 && V.Length == |s| + 1 && start <= end
    requires Splitting(s, State(I[..], V[..], p), State(I[..], V[..], p), h, start, start, end, g)
    modifies I, V
    ensures Splitting(s, State(old(I[..]), old(V[..]), p), State(I[..], V[..], q), h, start, end, end, g)
  {
    hide *;
    ghost var b := State(I[..], V[..], p);
    var k := start;
    q := p;
    while k < end
      invariant start <= k <= end
      invariant Splitting(s, b, State(I[..], V[..], q), h, start, k, end, g)
    {
      var j;
      j, q := NextGroup(I, V, start, k, end, h, s, b, q, g);
      k := k + j;
    }
  }

  /** One round of split on a short range. */
  method NextGroup(I: array<int>, V: array<int>, start: nat, k: nat, end: nat, h: nat,
                   ghost s: seq<byte>, ghost b: State, ghost p: Perm, ghost g: int) returns (j: nat, ghost q: Perm)
    requires I != V && I.Length == |s| + 1 && V.Length == |s| + 1 && k < end
    requires Splitting(s, b, State(I[..], V[..], p), h, start, k, end, g)
    modifies I, V
    ensures 0 < j && k + j <= end
    ensures Splitting(s, b, State(I[..], V[..], q), h, start, k + j, end, g)
  {
    hide *;
    j, q := SelectGroup(I, V, start, k, end, h, s, b, p, g);
    ghost var d := State(I[..], V[..], q);
    CloseGroup(I, V, k, k + j, h, s, q, g);
    SplittingAdvances(s, b, d, State(I[..], V[..], q), h, start, k, k + j, end, g);
  }

  /** Brings the entries of the next group of a short range together. */
  method SelectGroup(I: array<int>, V: array<int>, start: nat, k: nat, end: nat, h: nat,
                     ghost s: seq<byte>, ghost b: State, ghost p: Perm, ghost g: int) returns (j: nat, ghost q: Perm)
    requires I != V && I.Length == |s| + 1 && V.Length == |s| + 1 && k < end
    requires Splitting(s, b, State(I[..], V[..], p), h, start, k, end, g)
    modifies I
    ensures 0 < j && k + j <= end && q.Valid(|s|)
    ensures Splitting(s, b, State(I[..], V[..], q), h, start, k, end, g)
    ensures Splitting(s, State(I[..], V[..], q), State(I[..], V[..], q), h, k, k, k + j, g)
    ensures forall i, i' :: k <= i < k + j && k <= i' < k + j ==> Agree(s, q.at[i], q.at[i'], 2 * h)
  {
    ghost var c := State(I[..], V[..], p);
    var x;
    j, x, q := SelectLeast(I, V, k, end, h, |s|, p);
    assert k + j <= end && q.Valid(|s|);
    hide *;
    SplittingParted(s, b, c, State(I[..], V[..], q), h, x, start, k, k, k + j, end, g);
  }

  /** After the unfinished places are parted around x, the part below x can be split on its
      own, and if it is empty the part at x can be closed. */
  lemma SplittingParted(s: seq<byte>, b: State, c: State, d: State, h: nat, x: int,
                        start: int, k: int, jj: int, kk: int, end: int, g: int)
    requires Splitting(s, b, c, h, start, k, end, g)
    requires d.v == c.v && Rearranged(c.I, c.p, d.I, d.p, |s|, h, k, end)
    requires Placed(d.v, d.p, |s|, h, x, k, jj, kk, end, jj, kk, end)
    ensures Splitting(s, b, d, h, start, k, end, g)
    ensures Splitting(s, d, d, h, k, k, jj, g)
    ensures k == jj ==> Splitting(s, d, d, h, k, k, kk, g)
    ensures forall i, j :: jj <= i < kk <= j < end ==> Before(s, d.p.at[i], d.p.at[j])
    ensures forall i, j :: jj <= i < kk && jj <= j < kk ==> Agree(s, d.p.at[i], d.p.at[j], 2 * h)
  {
    SplittingRearranged(s, b, c, d, h, start, k, end, g);
    SidesDecide(s, d.v, d.p, h, x, k, jj, kk, end, g);
    SplittingStarts(s, b, d, h, start, k, jj, end, g);
    if k == jj {
      SplittingStarts(s, b, d, h, start, k, kk, end, g);
    }
  }

  /** Parts the unfinished range of split in three around the key of its middle entry. */
  method Part(I: array<int>, V: array<int>, start: nat, len: nat, h: nat,
              ghost s: seq<byte>, ghost p: Perm, ghost g: int) returns (jj: nat, kk: nat, ghost q: Perm)
    requires I != V && I.Length == |s| + 1 && V.Length == |s| + 1 && len > 0
    requires Splitting(s, State(I[..], V[..], p), State(I[..], V[..], p), h, start, start, start + len, g)
    modifies I
    ensures start <= jj < kk <= start + len && q.Valid(|s|)
    ensures Splitting(s, State(old(I[..]), V[..], p), State(I[..], V[..], q), h, start, start, start + len, g)
    ensures Splitting(s, State(I[..], V[..], q), State(I[..], V[..], q), h, start, start, jj, g)
    ensures forall i, j :: jj <= i < kk <= j < start + len ==> Before(s, q.at[i], q.at[j])
    ensures forall i, j :: jj <= i < kk && jj <= j < kk ==> Agree(s, q.at[i], q.at[j], 2 * h)
  {
    hide *;
    ghost var c := State(I[..], V[..], p);
    var x;
    SplittingHolds(s, c, h, start, start + len, g);
    jj, kk, x := FindPivot(I, V, start, len, h, |s|, p);
    q := Partition(I, V, start, jj, kk, start + len, h, x, |s|, p);
    SplittingParted(s, c, c, State(I[..], V[..], q), h, x, start, start, jj, kk, start + len, g);
  }

  lemma SplittingHolds(s: seq<byte>, c: State, h: nat, start: int, end: int, g: int)
    requires Splitting(s, c, c, h, start, start, end, g)
    ensures c.Sized(|s|) && 0 <= start <= end <= |s| + 1
    ensures Rearranged(c.I, c.p, c.I, c.p, |s|, h, start, end)
  {}

  /** The middle part can be closed once the part before it is split. */
  lemma MiddleStarts(s: seq<byte>, b: State, c: State, d: State, h: nat, start: int, jj: int, kk: int, end: int, g: int)
    requires Splitting(s, b, d, h, start, jj, end, g) && Splitting(s, c, d, h, start, jj, jj, g)
    requires start <= jj <= kk <= end && c.p.Valid(|s|)
    requires forall i, j :: jj <= i < kk <= j < end ==> Before(s, c.p.at[i], c.p.at[j])
    requires forall i, j :: jj <= i < kk && jj <= j < kk ==> Agree(s, c.p.at[i], c.p.at[j], 2 * h)
    ensures d.p.Valid(|s|) && Splitting(s, d, d, h, jj, jj, kk, g)
    ensures forall i, j :: jj <= i < kk && jj <= j < kk ==> Agree(s, d.p.at[i], d.p.at[j], 2 * h)
  {
    SplittingStarts(s, b, d, h, start, jj, kk, end, g);
  }

  /** split: refines the ranks of the places [start, start + len), which agree on h characters,
      so that places left with equal rank agree on 2h. */
  method Split(I: array<int>, V: array<int>, start: nat, len: nat, h: nat,
               ghost s: seq<byte>, ghost p: Perm, ghost g: int) returns (ghost q: Perm)
    requires I != V && I.Length == |s| + 1 && V.Length == |s| + 1
    requires Splitting(s, State(I[..], V[..], p), State(I[..], V[..], p), h, start, start, start + len, g)
    modifies I, V
    ensures Splitting(s, State(old(I[..]), old(V[..]), p), State(I[..], V[..], q), h, start, start + len,
                      start + len, g)
    decreases len
  {
    hide *;
    if len < 16 {
      q := SplitShort(I, V, start, start + len, h, s, p, g);
      return;
    }
    ghost var end := start + len;
    var jj, kk;
    ghost var b := State(I[..], V[..], p);
    jj, kk, q := Part(I, V, start, len, h, s, p, g);
    ghost var q0, c := q, State(I[..], V[..], q);
    if jj > start {
      q := Split(I, V, start, jj - start, h, s, q, g);
    }
    ghost var d := State(I[..], V[..], q);
    SplittingAdvances(s, b, c, d, h, start, start, jj, end, g);
    MiddleStarts(s, b, c, d, h, start, jj, kk, end, g);
    CloseGroup(I, V, jj, kk, h, s, q, g);
    ghost var e := State(I[..], V[..], q);
    SplittingAdvances(s, b, d, e, h, start, jj, kk, end, g);
    if start + len > kk {
      SplittingStarts(s, b, e, h, start, kk, end, end, g);
      q := Split(I, V, kk, start + len - kk, h, s, q, g);
      SplittingAdvances(s, b, e, State(I[..], V[..], q), h, start, kk, end, end, g);
    }
  }
}
