/** matchlen and search of applypatch/bsdiff.c: looking new data up in the sorted suffixes. */
module Search {
  import opened Bytes
  import opened SuffixOrder
  import opened QSufSort

  /** The length of the longest common prefix of source[pos..] and target[scan..]. */
  ghost predicate LongestMatch(source: seq<byte>, pos: int, target: seq<byte>, scan: int, len: int)
  {
    0 <= pos && 0 <= scan && 0 <= len && pos + len <= |source| && scan + len <= |target| &&
    source[pos..pos + len] == target[scan..scan + len] &&
    (pos + len < |source| && scan + len < |target| ==> source[pos + len] != target[scan + len])
  }

  method MatchLength(source: seq<byte>, pos: nat, target: seq<byte>, scan: nat) returns (len: nat)
    requires pos <= |source| && scan <= |target|
    ensures LongestMatch(source, pos, target, scan, len)
  {
    len := 0;
    while pos + len < |source| && scan + len < |target| && source[pos + len] == target[scan + len]
      invariant pos + len <= |source| && scan + len <= |target|
      invariant source[pos..pos + len] == target[scan..scan + len]
    {
      assert source[pos..pos + len + 1] == source[pos..pos + len] + [source[pos + len]];
      assert target[scan..scan + len + 1] == target[scan..scan + len] + [target[scan + len]];
      len := len + 1;
    }
  }

  /** memcmp of source[pos..] and target[scan..] over their common length is negative. */
  predicate ComparesLess(source: seq<byte>, pos: nat, target: seq<byte>, scan: nat)
    decreases |source| - pos
  {
    pos < |source| && scan < |target| &&
    (source[pos] < target[scan] ||
     (source[pos] == target[scan] && ComparesLess(source, pos + 1, target, scan + 1)))
  }

  /** Place t of the sorted suffixes starts with byte c. */
  ghost predicate StartsWith(source: seq<byte>, a: seq<int>, t: int, c: byte)
  {
    0 <= t < |a| && 0 <= a[t] < |source| && source[a[t]] == c
  }

  /** Halving the range at x keeps a suffix that starts with the wanted byte in it. */
  lemma HalvingKeeps(source: seq<byte>, a: seq<int>, target: seq<byte>, scan: nat, t: int, x: int)
    requires IsSuffixArray(source, a) && scan < |target| && 0 < x < |a|
    requires StartsWith(source, a, t, target[scan])
    ensures ComparesLess(source, a[x], target, scan) && t < x ==> StartsWith(source, a, x, target[scan])
    ensures !ComparesLess(source, a[x], target, scan) && x < t ==> StartsWith(source, a, x, target[scan])
  {
    assert LexLess(source[a[0]..], source[a[x]..]);
    if t < x {
      assert LexLess(source[a[t]..], source[a[x]..]);
    } else if x < t {
      assert LexLess(source[a[x]..], source[a[t]..]);
    }
  }

  /** The length of the match at pos, character by character. */
  ghost function MatchAt(source: seq<byte>, pos: nat, target: seq<byte>, scan: nat): nat
    decreases |source| - pos
  {
    if pos < |source| && scan < |target| && source[pos] == target[scan]
    then 1 + MatchAt(source, pos + 1, target, scan + 1) else 0
  }

  lemma {:induction false} LongestMatchIsMatchAt(source: seq<byte>, pos: nat, target: seq<byte>, scan: nat, len: nat)
    requires LongestMatch(source, pos, target, scan, len)
    ensures len == MatchAt(source, pos, target, scan)
    decreases len
  {
    if len > 0 {
      assert source[pos..pos + len][0] == target[scan..scan + len][0];
      assert source[pos + 1..pos + len] == source[pos..pos + len][1..];
      assert target[scan + 1..scan + len] == target[scan..scan + len][1..];
      LongestMatchIsMatchAt(source, pos + 1, target, scan + 1, len - 1);
    }
  }

  /** No position matches target[scan..] over more than len bytes. */
  ghost predicate IsLongest(source: seq<byte>, target: seq<byte>, scan: nat, len: nat)
  {
    forall p :: 0 <= p <= |source| ==> MatchAt(source, p, target, scan) <= len
  }

  /** source[pos..] is a proper prefix of target[scan..]; memcmp over the common length finds them equal. */
  ghost predicate ProperPrefix(source: seq<byte>, pos: nat, target: seq<byte>, scan: nat)
    decreases |source| - pos
  {
    scan < |target| &&
    (pos >= |source| || (source[pos] == target[scan] && ProperPrefix(source, pos + 1, target, scan + 1)))
  }

  lemma {:induction false} ProperPrefixMeans(source: seq<byte>, pos: nat, target: seq<byte>, scan: nat)
    requires pos <= |source| && scan <= |target|
    ensures ProperPrefix(source, pos, target, scan) <==> source[pos..] < target[scan..]
    decreases |source| - pos
  {
    if pos < |source| && scan < |target| {
      ProperPrefixMeans(source, pos + 1, target, scan + 1);
      assert source[pos..] == [source[pos]] + source[pos + 1..];
      assert target[scan..] == [target[scan]] + target[scan + 1..];
    }
  }

  /** A suffix that compares less, or is a proper prefix, matches at least as far as the suffixes before it. */
  lemma {:induction false} MatchBelow(source: seq<byte>, q: nat, p: nat, target: seq<byte>, scan: nat)
    requires Before(source, q, p)
    requires ComparesLess(source, p, target, scan) || ProperPrefix(source, p, target, scan)
    ensures MatchAt(source, q, target, scan) <= MatchAt(source, p, target, scan)
    decreases |source| - p
  {
    if q < |source| && p < |source| && source[p] == target[scan] == source[q] {
      MatchBelow(source, q + 1, p + 1, target, scan + 1);
    }
  }

  /** Any other suffix matches at least as far as the suffixes after it. */
  lemma {:induction false} MatchAbove(source: seq<byte>, p: nat, q: nat, target: seq<byte>, scan: nat)
    requires Before(source, p, q)
    requires !ComparesLess(source, p, target, scan) && !ProperPrefix(source, p, target, scan)
    ensures MatchAt(source, q, target, scan) <= MatchAt(source, p, target, scan)
    decreases |source| - p
  {
    if scan < |target| && p < |source| && source[p] == target[scan] == source[q] {
      MatchAbove(source, p + 1, q + 1, target, scan + 1);
    }
  }

  /** The search of the places st..en turns away from the longest match: a place it looks at holds a proper
      prefix of target[scan..], and some other match is longer. */
  ghost predicate Misled(source: seq<byte>, a: seq<int>, target: seq<byte>, scan: nat, st: nat, en: nat)
    requires st <= en < |a| && forall i :: 0 <= i < |a| ==> 0 <= a[i] <= |source|
    decreases en - st
  {
    en - st >= 2 &&
    var x := st + (en - st) / 2;
    if ComparesLess(source, a[x], target, scan) then Misled(source, a, target, scan, x, en)
    else (ProperPrefix(source, a[x], target, scan) &&
          !IsLongest(source, target, scan, MatchAt(source, a[x], target, scan))) ||
         Misled(source, a, target, scan, st, x)
  }

  /** One of the places st..en holds a longest match. */
  ghost predicate Covers(source: seq<byte>, a: seq<int>, target: seq<byte>, scan: nat, st: nat, en: nat)
    requires st <= en < |a| && forall i :: 0 <= i < |a| ==> 0 <= a[i] <= |source|
  {
    exists t :: st <= t <= en && IsLongest(source, target, scan, MatchAt(source, a[t], target, scan))
  }

  lemma PlacesOrdered(source: seq<byte>, a: seq<int>, i: nat, k: nat)
    requires IsSuffixArray(source, a) && i < k < |a|
    ensures 0 <= a[i] <= |source| && 0 <= a[k] <= |source| && Before(source, a[i], a[k])
  {
    BeforeIsLexLess(source, a[i], a[k]);
  }

  /** Halving the range at x keeps a longest match in it, unless the search is misled at x. */
  lemma HalvingCovers(source: seq<byte>, a: seq<int>, target: seq<byte>, scan: nat, st: nat, x: nat, en: nat)
    requires IsSuffixArray(source, a) && st < x < en < |a| && forall i :: 0 <= i < |a| ==> 0 <= a[i] <= |source|
    requires Covers(source, a, target, scan, st, en)
    ensures ComparesLess(source, a[x], target, scan) ==> Covers(source, a, target, scan, x, en)
    ensures !ComparesLess(source, a[x], target, scan) &&
            (ProperPrefix(source, a[x], target, scan) ==>
               IsLongest(source, target, scan, MatchAt(source, a[x], target, scan))) ==>
            Covers(source, a, target, scan, st, x)
  {
    hide ComparesLess, ProperPrefix, MatchAt, IsSuffixArray;
    var t :| st <= t <= en && IsLongest(source, target, scan, MatchAt(source, a[t], target, scan));
    if ComparesLess(source, a[x], target, scan) {
      if t < x {
        PlacesOrdered(source, a, t, x);
        MatchBelow(source, a[t], a[x], target, scan);
      }
    } else if !ProperPrefix(source, a[x], target, scan) && x < t {
      PlacesOrdered(source, a, x, t);
      MatchAbove(source, a[x], a[t], target, scan);
    }
  }

  /** Where a proper prefix turns the search away, no place left matches further than it does. */
  lemma LeftOfPrefix(source: seq<byte>, a: seq<int>, target: seq<byte>, scan: nat, x: nat, i: nat)
    requires IsSuffixArray(source, a) && i <= x < |a| && forall k :: 0 <= k < |a| ==> 0 <= a[k] <= |source|
    requires ProperPrefix(source, a[x], target, scan)
    ensures MatchAt(source, a[i], target, scan) <= MatchAt(source, a[x], target, scan)
  {
    if i < x {
      PlacesOrdered(source, a, i, x);
      MatchBelow(source, a[i], a[x], target, scan);
    }
  }

  /** The step of the search at x: what it does to being longest. */
  lemma HalvingLongest(source: seq<byte>, a: seq<int>, target: seq<byte>, scan: nat, st: nat, en: nat, len: nat, i: nat)
    requires IsSuffixArray(source, a) && st + 2 <= en < |a| && forall k :: 0 <= k < |a| ==> 0 <= a[k] <= |source|
    requires Covers(source, a, target, scan, st, en)
    requires i < |a| && len == MatchAt(source, a[i], target, scan)
    requires var x := st + (en - st) / 2;
             if ComparesLess(source, a[x], target, scan)
             then Covers(source, a, target, scan, x, en) ==>
                    (IsLongest(source, target, scan, len) <==> !Misled(source, a, target, scan, x, en))
             else i <= x && (Covers(source, a, target, scan, st, x) ==>
                    (IsLongest(source, target, scan, len) <==> !Misled(source, a, target, scan, st, x)))
    ensures IsLongest(source, target, scan, len) <==> !Misled(source, a, target, scan, st, en)
  {
    hide ComparesLess, ProperPrefix, MatchAt, IsSuffixArray, Covers;
    var x := st + (en - st) / 2;
    HalvingCovers(source, a, target, scan, st, x, en);
    if !ComparesLess(source, a[x], target, scan) && ProperPrefix(source, a[x], target, scan) {
      LeftOfPrefix(source, a, target, scan, x, i);
    }
  }

  /** search: a position whose match with target[scan..] is as long as it says; over the sorted
      suffixes the length is positive whenever the next byte occurs in the range, and if the range holds a
      longest match, one is found exactly when the search is not misled. */
  method SearchRange(I: array<int>, source: seq<byte>, target: seq<byte>, scan: nat, st: nat, en: nat)
    returns (len: nat, pos: nat)
    requires I.Length == |source| + 1 && st <= en <= |source| && scan <= |target|
    requires forall i :: 0 <= i < I.Length ==> 0 <= I[i] <= |source|
    ensures LongestMatch(source, pos, target, scan, len)
    ensures exists i :: st <= i <= en && pos == I[i]
    ensures IsSuffixArray(source, I[..]) && scan < |target| ==>
              (forall t :: st <= t <= en && StartsWith(source, I[..], t, target[scan]) ==> len > 0)
    ensures IsSuffixArray(source, I[..]) && Covers(source, I[..], target, scan, st, en) ==>
              (IsLongest(source, target, scan, len) <==> !Misled(source, I[..], target, scan, st, en))
    decreases en - st
  {
    hide IsLongest, Covers, Misled, MatchAt, IsSuffixArray, StartsWith;
    ghost var a := I[..];
    if en - st < 2 {
      var x := MatchLength(source, I[st], target, scan);
      var y := MatchLength(source, I[en], target, scan);
      if x > y {
        len, pos := x, I[st];
      } else {
        len, pos := y, I[en];
      }
      ShortRange(source, a, target, scan, st, en, x, y);
    } else {
      var x := st + (en - st) / 2;
      if IsSuffixArray(source, I[..]) && scan < |target| {
        forall t | st <= t <= en && StartsWith(source, I[..], t, target[scan])
          ensures ComparesLess(source, I[x], target, scan) && t < x ==> StartsWith(source, I[..], x, target[scan])
          ensures !ComparesLess(source, I[x], target, scan) && x < t ==> StartsWith(source, I[..], x, target[scan])
        {
          HalvingKeeps(source, I[..], target, scan, t, x);
        }
      }
      if ComparesLess(source, I[x], target, scan) {
        len, pos := SearchRange(I, source, target, scan, x, en);
      } else {
        len, pos := SearchRange(I, source, target, scan, st, x);
      }
      ghost var i :| st <= i <= en && pos == a[i] && (!ComparesLess(source, I[x], target, scan) ==> i <= x);
      LongestMatchIsMatchAt(source, pos, target, scan, len);
      if IsSuffixArray(source, a) && Covers(source, a, target, scan, st, en) {
        HalvingLongest(source, a, target, scan, st, en, len, i);
      }
    }
  }

  lemma LongerIsLongest(source: seq<byte>, target: seq<byte>, scan: nat, m: nat, len: nat)
    requires IsLongest(source, target, scan, m) && m <= len
    ensures IsLongest(source, target, scan, len)
  {
    hide MatchAt;
  }

  lemma StartMatches(source: seq<byte>, a: seq<int>, t: nat, target: seq<byte>, scan: nat)
    requires scan < |target| && StartsWith(source, a, t, target[scan])
    ensures MatchAt(source, a[t], target, scan) > 0
  {}

  /** A range of one or two places is searched in full. */
  lemma {:induction false} ShortRange(source: seq<byte>, a: seq<int>, target: seq<byte>, scan: nat, st: nat, en: nat,
                                      x: nat, y: nat)
    requires st <= en < |a| && en - st < 2 && forall i :: 0 <= i < |a| ==> 0 <= a[i] <= |source|
    requires LongestMatch(source, a[st], target, scan, x) && LongestMatch(source, a[en], target, scan, y)
    ensures !Misled(source, a, target, scan, st, en)
    ensures Covers(source, a, target, scan, st, en) ==> IsLongest(source, target, scan, if x > y then x else y)
    ensures scan < |target| ==>
              forall t :: st <= t <= en && StartsWith(source, a, t, target[scan]) ==> x > 0 || y > 0
  {
    hide MatchAt, LongestMatch, IsLongest, StartsWith;
    LongestMatchIsMatchAt(source, a[st], target, scan, x);
    LongestMatchIsMatchAt(source, a[en], target, scan, y);
    if Covers(source, a, target, scan, st, en) {
      var t :| st <= t <= en && IsLongest(source, target, scan, MatchAt(source, a[t], target, scan));
      LongerIsLongest(source, target, scan, MatchAt(source, a[t], target, scan), if x > y then x else y);
    }
    if scan < |target| {
      forall t | st <= t <= en && StartsWith(source, a, t, target[scan]) ensures x > 0 || y > 0 {
        StartMatches(source, a, t, target, scan);
      }
    }
  }

  /** search over the whole array: it finds a match exactly when the next byte occurs at all, and the
      longest match exactly when it is not misled on its way. */
  method FindMatch(I: array<int>, source: seq<byte>, target: seq<byte>, scan: nat) returns (len: nat, pos: nat)
    requires I.Length == |source| + 1 && scan <= |target|
    requires forall i :: 0 <= i < I.Length ==> 0 <= I[i] <= |source|
    ensures LongestMatch(source, pos, target, scan, len)
    ensures IsSuffixArray(source, I[..]) && scan < |target| ==> (len > 0 <==> target[scan] in source)
    ensures IsSuffixArray(source, I[..]) ==>
              (IsLongest(source, target, scan, len) <==> !Misled(source, I[..], target, scan, 0, |source|))
  {
    hide IsLongest, Covers, Misled;
    len, pos := SearchRange(I, source, target, scan, 0, |source|);
    if len > 0 {
      assert source[pos..pos + len][0] == target[scan..scan + len][0];
    }
    if IsSuffixArray(source, I[..]) {
      AllCovered(source, I[..], target, scan);
      if scan < |target| && target[scan] in source {
        var k :| 0 <= k < |source| && source[k] == target[scan];
        assert k in I[..];
        var t :| 0 <= t < I.Length && I[t] == k;
        assert StartsWith(source, I[..], t, target[scan]);
      }
    }
  }

  lemma {:induction false} SomeLongest(source: seq<byte>, target: seq<byte>, scan: nat, n: nat) returns (p: nat)
    requires n <= |source|
    ensures p <= n && forall q :: 0 <= q <= n ==> MatchAt(source, q, target, scan) <= MatchAt(source, p, target, scan)
  {
    hide MatchAt;
    if n == 0 {
      p := 0;
    } else {
      p := SomeLongest(source, target, scan, n - 1);
      if MatchAt(source, p, target, scan) < MatchAt(source, n, target, scan) {
        p := n;
      }
    }
  }

  lemma AllCovered(source: seq<byte>, a: seq<int>, target: seq<byte>, scan: nat)
    requires IsSuffixArray(source, a) && forall i :: 0 <= i < |a| ==> 0 <= a[i] <= |source|
    ensures |a| == |source| + 1 && Covers(source, a, target, scan, 0, |source|)
  {
    hide MatchAt;
    var p := SomeLongest(source, target, scan, |source|);
    assert p in a;
    var t :| 0 <= t < |a| && a[t] == p;
    assert IsLongest(source, target, scan, MatchAt(source, a[t], target, scan));
  }

  /** A condition that can be checked beforehand: if no non-empty suffix of source is a proper prefix of
      target[scan..], no search of the sorted suffixes is misled. */
  lemma {:induction false} NotMisled(source: seq<byte>, a: seq<int>, target: seq<byte>, scan: nat, st: nat, en: nat)
    requires IsSuffixArray(source, a) && st <= en < |a| && forall i :: 0 <= i < |a| ==> 0 <= a[i] <= |source|
    requires scan <= |target| && forall p :: 0 <= p < |source| ==> !(source[p..] < target[scan..])
    ensures !Misled(source, a, target, scan, st, en)
    decreases en - st
  {
    hide IsSuffixArray, ComparesLess, IsLongest, MatchAt;
    if en - st >= 2 {
      var x := st + (en - st) / 2;
      NotMisled(source, a, target, scan, x, en);
      NotMisled(source, a, target, scan, st, x);
      PlacesOrdered(source, a, 0, x);
      ProperPrefixMeans(source, a[x], target, scan);
    }
  }

  lemma ExampleIsSorted()
    ensures IsSuffixArray([97, 98, 97], [3, 2, 0, 1])
  {
    var source: seq<byte>, a := [97, 98, 97], [3, 2, 0, 1];
    assert source[3..] == [] && source[2..] == [97] && source[0..] == [97, 98, 97] && source[1..] == [98, 97];
    assert source[0..][1..] == [98, 97] && source[2..][1..] == [];
    assert a[0] == 3 && a[1] == 2 && a[2] == 0 && a[3] == 1;
  }

  /** An input on which the search is misled: old data "aba", new data "abx". The middle place holds the
      suffix "a", a proper prefix, and the search settles for one byte where two match. */
  lemma MisledExample()
    ensures var source, target, a := [97, 98, 97], [97, 98, 120], [3, 2, 0, 1];
            IsSuffixArray(source, a) && Misled(source, a, target, 0, 0, 3) &&
            MatchAt(source, 2, target, 0) == 1 && MatchAt(source, 0, target, 0) == 2
  {
    hide IsSuffixArray, IsLongest;
    ExampleIsSorted();
    var source: seq<byte>, target: seq<byte> := [97, 98, 97], [97, 98, 120];
    assert MatchAt(source, 2, target, 0) == 1 + MatchAt(source, 3, target, 1) == 1;
    assert MatchAt(source, 1, target, 1) == 1 + MatchAt(source, 2, target, 2) == 1;
    assert MatchAt(source, 0, target, 0) == 1 + MatchAt(source, 1, target, 1) == 2;
    assert !ComparesLess(source, 2, target, 0) && ProperPrefix(source, 2, target, 0);
    NotLongest(source, target, 0, 0, 1);
  }

  lemma NotLongest(source: seq<byte>, target: seq<byte>, scan: nat, p: nat, len: nat)
    requires p <= |source| && MatchAt(source, p, target, scan) > len
    ensures !IsLongest(source, target, scan, len)
  {
    hide MatchAt;
  }
}
