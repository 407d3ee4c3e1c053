/** The order that the suffix sort of applypatch/bsdiff.c sorts by. A suffix is
    named by its start index; index |s| names the empty suffix. */
module SuffixOrder {
  import opened Bytes

  /** Lexicographic order on byte strings; a proper prefix comes first. */
  predicate LexLess(x: seq<byte>, y: seq<byte>)
  {
    y != [] && (x == [] || x[0] < y[0] || (x[0] == y[0] && LexLess(x[1..], y[1..])))
  }

  /** The byte at p, or an end marker smaller than every byte. */
  function CharAt(s: seq<byte>, p: nat): int
  {
    if p < |s| then s[p] else -1
  }

  /** Suffixes a and b agree on their first h characters (end marker included). */
  predicate Agree(s: seq<byte>, a: nat, b: nat, h: nat)
    decreases h
  {
    h == 0 || (CharAt(s, a) == CharAt(s, b) && Agree(s, a + 1, b + 1, h - 1))
  }

  /** Suffix a sorts strictly before suffix b. */
  predicate Before(s: seq<byte>, a: nat, b: nat)
    decreases |s| - a
  {
    b < |s| && (a >= |s| || s[a] < s[b] || (s[a] == s[b] && Before(s, a + 1, b + 1)))
  }

  /** The index form of the order is the lexicographic order of the suffixes themselves. */
  lemma {:induction false} BeforeIsLexLess(s: seq<byte>, a: nat, b: nat)
    requires a <= |s| && b <= |s|
    ensures Before(s, a, b) <==> LexLess(s[a..], s[b..])
    decreases |s| - a
  {
    if a < |s| && b < |s| {
      assert s[a..][1..] == s[a + 1..];
      assert s[b..][1..] == s[b + 1..];
      BeforeIsLexLess(s, a + 1, b + 1);
    }
  }

  /** No two distinct suffixes agree past the end of the string, so a rank read at
      distance h from a suffix that agrees with another one is in range. */
  lemma {:induction false} AgreeInRange(s: seq<byte>, a: nat, b: nat, h: nat)
    requires a <= |s| && b <= |s| && a != b
    requires Agree(s, a, b, h)
    ensures a + h <= |s| && b + h <= |s|
    decreases h
  {
    if h > 0 {
      AgreeInRange(s, a + 1, b + 1, h - 1);
    }
  }

  lemma {:induction false} AgreeWithSelf(s: seq<byte>, a: nat, h: nat)
    ensures Agree(s, a, a, h)
    decreases h
  {
    if h > 0 {
      AgreeWithSelf(s, a + 1, h - 1);
    }
  }

  /** Agreement on h characters and then on k more is agreement on h + k. */
  lemma {:induction false} AgreeDoubles(s: seq<byte>, a: nat, b: nat, h: nat, k: nat)
    requires Agree(s, a, b, h) && Agree(s, a + h, b + h, k)
    ensures Agree(s, a, b, h + k)
    decreases h
  {
    if h > 0 {
      AgreeDoubles(s, a + 1, b + 1, h - 1, k);
    }
  }

  /** The order of two suffixes that agree on h characters is decided h characters on. */
  lemma {:induction false} BeforeFromTails(s: seq<byte>, a: nat, b: nat, h: nat)
    requires Agree(s, a, b, h) && Before(s, a + h, b + h)
    ensures Before(s, a, b)
    decreases h
  {
    if h > 0 {
      BeforeFromTails(s, a + 1, b + 1, h - 1);
    }
  }
}
