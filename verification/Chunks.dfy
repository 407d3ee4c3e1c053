/** The chunks that imgdiff (applypatch/imgdiff.c) cuts an image into, and the merging of
    neighbouring normal chunks. */
module Chunks {
  import opened Bytes

  /** The parameters of the deflate encoder. */
  datatype Params = Params(level: int, encoding: int, windowBits: int, memLevel: int, strategy: int)

  /** A piece of an image. `at` is where the chunk's pointer into the image points: the data of a
      normal chunk, the compressed data of a deflate chunk. An entry of a zip file has a name. */
  datatype Chunk =
    | Normal(start: nat, at: nat, len: nat)
    | Deflate(start: nat, at: nat, deflateLen: nat, data: seq<byte>, params: Params, name: Option<seq<byte>>)
  {
    /** How many bytes of the image the chunk covers. */
    function Extent(): nat
    {
      if Normal? then len else deflateLen
    }
  }

  /** The chunks cover the image bytes [from, to) one after the other. */
  predicate Tiles(cs: seq<Chunk>, from: int, to: int)
  {
    if cs == [] then from == to
    else cs[0].start == from && cs[0].at == from && Tiles(cs[1..], from + cs[0].Extent(), to)
  }

  /** d is a normal chunk that starts where the normal chunk c ends, in the image and in memory. */
  predicate Mergeable(c: Chunk, d: Chunk)
  {
    c.Normal? && d.Normal? && d.start == c.start + c.len && d.at == c.at + c.len
  }

  /** How many of the first chunks make one solid block. */
  function RunLength(cs: seq<Chunk>): (n: nat)
    requires cs != []
    ensures 1 <= n <= |cs|
  {
    if |cs| > 1 && Mergeable(cs[0], cs[1]) then 1 + RunLength(cs[1..]) else 1
  }

  function TotalExtent(cs: seq<Chunk>): nat
  {
    if cs == [] then 0 else cs[0].Extent() + TotalExtent(cs[1..])
  }

  /** The single chunk that stands for a solid block. */
  function Block(run: seq<Chunk>): Chunk
    requires run != []
  {
    if |run| == 1 then run[0] else Normal(run[0].start, run[0].at, TotalExtent(run))
  }

  function Merged(cs: seq<Chunk>): seq<Chunk>
    decreases |cs|
  {
    if cs == [] then []
    else [Block(cs[..RunLength(cs)])] + Merged(cs[RunLength(cs)..])
  }

  /** A run of two chunks or more is normal, and ends where its extents add up to. */
  lemma {:induction false} RunIsSolid(cs: seq<Chunk>)
    requires cs != []
    ensures var n := RunLength(cs);
            n > 1 ==> cs[0].Normal? && cs[n - 1].Normal? &&
                      cs[n - 1].start + cs[n - 1].len == cs[0].start + TotalExtent(cs[..n]) &&
                      cs[n - 1].at + cs[n - 1].len == cs[0].at + TotalExtent(cs[..n])
    decreases |cs|
  {
    var n := RunLength(cs);
    if n > 1 {
      RunIsSolid(cs[1..]);
      assert cs[..n][1..] == cs[1..][..n - 1];
      if n == 2 {
        assert cs[1..][..1] == [cs[1]];
        assert TotalExtent([cs[1]]) == cs[1].Extent();
      }
    }
  }

  /** The inner loop of MergeAdjacentNormalChunks: where the solid block at from ends. */
  method FindRun(chunks: array<Chunk>, from: nat, num: nat) returns (to: nat)
    requires from < num <= chunks.Length
    ensures from < to <= num && RunLength(chunks[from..num]) == to - from
  {
    to := from + 1;
    while to < num && Mergeable(chunks[to - 1], chunks[to])
      invariant from < to <= num
      invariant RunLength(chunks[from..num]) == to - from - 1 + RunLength(chunks[to - 1..num])
    {
      assert chunks[to - 1..num][1..] == chunks[to..num];
      to := to + 1;
    }
  }

  /** Replaces the solid block [from, to) by one chunk at place out. */
  method PlaceBlock(chunks: array<Chunk>, from: nat, to: nat, out: nat, ghost num: nat)
    requires out <= from < to <= num <= chunks.Length && RunLength(chunks[from..num]) == to - from
    modifies chunks
    ensures chunks[..out + 1] == old(chunks[..out]) + [Block(old(chunks[from..to]))]
    ensures chunks[to..num] == old(chunks[to..num])
  {
    RunIsSolid(chunks[from..num]);
    assert chunks[from..num][..to - from] == chunks[from..to];
    if to == from + 1 {
      if out != from {
        chunks[out] := chunks[from];
      }
    } else {
      chunks[out] := Normal(chunks[from].start, chunks[from].at,
                            chunks[to - 1].len + (chunks[to - 1].start - chunks[from].start));
    }
  }

  lemma MergedStep(all: seq<Chunk>, from: nat, to: nat)
    requires from < to <= |all| && RunLength(all[from..]) == to - from
    ensures Merged(all[from..]) == [Block(all[from..to])] + Merged(all[to..])
  {
    assert all[from..][..to - from] == all[from..to];
    assert all[from..][to - from..] == all[to..];
  }

  /** MergeAdjacentNormalChunks, in place: the first num' chunks become the merged list. */
  method MergeAdjacentNormalChunks(chunks: array<Chunk>, num: nat) returns (num': nat)
    requires num <= chunks.Length
    modifies chunks
    ensures num' <= num && chunks[..num'] == Merged(old(chunks[..num]))
  {
    hide *;
    ghost var all := chunks[..num];
    var from := 0;
    num' := 0;
    assert all[0..] == all && chunks[..0] + Merged(all) == Merged(all);
    while from < num
      invariant num' <= from <= num
      invariant chunks[from..num] == all[from..]
      invariant chunks[..num'] + Merged(all[from..]) == Merged(all)
    {
      ghost var done := chunks[..num'];
      var to := FindRun(chunks, from, num);
      MergedStep(all, from, to);
      assert chunks[from..num][..to - from] == chunks[from..to] && all[from..][..to - from] == all[from..to];
      assert chunks[from..num][to - from..] == chunks[to..num] && all[from..][to - from..] == all[to..];
      PlaceBlock(chunks, from, to, num', num);
      ghost var block := Block(all[from..to]);
      assert done + [block] + Merged(all[to..]) == done + ([block] + Merged(all[to..]));
      num' := num' + 1;
      from := to;
    }
    MergedNothing();
    assert all[num..] == [];
  }

  lemma MergedNothing()
    ensures Merged([]) == []
  {}

  lemma {:induction false} TilesSplit(cs: seq<Chunk>, n: nat, from: int, to: int)
    requires n <= |cs| && Tiles(cs, from, to)
    ensures Tiles(cs[..n], from, from + TotalExtent(cs[..n])) && Tiles(cs[n..], from + TotalExtent(cs[..n]), to)
    decreases n
  {
    if n > 0 {
      TilesSplit(cs[1..], n - 1, from + cs[0].Extent(), to);
      assert cs[..n][1..] == cs[1..][..n - 1];
      assert cs[1..][n - 1..] == cs[n..];
    } else {
      assert cs[0..] == cs;
    }
  }

  /** A block covers exactly what its run covers. */
  lemma BlockExtent(cs: seq<Chunk>)
    requires cs != []
    ensures var n := RunLength(cs);
            Block(cs[..n]).Extent() == TotalExtent(cs[..n]) && Block(cs[..n]).start == cs[0].start &&
            Block(cs[..n]).at == cs[0].at
            && Block(cs[..n]).Normal? == cs[0].Normal?
  {
    RunIsSolid(cs);
    var n := RunLength(cs);
    if n == 1 {
      assert TotalExtent(cs[..1]) == cs[0].Extent();
    }
  }

  /** Merging keeps the tiling of the image. */
  lemma {:induction false} MergedTiles(cs: seq<Chunk>, from: int, to: int)
    requires Tiles(cs, from, to)
    ensures Tiles(Merged(cs), from, to)
    decreases |cs|
  {
    if cs != [] {
      var n := RunLength(cs);
      TilesSplit(cs, n, from, to);
      BlockExtent(cs);
      MergedTiles(cs[n..], from + TotalExtent(cs[..n]), to);
      assert Merged(cs)[1..] == Merged(cs[n..]);
    }
  }

  ghost predicate NoneMergeable(cs: seq<Chunk>)
  {
    forall i :: 0 < i < |cs| ==> !Mergeable(cs[i - 1], cs[i])
  }

  lemma {:induction false} RunStops(cs: seq<Chunk>)
    requires cs != [] && RunLength(cs) < |cs|
    ensures !Mergeable(cs[RunLength(cs) - 1], cs[RunLength(cs)])
    decreases |cs|
  {
    if |cs| > 1 && Mergeable(cs[0], cs[1]) {
      RunStops(cs[1..]);
    }
  }

  /** Merging leaves no two neighbours that could still be merged. */
  lemma {:induction false} MergedIsFinal(cs: seq<Chunk>)
    ensures NoneMergeable(Merged(cs))
    decreases |cs|
  {
    if cs != [] {
      var n := RunLength(cs);
      MergedIsFinal(cs[n..]);
      if n < |cs| {
        RunStops(cs);
        RunIsSolid(cs);
        BlockExtent(cs);
        BlockExtent(cs[n..]);
        assert !Mergeable(Block(cs[..n]), Merged(cs[n..])[0]);
      }
      var m := Merged(cs);
      forall i | 0 < i < |m| ensures !Mergeable(m[i - 1], m[i]) {
        assert m[i] == Merged(cs[n..])[i - 1];
        assert i > 1 ==> m[i - 1] == Merged(cs[n..])[i - 2];
      }
    }
  }

  lemma {:induction false} FinalIsMerged(cs: seq<Chunk>)
    requires NoneMergeable(cs)
    ensures Merged(cs) == cs
    decreases |cs|
  {
    if cs != [] {
      assert RunLength(cs) == 1;
      FinalIsMerged(cs[1..]);
    }
  }

  /** Merging twice is merging once. */
  lemma MergedIdempotent(cs: seq<Chunk>)
    ensures Merged(Merged(cs)) == Merged(cs)
  {
    MergedIsFinal(cs);
    FinalIsMerged(Merged(cs));
  }

  /** Two lists have the same sequence of chunk types. */
  ghost predicate SameTypes(cs: seq<Chunk>, ds: seq<Chunk>)
  {
    |cs| == |ds| && forall i :: 0 <= i < |cs| ==> cs[i].Normal? == ds[i].Normal?
  }

  lemma {:induction false} RunsAlike(cs: seq<Chunk>, ds: seq<Chunk>, from: int, to: int, from': int, to': int)
    requires Tiles(cs, from, to) && Tiles(ds, from', to') && SameTypes(cs, ds) && cs != []
    ensures RunLength(cs) == RunLength(ds)
    decreases |cs|
  {
    if |cs| > 1 {
      assert Tiles(cs[1..], from + cs[0].Extent(), to) && Tiles(ds[1..], from' + ds[0].Extent(), to');
      RunsAlike(cs[1..], ds[1..], from + cs[0].Extent(), to, from' + ds[0].Extent(), to');
    }
  }

  /** Merging two tilings with the same types gives lists with the same types, so the check that
      merging "went awry" in image mode never fires. */
  lemma {:induction false} MergedAlike(cs: seq<Chunk>, ds: seq<Chunk>, from: int, to: int, from': int, to': int)
    requires Tiles(cs, from, to) && Tiles(ds, from', to') && SameTypes(cs, ds)
    ensures SameTypes(Merged(cs), Merged(ds))
    decreases |cs|
  {
    if cs != [] {
      RunsAlike(cs, ds, from, to, from', to');
      var n := RunLength(cs);
      TilesSplit(cs, n, from, to);
      TilesSplit(ds, n, from', to');
      BlockExtent(cs);
      BlockExtent(ds);
      MergedAlike(cs[n..], ds[n..], from + TotalExtent(cs[..n]), to, from' + TotalExtent(ds[..n]), to');
    }
  }
}
