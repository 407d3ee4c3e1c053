/** applypatch/imgpatch.c: the interpreter of imgdiff patches. */
module ImgPatch {
  import opened Bytes
  import opened Codec
  import opened BsPatch
  import opened Chunks

  /** zlib: inflate reads a raw deflate stream from the front of a buffer and gives the number of
      bytes it took and what they expand to; deflate compresses with the given parameters. */
  datatype Zlib = Zlib(inflate: seq<byte> -> Option<(nat, seq<byte>)>, deflate: (Params, seq<byte>) -> seq<byte>)
  {
    /** inflate takes no more than it is given and does not look past what it takes. */
    ghost predicate Lawful()
    {
      (forall x :: inflate(x).Some? ==> inflate(x).value.0 <= |x|) &&
      (forall x: seq<byte>, k {:trigger x[..k]} ::
        0 <= k <= |x| && inflate(x).Some? && k == inflate(x).value.0 ==> inflate(x[..k]) == inflate(x))
    }
  }

  const IMGDIFF_MAGIC: seq<byte> := [0x49, 0x4d, 0x47, 0x44, 0x49, 0x46, 0x46, 0x32]  // "IMGDIFF2"
  const CHUNK_NORMAL := 0
  const CHUNK_DEFLATE := 2
  const CHUNK_RAW := 3

  function Word4At(p: seq<byte>, pos: nat): int
    requires pos + 4 <= |p|
  {
    ReadWord4(p[pos..pos + 4])
  }

  function Word8At(p: seq<byte>, pos: nat): int
    requires pos + 8 <= |p|
  {
    ReadWord8(p[pos..pos + 8])
  }

  /** The bytes that bonus data adds to the source of chunk i. */
  function BonusFor(bonus: Option<seq<byte>>, i: nat): seq<byte>
  {
    if i == 1 && bonus.Some? then bonus.value else []
  }

  /** The extent of source that a chunk record names. */
  function Extract(source: seq<byte>, start: int, len: int): Option<seq<byte>>
  {
    if 0 <= start && 0 <= len && start + len <= |source| then Some(source[start..start + len]) else None
  }

  /** What the rest of a normal record at pos yields; a patch that does not apply yields nothing
      and is not reported. */
  function NormalChunk(bz: Bzip, source: seq<byte>, patch: seq<byte>, pos: nat): Result<(nat, seq<byte>)>
  {
    if pos + 24 > |patch| then Err
    else
      var off := Word8At(patch, pos + 16);
      match Extract(source, Word8At(patch, pos), Word8At(patch, pos + 8))
      case None => Err
      case Some(s) =>
        if off < 0 then Err
        else match Patched(bz, s, patch, off)
             case Ok(b) => Ok((pos + 24, b))
             case Err => Ok((pos + 24, []))
  }

  function RawChunk(patch: seq<byte>, pos: nat): Result<(nat, seq<byte>)>
  {
    if pos + 4 > |patch| then Err
    else
      var n := Word4At(patch, pos);
      if n < 0 || pos + 4 + n > |patch| then Err
      else Ok((pos + 4 + n, patch[pos + 4..pos + 4 + n]))
  }

  function DeflateChunk(z: Zlib, bz: Bzip, source: seq<byte>, patch: seq<byte>, pos: nat,
                        bonus: seq<byte>): Result<(nat, seq<byte>)>
  {
    if pos + 60 > |patch| then Err
    else
      var off, expandedLen := Word8At(patch, pos + 16), Word8At(patch, pos + 24);
      var params := Params(Word4At(patch, pos + 40), Word4At(patch, pos + 44), Word4At(patch, pos + 48),
                           Word4At(patch, pos + 52), Word4At(patch, pos + 56));
      match Extract(source, Word8At(patch, pos), Word8At(patch, pos + 8))
      case None => Err
      case Some(s) =>
        match z.inflate(s)
        case None => Err
        case Some((_, d)) =>
          if |d| + |bonus| != expandedLen || off < 0 then Err
          else match Patched(bz, d + bonus, patch, off)
               case Err => Err
               case Ok(u) => Ok((pos + 60, z.deflate(params, u)))
  }

  /** Where the record of chunk i at pos ends, and the bytes it yields. */
  function OneChunk(z: Zlib, bz: Bzip, source: seq<byte>, patch: seq<byte>, bonus: Option<seq<byte>>, i: nat,
                    pos: nat): Result<(nat, seq<byte>)>
  {
    if pos + 4 > |patch| then Err
    else
      var kind := Word4At(patch, pos);
      if kind == CHUNK_NORMAL then NormalChunk(bz, source, patch, pos + 4)
      else if kind == CHUNK_RAW then RawChunk(patch, pos + 4)
      else if kind == CHUNK_DEFLATE then DeflateChunk(z, bz, source, patch, pos + 4, BonusFor(bonus, i))
      else Err
  }

  /** Bonus data matters for chunk 1 only, and there only if it is deflated. */
  lemma BonusForSecond(z: Zlib, bz: Bzip, source: seq<byte>, patch: seq<byte>, bonus: Option<seq<byte>>, i: nat,
                       pos: nat)
    ensures i != 1 || pos + 4 > |patch| || Word4At(patch, pos) != CHUNK_DEFLATE ==>
              OneChunk(z, bz, source, patch, bonus, i, pos) == OneChunk(z, bz, source, patch, None, i, pos)
    ensures bonus.Some? && i == 1 && pos + 4 <= |patch| && Word4At(patch, pos) == CHUNK_DEFLATE ==>
              OneChunk(z, bz, source, patch, bonus, i, pos) ==
                DeflateChunk(z, bz, source, patch, pos + 4, bonus.value)
  {
    hide Word4At, NormalChunk, RawChunk, DeflateChunk;
  }

  /** What the chunks i..num, with records from pos on, append to out, and where their records end. */
  function ChunksFrom(z: Zlib, bz: Bzip, source: seq<byte>, patch: seq<byte>, bonus: Option<seq<byte>>,
                      i: nat, num: int, pos: nat, out: seq<byte>): Result<(nat, seq<byte>)>
    decreases num - i
  {
    if i >= num then Ok((pos, out))
    else match OneChunk(z, bz, source, patch, bonus, i, pos)
         case Err => Err
         case Ok((next, b)) => ChunksFrom(z, bz, source, patch, bonus, i + 1, num, next, out + b)
  }

  /** What an imgdiff patch turns source into. */
  function Interpreted(z: Zlib, bz: Bzip, source: seq<byte>, patch: seq<byte>,
                       bonus: Option<seq<byte>>): Result<seq<byte>>
  {
    if |patch| < 12 || patch[..8] != IMGDIFF_MAGIC then Err
    else match ChunksFrom(z, bz, source, patch, bonus, 0, Word4At(patch, 8), 12, [])
         case Err => Err
         case Ok((_, out)) => Ok(out)
  }

  // ----- the status of normal chunks, which ApplyImagePatch does not look at -----

  /** The reading that reports a normal chunk whose patch does not apply. */
  function StrictChunk(z: Zlib, bz: Bzip, source: seq<byte>, patch: seq<byte>, bonus: Option<seq<byte>>, i: nat,
                       pos: nat):
      Result<(nat, seq<byte>)>
  {
    if pos + 28 <= |patch| && Word4At(patch, pos) == CHUNK_NORMAL then
      match Extract(source, Word8At(patch, pos + 4), Word8At(patch, pos + 12))
      case None => Err
      case Some(s) =>
        if Word8At(patch, pos + 20) < 0 then Err
        else match Patched(bz, s, patch, Word8At(patch, pos + 20))
             case Err => Err
             case Ok(b) => Ok((pos + 28, b))
    else OneChunk(z, bz, source, patch, bonus, i, pos)
  }

  function StrictChunksFrom(z: Zlib, bz: Bzip, source: seq<byte>, patch: seq<byte>, bonus: Option<seq<byte>>,
                            i: nat, num: int, pos: nat, out: seq<byte>): Result<(nat, seq<byte>)>
    decreases num - i
  {
    if i >= num then Ok((pos, out))
    else match StrictChunk(z, bz, source, patch, bonus, i, pos)
         case Err => Err
         case Ok((next, b)) => StrictChunksFrom(z, bz, source, patch, bonus, i + 1, num, next, out + b)
  }

  /** What an imgdiff patch would turn source into if every failure were reported. */
  function StrictlyInterpreted(z: Zlib, bz: Bzip, source: seq<byte>, patch: seq<byte>, bonus: Option<seq<byte>>):
      Result<seq<byte>>
  {
    if |patch| < 12 || patch[..8] != IMGDIFF_MAGIC then Err
    else match StrictChunksFrom(z, bz, source, patch, bonus, 0, Word4At(patch, 8), 12, [])
         case Err => Err
         case Ok((_, out)) => Ok(out)
  }

  /** The record at pos is that of a normal chunk whose patch does not apply. */
  predicate Fails(bz: Bzip, source: seq<byte>, patch: seq<byte>, pos: nat)
  {
    pos + 28 <= |patch| && Word4At(patch, pos) == CHUNK_NORMAL &&
    var s := Extract(source, Word8At(patch, pos + 4), Word8At(patch, pos + 12));
    s.Some? && Word8At(patch, pos + 20) >= 0 && Patched(bz, s.value, patch, Word8At(patch, pos + 20)) == Err
  }

  /** The reading of the chunks i..num from pos on reaches a normal chunk whose patch does not apply. */
  predicate ReachesFailure(z: Zlib, bz: Bzip, source: seq<byte>, patch: seq<byte>, bonus: Option<seq<byte>>,
                           i: nat, num: int, pos: nat)
    decreases num - i
  {
    i < num &&
    (Fails(bz, source, patch, pos) ||
     match OneChunk(z, bz, source, patch, bonus, i, pos)
     case Err => false
     case Ok((next, _)) => ReachesFailure(z, bz, source, patch, bonus, i + 1, num, next))
  }

  lemma StrictChunkIs(z: Zlib, bz: Bzip, source: seq<byte>, patch: seq<byte>, bonus: Option<seq<byte>>, i: nat,
                      pos: nat)
    ensures var r := OneChunk(z, bz, source, patch, bonus, i, pos);
            if Fails(bz, source, patch, pos)
            then r == Ok((pos + 28, [])) && StrictChunk(z, bz, source, patch, bonus, i, pos) == Err
            else StrictChunk(z, bz, source, patch, bonus, i, pos) == r
  {
    hide Word4At, Word8At, Patched, Extract, RawChunk, DeflateChunk;
  }

  lemma {:induction false} StrictChunksAre(z: Zlib, bz: Bzip, source: seq<byte>, patch: seq<byte>,
        bonus: Option<seq<byte>>, i: nat, num: int, pos: nat, out: seq<byte>)
    ensures StrictChunksFrom(z, bz, source, patch, bonus, i, num, pos, out) ==
              if ReachesFailure(z, bz, source, patch, bonus, i, num, pos) then Err
              else ChunksFrom(z, bz, source, patch, bonus, i, num, pos, out)
    decreases num - i
  {
    hide OneChunk, StrictChunk, Fails;
    if i < num {
      StrictChunkIs(z, bz, source, patch, bonus, i, pos);
      var r := OneChunk(z, bz, source, patch, bonus, i, pos);
      if r.Ok? {
        StrictChunksAre(z, bz, source, patch, bonus, i + 1, num, r.value.0, out + r.value.1);
      }
    }
  }

  /** The two readings of a patch file agree exactly when the file is refused anyway or no normal chunk
      that is reached has a patch that does not apply. */
  lemma SilentExactly(z: Zlib, bz: Bzip, source: seq<byte>, patch: seq<byte>, bonus: Option<seq<byte>>)
    ensures var lenient := Interpreted(z, bz, source, patch, bonus);
            var silent := |patch| >= 12 && ReachesFailure(z, bz, source, patch, bonus, 0, Word4At(patch, 8), 12);
            var strict := StrictlyInterpreted(z, bz, source, patch, bonus);
            strict == (if silent then Err else lenient) && (strict == lenient <==> lenient == Err || !silent)
  {
    hide Word4At, ReachesFailure, ChunksFrom, StrictChunksFrom;
    if |patch| >= 12 {
      StrictChunksAre(z, bz, source, patch, bonus, 0, Word4At(patch, 8), 12, []);
    }
  }

  /** The bytes that the successive chunks yield. */
  function Pieces(z: Zlib, bz: Bzip, source: seq<byte>, patch: seq<byte>, bonus: Option<seq<byte>>,
                  i: nat, num: int, pos: nat): seq<seq<byte>>
    decreases num - i
  {
    if i >= num then []
    else match OneChunk(z, bz, source, patch, bonus, i, pos)
         case Err => []
         case Ok((next, b)) => [b] + Pieces(z, bz, source, patch, bonus, i + 1, num, next)
  }

  function Concat(ts: seq<seq<byte>>): seq<byte>
  {
    if ts == [] then [] else ts[0] + Concat(ts[1..])
  }

  /** A reading that succeeds appends the pieces one after the other, one for every chunk. */
  lemma {:induction false} OutputIsPieces(z: Zlib, bz: Bzip, source: seq<byte>, patch: seq<byte>,
        bonus: Option<seq<byte>>, i: nat, num: int, pos: nat, out: seq<byte>)
    requires ChunksFrom(z, bz, source, patch, bonus, i, num, pos, out).Ok?
    ensures var ts := Pieces(z, bz, source, patch, bonus, i, num, pos);
            ChunksFrom(z, bz, source, patch, bonus, i, num, pos, out).value.1 == out + Concat(ts) &&
            |ts| == if i < num then num - i else 0
    decreases num - i
  {
    hide OneChunk;
    if i < num {
      var r := OneChunk(z, bz, source, patch, bonus, i, pos);
      OutputIsPieces(z, bz, source, patch, bonus, i + 1, num, r.value.0, out + r.value.1);
      var ts := Pieces(z, bz, source, patch, bonus, i + 1, num, r.value.0);
      assert ([r.value.1] + ts)[1..] == ts;
      assert out + r.value.1 + Concat(ts) == out + (r.value.1 + Concat(ts));
    } else {
      assert out + [] == out;
    }
  }

  /** ApplyImagePatch, with a sink that takes everything. */
  method ApplyImagePatch(z: Zlib, bz: Bzip, source: seq<byte>, patch: seq<byte>, bonus: Option<seq<byte>>)
      returns (r: Result<seq<byte>>)
    ensures r == Interpreted(z, bz, source, patch, bonus)
  {
    hide OneChunk, Word4At;
    var pos: nat := 12;
    if |patch| < 12 || patch[..8] != IMGDIFF_MAGIC {
      return Err;
    }
    var num := Word4At(patch, 8);
    var out, i: nat := [], 0;
    while i < num
      invariant ChunksFrom(z, bz, source, patch, bonus, 0, num, 12, []) ==
                ChunksFrom(z, bz, source, patch, bonus, i, num, pos, out)
      decreases num - i
    {
      var c := ApplyChunk(z, bz, source, patch, bonus, i, pos);
      if c == Err {
        return Err;
      }
      pos, out := c.value.0, out + c.value.1;
      i := i + 1;
    }
    r := Ok(out);
  }

  /** The body of the chunk loop of ApplyImagePatch. */
  method ApplyChunk(z: Zlib, bz: Bzip, source: seq<byte>, patch: seq<byte>, bonus: Option<seq<byte>>, i: nat, pos: nat)
    returns (r: Result<(nat, seq<byte>)>)
    ensures r == OneChunk(z, bz, source, patch, bonus, i, pos)
  {
    hide Word4At, Word8At, Patched, Extract, BonusFor;
    if pos + 4 > |patch| {
      return Err;
    }
    var kind, p := Word4At(patch, pos), pos + 4;
    if kind == CHUNK_NORMAL {
      if p + 24 > |patch| { return Err; }
      var s, off := Extract(source, Word8At(patch, p), Word8At(patch, p + 8)), Word8At(patch, p + 16);
      if s == None || off < 0 { return Err; }
      var b := ApplyBSDiffPatchMem(bz, s.value, patch, off);
      r := Ok((p + 24, if b.Ok? then b.value else []));
    } else if kind == CHUNK_RAW {
      r := RawChunk(patch, p);
    } else if kind == CHUNK_DEFLATE {
      if p + 60 > |patch| { return Err; }
      var s := Extract(source, Word8At(patch, p), Word8At(patch, p + 8));
      var off, expandedLen := Word8At(patch, p + 16), Word8At(patch, p + 24);
      if s == None { return Err; }
      var expanded := z.inflate(s.value);
      if expanded == None || |expanded.value.1| + |BonusFor(bonus, i)| != expandedLen || off < 0 { return Err; }
      var u := ApplyBSDiffPatchMem(bz, expanded.value.1 + BonusFor(bonus, i), patch, off);
      if u == Err { return Err; }
      var params := Params(Word4At(patch, p + 40), Word4At(patch, p + 44), Word4At(patch, p + 48),
                           Word4At(patch, p + 52), Word4At(patch, p + 56));
      r := Ok((p + 60, z.deflate(params, u.value)));
    } else {
      r := Err;
    }
  }
}
