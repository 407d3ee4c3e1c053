/** applypatch/bspatch.c: replaying a bsdiff patch. */
module BsPatch {
  import opened Bytes
  import opened Codec

  /** The compressor of the patch streams. bzip2 itself is not modelled: expand gives the bytes
      that decompressing a buffer yields. */
  datatype Bzip = Bzip(compress: seq<byte> -> seq<byte>, expand: seq<byte> -> seq<byte>)
  {
    /** Decompressing a buffer that starts with a compressed string yields at least that string,
        and strings of moderate length compress to a size that fits an offset. */
    ghost predicate Faithful()
    {
      (forall x, t :: x <= expand(compress(x) + t)) &&
      (forall x :: |x| < 0x100_0000_0000 ==> |compress(x)| < TWO_TO_63)
    }
  }

  /** The three decompressed streams of a patch, as far as they are still unread. */
  datatype Streams = Streams(ctrl: seq<byte>, diff: seq<byte>, extra: seq<byte>)
  {
    function Then(r: Streams): Streams
    {
      Streams(ctrl + r.ctrl, diff + r.diff, extra + r.extra)
    }
  }

  /** Addition and subtraction of unsigned chars. */
  function Plus(a: int, b: int): byte { (a + b) % 256 }
  function Minus(a: int, b: int): byte { (a - b) % 256 }

  /** The byte at pos of old, or 0 outside it. */
  function OldByte(source: seq<byte>, pos: int): byte
  {
    if 0 <= pos < |source| then source[pos] else 0
  }

  /** A diff string with the old data from pos on added to it; positions outside old add nothing. */
  function AddOld(source: seq<byte>, pos: int, d: seq<byte>): (r: seq<byte>)
    ensures |r| == |d|
    ensures forall i :: 0 <= i < |d| ==> r[i] == Plus(d[i], OldByte(source, pos + i))
  {
    seq(|d|, i requires 0 <= i < |d| => Plus(d[i], OldByte(source, pos + i)))
  }

  /** What replaying the control triples in s yields, from old position pos and with the output
      out already written. */
  function Replay(source: seq<byte>, size: nat, s: Streams, pos: int, out: seq<byte>): Result<seq<byte>>
    decreases |s.ctrl|
  {
    if |out| >= size then Ok(out)
    else if |s.ctrl| < 24 then Err
    else
      var x, y, z := BytesToOff(s.ctrl[..8]), BytesToOff(s.ctrl[8..16]), BytesToOff(s.ctrl[16..24]);
      if x < 0 || y < 0 || |out| + x > size || |s.diff| < x || |out| + x + y > size || |s.extra| < y then Err
      else Replay(source, size, Streams(s.ctrl[24..], s.diff[x..], s.extra[y..]), pos + x + z,
                  out + AddOld(source, pos, s.diff[..x]) + s.extra[..y])
  }

  const BSDIFF_MAGIC: seq<byte> := [0x42, 0x53, 0x44, 0x49, 0x46, 0x46, 0x34, 0x30]  // "BSDIFF40"

  /** What the patch that starts at off in container turns old into. */
  function Patched(bz: Bzip, source: seq<byte>, container: seq<byte>, off: nat): Result<seq<byte>>
  {
    if |container| < off + 32 || container[off..off + 8] != BSDIFF_MAGIC then Err
    else
      var ctrlLen := BytesToOff(container[off + 8..off + 16]);
      var dataLen := BytesToOff(container[off + 16..off + 24]);
      var size := BytesToOff(container[off + 24..off + 32]);
      var body := off + 32;
      if ctrlLen < 0 || dataLen < 0 || size < 0 || body + ctrlLen + dataLen > |container| then Err
      else
        Replay(source, size, Streams(bz.expand(container[body..body + ctrlLen]),
                                   bz.expand(container[body + ctrlLen..body + ctrlLen + dataLen]),
                                   bz.expand(container[body + ctrlLen + dataLen..])), 0, [])
  }

  /** Wherever it is embedded, the patch turns s into t. */
  ghost predicate PatchesTo(bz: Bzip, s: seq<byte>, patch: seq<byte>, t: seq<byte>)
  {
    forall pre: seq<byte>, post: seq<byte> :: Patched(bz, s, pre + patch + post, |pre|) == Ok(t)
  }

  /** One FillBuffer call on an ideal stream: copies the next n bytes of stream to out[at..]. */
  method FillBuffer(out: array<byte>, at: nat, n: nat, stream: seq<byte>, pos: nat) returns (ok: bool)
    requires at + n <= out.Length && pos <= |stream|
    modifies out
    ensures ok <==> pos + n <= |stream|
    ensures ok ==> out[at..at + n] == stream[pos..pos + n]
    ensures out[..at] == old(out[..at])
  {
    ok := pos + n <= |stream|;
    if ok {
      for i := 0 to n
        invariant forall k :: at <= k < at + i ==> out[k] == stream[k - at + pos]
        invariant forall k :: 0 <= k < at ==> out[k] == old(out[k])
      {
        out[at + i] := stream[pos + i];
      }
    }
  }

  /** The loop of bspatch that adds old data to the diff string just read. */
  method AddOldInPlace(out: array<byte>, at: nat, n: nat, source: seq<byte>, pos: int)
    requires at + n <= out.Length
    modifies out
    ensures out[at..at + n] == AddOld(source, pos, old(out[at..at + n]))
    ensures out[..at] == old(out[..at])
  {
    for i := 0 to n
      invariant forall k :: at <= k < at + i ==> out[k] == Plus(old(out[k]), OldByte(source, pos + (k - at)))
      invariant forall k :: 0 <= k < at || at + i <= k < out.Length ==> out[k] == old(out[k])
    {
      if 0 <= pos + i < |source| {
        out[at + i] := Plus(out[at + i], source[pos + i]);
      }
    }
    assert out[at..at + n] == AddOld(source, pos, old(out[at..at + n]));
  }

  /** The streams from the given read positions on. */
  function Rest(s: Streams, c: nat, d: nat, e: nat): Streams
    requires c <= |s.ctrl| && d <= |s.diff| && e <= |s.extra|
  {
    Streams(s.ctrl[c..], s.diff[d..], s.extra[e..])
  }

  /** Reads the control triple at c. */
  method ReadTriple(ctrl: seq<byte>, c: nat) returns (x: int, y: int, z: int)
    requires c + 24 <= |ctrl|
    ensures var r := ctrl[c..]; x == BytesToOff(r[..8]) && y == BytesToOff(r[8..16]) && z == BytesToOff(r[16..24])
  {
    var buf := ctrl[c..c + 24];
    ghost var r := ctrl[c..];
    assert forall i :: 0 <= i < 24 ==> buf[i] == r[i];
    assert buf[..8] == r[..8] && buf[8..16] == r[8..16] && buf[16..24] == r[16..24];
    x, y, z := BytesToOff(buf[..8]), BytesToOff(buf[8..16]), BytesToOff(buf[16..24]);
  }

  /** Copies x diff bytes with old data added, then y extra bytes. */
  method CopyOut(source: seq<byte>, s: Streams, out: array<byte>, oldpos: int, newpos: nat, d: nat, e: nat, x: nat,
                 y: int)
    returns (ok: bool)
    requires d <= |s.diff| && e <= |s.extra| && newpos + x <= out.Length && 0 <= y
    modifies out
    ensures ok <==> d + x <= |s.diff| && newpos + x + y <= out.Length && e + y <= |s.extra|
    ensures ok ==>
              out[..newpos + x + y] == old(out[..newpos]) + AddOld(source, oldpos, s.diff[d..][..x]) + s.extra[e..][..y]
  {
    ok := FillBuffer(out, newpos, x, s.diff, d);
    if !ok { return; }
    assert s.diff[d..][..x] == s.diff[d..d + x];
    AddOldInPlace(out, newpos, x, source, oldpos);
    ghost var first := out[..newpos + x];
    assert first == out[..newpos] + out[newpos..newpos + x];
    if newpos + x + y > out.Length {
      return false;
    }
    ok := FillBuffer(out, newpos + x, y, s.extra, e);
    if ok {
      assert s.extra[e..][..y] == s.extra[e..e + y];
      assert out[..newpos + x + y] == first + out[newpos + x..newpos + x + y];
    }
  }

  /** One iteration of the replay loop, as the function sees it. */
  lemma ReplayStep(source: seq<byte>, size: nat, s: Streams, pos: int, out: seq<byte>, x: int, y: int, z: int)
    requires |out| < size && |s.ctrl| >= 24
    requires x == BytesToOff(s.ctrl[..8]) && y == BytesToOff(s.ctrl[8..16]) && z == BytesToOff(s.ctrl[16..24])
    ensures Replay(source, size, s, pos, out) ==
            if 0 <= x <= |s.diff| && 0 <= y <= |s.extra| && |out| + x + y <= size
            then Replay(source, size, Rest(s, 24, x, y), pos + x + z,
                        out + AddOld(source, pos, s.diff[..x]) + s.extra[..y])
            else Err
  {}

  lemma ReplayEnds(source: seq<byte>, size: nat, s: Streams, pos: int, out: seq<byte>)
    ensures |out| >= size ==> Replay(source, size, s, pos, out) == Ok(out)
    ensures |out| < size && |s.ctrl| < 24 ==> Replay(source, size, s, pos, out) == Err
  {}

  lemma RestOfRest(s: Streams, c: nat, d: nat, e: nat, c': nat, d': nat, e': nat)
    requires c + c' <= |s.ctrl| && d + d' <= |s.diff| && e + e' <= |s.extra|
    ensures Rest(Rest(s, c, d, e), c', d', e') == Rest(s, c + c', d + d', e + e')
  {}

  /** The replay loop of ApplyBSDiffPatchMem: fills out as Replay says, or fails as it says. */
  method ReplayInto(source: seq<byte>, s: Streams, out: array<byte>) returns (ok: bool)
    modifies out
    ensures Replay(source, out.Length, s, 0, []) == if ok then Ok(out[..]) else Err
  {
    hide *;
    var oldpos, newpos: nat, c: nat, d: nat, e: nat := 0, 0, 0, 0, 0;
    var size := out.Length;
    RestOfAll(s);
    ok := true;
    while newpos < size
      invariant 0 <= newpos <= size && c <= |s.ctrl| && d <= |s.diff| && e <= |s.extra|
      invariant Replay(source, size, s, 0, []) == Replay(source, size, Rest(s, c, d, e), oldpos, out[..newpos])
      decreases |s.ctrl| - c
    {
      ghost var rest, done := Rest(s, c, d, e), out[..newpos];
      RestStreams(s, c, d, e);
      if c + 24 > |s.ctrl| {
        ReplayEnds(source, size, rest, oldpos, done);
        return false;
      }
      var x, y, z := ReadTriple(s.ctrl, c);
      ReplayStep(source, size, rest, oldpos, done, x, y, z);
      if x < 0 || y < 0 || newpos + x > size {
        return false;
      }
      ok := CopyOut(source, s, out, oldpos, newpos, d, e, x, y);
      if !ok { return; }
      RestOfRest(s, c, d, e, 24, x, y);
      newpos := newpos + x + y;
      oldpos := oldpos + x + z;
      c, d, e := c + 24, d + x, e + y;
    }
    ReplayEnds(source, size, Rest(s, c, d, e), oldpos, out[..newpos]);
    assert out[..newpos] == out[..];
  }

  lemma RestStreams(s: Streams, c: nat, d: nat, e: nat)
    requires c <= |s.ctrl| && d <= |s.diff| && e <= |s.extra|
    ensures Rest(s, c, d, e).ctrl == s.ctrl[c..] && Rest(s, c, d, e).diff == s.diff[d..]
    ensures Rest(s, c, d, e).extra == s.extra[e..]
  {}

  lemma RestOfAll(s: Streams)
    ensures Rest(s, 0, 0, 0) == s
  {}

  /** ApplyBSDiffPatchMem: the patch at off in container, applied to source. */
  method ApplyBSDiffPatchMem(bz: Bzip, source: seq<byte>, container: seq<byte>, off: nat) returns (r: Result<seq<byte>>)
    ensures r == Patched(bz, source, container, off)
  {
    if |container| < off + 32 || container[off..off + 8] != BSDIFF_MAGIC {
      return Err;
    }
    var ctrlLen := BytesToOff(container[off + 8..off + 16]);
    var dataLen := BytesToOff(container[off + 16..off + 24]);
    var size := BytesToOff(container[off + 24..off + 32]);
    var body := off + 32;
    if ctrlLen < 0 || dataLen < 0 || size < 0 || body + ctrlLen + dataLen > |container| {
      return Err;
    }
    var s := Streams(bz.expand(container[body..body + ctrlLen]),
                     bz.expand(container[body + ctrlLen..body + ctrlLen + dataLen]),
                     bz.expand(container[body + ctrlLen + dataLen..]));
    var out := new byte[size];
    var ok := ReplayInto(source, s, out);
    r := if ok then Ok(out[..]) else Err;
  }
}
