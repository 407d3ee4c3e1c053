/** applypatch/imgdiff.c in zip mode: the deflated entries of two zip files are paired by name, and
    everything else in the target is patched from the source file as a whole. */
module ZipDiff {
  import opened Bytes
  import opened Codec
  import opened BsPatch
  import opened Chunks
  import opened ImgPatch
  import opened ImgFormat
  import opened ImgDiff

  // ----- reading a zip file -----

  datatype Entry = Entry(offset: int, deflateLen: int, size: int, name: seq<byte>)

  /** What reading a zip file comes to. Astray stands for input on which the C code leaves the file or works
      on memory that was never written; Refused for what it reports. */
  datatype ZipReading = Cut(cs: seq<Chunk>) | Refused | Astray

  datatype Directory = Entries(es: seq<Entry>) | BadDirectory | OutOfFile

  function Word2At(p: seq<byte>, pos: nat): nat
    requires pos + 2 <= |p|
  {
    p[pos] as int + 256 * (p[pos + 1] as int)
  }

  /** The two letters PK and two more bytes are at pos. */
  predicate TagAt(img: seq<byte>, pos: int, a: byte, b: byte)
  {
    0 <= pos && pos + 4 <= |img| && img[pos..pos + 4] == [0x50, 0x4b, a, b]
  }

  /** A file name as a C string. */
  function CString(s: seq<byte>): seq<byte>
  {
    if s == [] || s[0] == 0 then [] else [s[0]] + CString(s[1..])
  }

  /** Where the search for the end of the central directory, from i down, stops: at the record, or where it
      gives up. */
  function EndFrom(img: seq<byte>, i: int): int
    decreases i
  {
    if i >= 0 && i > |img| - 65600 && !TagAt(img, i, 5, 6) then EndFrom(img, i - 1) else i
  }

  /** The search for the end-of-central-directory record finds the last one. */
  method FindEnd(img: seq<byte>) returns (i: int)
    ensures i == EndFrom(img, |img| - 20) <= |img| - 20
    ensures forall k :: i < k <= |img| - 20 ==> !TagAt(img, k, 5, 6)
    ensures i >= 0 && i > |img| - 65600 ==> TagAt(img, i, 5, 6)
  {
    i := |img| - 20;
    while i >= 0 && i > |img| - 65600 && !TagAt(img, i, 5, 6)
      invariant i <= |img| - 20 && EndFrom(img, i) == EndFrom(img, |img| - 20)
      invariant forall k :: i < k <= |img| - 20 ==> !TagAt(img, k, 5, 6)
    {
      i := i - 1;
    }
  }

  /** The entry of the central directory at cd: where the next one is, and the entry if it is deflated. */
  function EntryAt(img: seq<byte>, cd: int): (Directory, int)
  {
    if !(0 <= cd && cd + 4 <= |img|) then (OutOfFile, cd)
    else if !TagAt(img, cd, 1, 2) then (BadDirectory, cd)
    else if cd + 46 > |img| || cd + 46 + Word2At(img, cd + 28) > |img| then (OutOfFile, cd)
    else
      var nameLen := Word2At(img, cd + 28);
      var name := img[cd + 46..cd + 46 + nameLen];
      var next := cd + 46 + nameLen + Word2At(img, cd + 30) + Word2At(img, cd + 32);
      var header := Word4At(img, cd + 42);
      if Word2At(img, cd + 10) != 8 then (Entries([]), next)
      else if !(0 <= header && header + 4 <= |img|) then (OutOfFile, cd)
      else if !TagAt(img, header, 3, 4) then (BadDirectory, cd)
      else if header + 30 + nameLen > |img| then (OutOfFile, cd)
      else if Word2At(img, header + 26) != nameLen || img[header + 30..header + 30 + nameLen] != name then
        (BadDirectory, cd)
      else
        (Entries([Entry(header + 30 + nameLen + Word2At(img, header + 28), Word4At(img, cd + 20), Word4At(img, cd + 24),
                        CString(name))]), next)
  }

  /** The deflated entries among the count entries of the central directory from cd on. */
  function EntriesFrom(img: seq<byte>, cd: int, count: nat): Directory
    decreases count
  {
    if count == 0 then Entries([])
    else
      var (e, next) := EntryAt(img, cd);
      if !e.Entries? then e
      else
        var rest := EntriesFrom(img, next, count - 1);
        if rest.Entries? then Entries(e.es + rest.es) else rest
  }

  method ReadEntries(img: seq<byte>, start: int, count: nat) returns (r: Directory)
    ensures r == EntriesFrom(img, start, count)
  {
    var cd, es, i := start, [], 0;
    while i < count
      invariant i <= count
      invariant EntriesFrom(img, start, count) ==
                var rest := EntriesFrom(img, cd, count - i);
                if rest.Entries? then Entries(es + rest.es) else rest
    {
      var (e, next) := EntryAt(img, cd);
      if !e.Entries? {
        return e;
      }
      ghost var rest := EntriesFrom(img, next, count - i - 1);
      assert rest.Entries? ==> es + (e.es + rest.es) == es + e.es + rest.es;
      cd, es, i := next, es + e.es, i + 1;
    }
    r := Entries(es);
    assert es + [] == es;
  }

  // ----- sorting the entries -----

  predicate Ascending(es: seq<Entry>)
  {
    forall i, k :: 0 <= i < k < |es| ==> es[i].offset <= es[k].offset
  }

  function InsertEntry(e: Entry, es: seq<Entry>): seq<Entry>
  {
    if es == [] || e.offset <= es[0].offset then [e] + es else [es[0]] + InsertEntry(e, es[1..])
  }

  lemma {:induction false} InsertPermutes(e: Entry, es: seq<Entry>)
    ensures multiset(InsertEntry(e, es)) == multiset(es) + multiset{e}
  {
    if es != [] && e.offset > es[0].offset {
      InsertPermutes(e, es[1..]);
      assert es == [es[0]] + es[1..];
    }
  }

  lemma {:induction false} InsertBounds(e: Entry, es: seq<Entry>, low: int)
    requires low <= e.offset && forall k :: 0 <= k < |es| ==> low <= es[k].offset
    ensures forall k :: 0 <= k < |InsertEntry(e, es)| ==> low <= InsertEntry(e, es)[k].offset
  {
    if es != [] && e.offset > es[0].offset {
      InsertBounds(e, es[1..], low);
    }
  }

  lemma {:induction false} InsertAscends(e: Entry, es: seq<Entry>)
    requires Ascending(es)
    ensures Ascending(InsertEntry(e, es))
  {
    if es != [] && e.offset > es[0].offset {
      InsertAscends(e, es[1..]);
      InsertBounds(e, es[1..], es[0].offset);
    }
  }

  /** qsort by data offset. */
  method SortEntries(es: seq<Entry>) returns (r: seq<Entry>)
    ensures Ascending(r) && multiset(r) == multiset(es)
  {
    r := [];
    for i := 0 to |es|
      invariant Ascending(r) && multiset(r) == multiset(es[..i])
    {
      InsertAscends(es[i], r);
      InsertPermutes(es[i], r);
      assert es[..i + 1] == es[..i] + [es[i]];
      r := InsertEntry(es[i], r);
    }
    assert es[..|es|] == es;
  }

  // ----- cutting the file -----

  function Ahead(cs: seq<Chunk>, r: ZipReading): ZipReading
  {
    if r.Cut? then Cut(cs + r.cs) else r
  }

  /** The deflate chunk of an entry at pos, whose sizes are ints. */
  function EntryChunk(z: Zlib, img: seq<byte>, pos: nat, e: Entry): ZipReading
  {
    if e.deflateLen < 0 || pos + e.deflateLen > |img| || !(0 <= e.size < TWO_TO_31) then Astray
    else match z.inflate(img[pos..pos + e.deflateLen])
         case None => Refused
         case Some((_, d)) =>
           if |d| > e.size then Refused
           else if |d| < e.size then Astray
           else Cut([Deflate(pos, pos, e.deflateLen, d, UNSET, Some(e.name))])
  }

  /** What the loop over the file makes of the rest of it, with the entries es still to come. */
  function CutFrom(z: Zlib, img: seq<byte>, es: seq<Entry>, pos: nat): ZipReading
    requires pos <= |img|
    decreases |es| + |img| - pos
  {
    if pos == |img| then Cut([])
    else if es != [] && pos == es[0].offset then
      var c := EntryChunk(z, img, pos, es[0]);
      if !c.Cut? then c else Ahead(c.cs, CutFrom(z, img, es[1..], pos + es[0].deflateLen))
    else
      var next := if es == [] then |img| else es[0].offset;
      if !(pos < next <= |img|) then Astray
      else Ahead([Normal(pos, pos, next - pos)], CutFrom(z, img, es, next))
  }

  /** The chunks tile the part of the file from pos on, and deflate chunks hold what their bytes inflate to and
      have names. */
  ghost predicate Opened(z: Zlib, img: seq<byte>, cs: seq<Chunk>, from: int, to: int)
  {
    Tiles(cs, from, to) && forall c :: c in cs ==> Expands(z, img, c) && (c.Deflate? ==> c.name.Some?)
  }

  lemma OpenedAhead(z: Zlib, img: seq<byte>, c: Chunk, cs: seq<Chunk>, from: int, to: int)
    requires c.start == c.at == from && Expands(z, img, c) && (c.Deflate? ==> c.name.Some?)
    requires Opened(z, img, cs, from + c.Extent(), to)
    ensures Opened(z, img, [c] + cs, from, to)
  {
    assert ([c] + cs)[1..] == cs;
  }

  lemma EntryOpens(z: Zlib, img: seq<byte>, pos: nat, e: Entry)
    requires EntryChunk(z, img, pos, e).Cut?
    ensures e.deflateLen >= 0 && pos + e.deflateLen <= |img|
    ensures var cs := EntryChunk(z, img, pos, e).cs;
            |cs| == 1 && cs[0].Deflate? && cs[0].start == cs[0].at == pos && cs[0].deflateLen == e.deflateLen &&
            cs[0].name == Some(e.name) && Expands(z, img, cs[0])
  {}

  /** However the entries lie, what is cut tiles the file. */
  lemma {:induction false} CutOpens(z: Zlib, img: seq<byte>, es: seq<Entry>, pos: nat)
    requires pos <= |img| && CutFrom(z, img, es, pos).Cut?
    ensures Opened(z, img, CutFrom(z, img, es, pos).cs, pos, |img|)
    decreases |es| + |img| - pos
  {
    hide EntryChunk, Expands;
    if pos < |img| {
      if es != [] && pos == es[0].offset {
        EntryOpens(z, img, pos, es[0]);
        CutOpens(z, img, es[1..], pos + es[0].deflateLen);
        OpenedAhead(z, img, EntryChunk(z, img, pos, es[0]).cs[0],
                    CutFrom(z, img, es[1..], pos + es[0].deflateLen).cs, pos, |img|);
      } else {
        var next := if es == [] then |img| else es[0].offset;
        CutOpens(z, img, es, next);
        OpenedAhead(z, img, Normal(pos, pos, next - pos), CutFrom(z, img, es, next).cs, pos, |img|);
      }
    }
  }

  /** The loop of ReadZip that cuts the file at the entries. */
  method CutFile(z: Zlib, img: seq<byte>, es: seq<Entry>) returns (r: ZipReading)
    ensures r == CutFrom(z, img, es, 0)
  {
    hide EntryChunk, CutFrom, Expands;
    var pos: nat, next, cs := 0, 0, [];
    CutStart(z, img, es);
    while pos < |img|
      invariant pos <= |img| && 0 <= next <= |es|
      invariant CutFrom(z, img, es, 0) == Ahead(cs, CutFrom(z, img, es[next..], pos))
      decreases |es| - next + |img| - pos
    {
      CutStep(z, img, es, next, pos, cs);
      if next < |es| && pos == es[next].offset {
        var c := EntryChunk(z, img, pos, es[next]);
        if !c.Cut? {
          return c;
        }
        EntryOpens(z, img, pos, es[next]);
        pos, next, cs := pos + es[next].deflateLen, next + 1, cs + c.cs;
      } else {
        var to := if next < |es| then es[next].offset else |img|;
        if !(pos < to <= |img|) {
          return Astray;
        }
        pos, cs := to, cs + [Normal(pos, pos, to - pos)];
      }
    }
    r := Cut(cs);
    CutEnds(z, img, es[next..]);
    assert cs + [] == cs;
  }

  lemma CutEnds(z: Zlib, img: seq<byte>, es: seq<Entry>)
    ensures CutFrom(z, img, es, |img|) == Cut([])
  {}

  lemma CutStart(z: Zlib, img: seq<byte>, es: seq<Entry>)
    ensures CutFrom(z, img, es, 0) == Ahead([], CutFrom(z, img, es[0..], 0))
  {
    assert es[0..] == es;
    var r := CutFrom(z, img, es, 0);
    assert r.Cut? ==> [] + r.cs == r.cs;
  }

  /** One turn of the loop. */
  lemma CutStep(z: Zlib, img: seq<byte>, es: seq<Entry>, next: nat, pos: nat, cs: seq<Chunk>)
    requires pos < |img| && next <= |es|
    ensures var r := Ahead(cs, CutFrom(z, img, es[next..], pos));
            if next < |es| && pos == es[next].offset then
              var c := EntryChunk(z, img, pos, es[next]);
              if !c.Cut? then r == c
              else es[next].deflateLen >= 0 && pos + es[next].deflateLen <= |img| &&
                   r == Ahead(cs + c.cs, CutFrom(z, img, es[next + 1..], pos + es[next].deflateLen))
            else
              var to := if next < |es| then es[next].offset else |img|;
              if !(pos < to <= |img|) then r == Astray
              else r == Ahead(cs + [Normal(pos, pos, to - pos)], CutFrom(z, img, es[next..], to))
  {
    var rest := es[next..];
    if next < |es| {
      assert rest[0] == es[next] && rest[1..] == es[next + 1..];
      if pos == es[next].offset {
        var c := EntryChunk(z, img, pos, es[next]);
        if c.Cut? {
          var r := CutFrom(z, img, es[next + 1..], pos + es[next].deflateLen);
          hide EntryChunk;
          assert r.Cut? ==> cs + (c.cs + r.cs) == cs + c.cs + r.cs;
        }
        return;
      }
    }
    var to := if next < |es| then es[next].offset else |img|;
    if pos < to <= |img| {
      var r, n := CutFrom(z, img, rest, to), Normal(pos, pos, to - pos);
      assert r.Cut? ==> cs + ([n] + r.cs) == cs + [n] + r.cs;
    }
  }

  /** The deflated entries that the central directory lists. */
  function DirectoryOf(img: seq<byte>): Directory
  {
    var i := EndFrom(img, |img| - 20);
    if !(0 <= i + 4 && i + 20 <= |img|) then OutOfFile
    else if img[i + 4..i + 8] != [0, 0, 0, 0] then BadDirectory
    else EntriesFrom(img, Word4At(img, i + 16), Word2At(img, i + 8))
  }

  /** The file is cut at its deflated entries, taken in the order of their offsets. */
  ghost predicate CutAtEntries(z: Zlib, img: seq<byte>, r: ZipReading)
  {
    match DirectoryOf(img)
    case OutOfFile => r == Astray
    case BadDirectory => r == Refused
    case Entries(all) => exists es :: Ascending(es) && multiset(es) == multiset(all) && r == CutFrom(z, img, es, 0)
  }

  /** No two entries have the same name. */
  predicate DistinctEntries(es: seq<Entry>)
  {
    forall i, k :: 0 <= i < k < |es| ==> es[i].name != es[k].name
  }

  /** Sorting keeps the names different. */
  lemma PermutedDistinct(all: seq<Entry>, es: seq<Entry>)
    requires multiset(es) == multiset(all) && DistinctEntries(all)
    ensures DistinctEntries(es)
  {
    forall i, k | 0 <= i < k < |es| ensures es[i].name != es[k].name {
      assert es[i] in multiset(all) && es[k] in multiset(all);
      var a :| 0 <= a < |all| && all[a] == es[i];
      var b :| 0 <= b < |all| && all[b] == es[k];
      if a == b {
        TwiceInList(es, i, k);
        OnceInList(all, a);
        assert false;
      }
    }
  }

  lemma TwiceInList(es: seq<Entry>, i: nat, k: nat)
    requires i < k < |es| && es[i] == es[k]
    ensures multiset(es)[es[i]] >= 2
  {
    assert es == es[..i] + [es[i]] + es[i + 1..k] + [es[k]] + es[k + 1..];
  }

  lemma OnceInList(es: seq<Entry>, a: nat)
    requires DistinctEntries(es) && a < |es|
    ensures multiset(es)[es[a]] == 1
  {
    assert es == es[..a] + [es[a]] + es[a + 1..];
    assert es[a] !in es[..a] && es[a] !in es[a + 1..];
  }

  /** The deflate chunks of a file have the names of its entries. */
  lemma {:induction false} CutNames(z: Zlib, img: seq<byte>, es: seq<Entry>, pos: nat)
    requires pos <= |img| && CutFrom(z, img, es, pos).Cut?
    ensures forall c :: c in CutFrom(z, img, es, pos).cs && c.Deflate? ==> exists e :: e in es && c.name == Some(e.name)
    ensures DistinctEntries(es) ==> DistinctNames(CutFrom(z, img, es, pos).cs)
    decreases |es| + |img| - pos
  {
    hide EntryChunk;
    if pos < |img| {
      if es != [] && pos == es[0].offset {
        EntryOpens(z, img, pos, es[0]);
        var cs := CutFrom(z, img, es[1..], pos + es[0].deflateLen).cs;
        CutNames(z, img, es[1..], pos + es[0].deflateLen);
        NamesAhead(EntryChunk(z, img, pos, es[0]).cs[0], cs, es);
      } else {
        var next := if es == [] then |img| else es[0].offset;
        CutNames(z, img, es, next);
        var cs := CutFrom(z, img, es, next).cs;
        assert ([Normal(pos, pos, next - pos)] + cs)[1..] == cs;
      }
    }
  }

  lemma NamesAhead(c: Chunk, cs: seq<Chunk>, es: seq<Entry>)
    requires es != [] && c.Deflate? && c.name == Some(es[0].name)
    requires forall d :: d in cs && d.Deflate? ==> exists e :: e in es[1..] && d.name == Some(e.name)
    ensures forall d :: d in [c] + cs && d.Deflate? ==> exists e :: e in es && d.name == Some(e.name)
    ensures DistinctEntries(es) && DistinctNames(cs) ==> DistinctNames([c] + cs)
  {
    forall d | d in [c] + cs && d.Deflate? ensures exists e :: e in es && d.name == Some(e.name) {
      if d in cs {
        var e :| e in es[1..] && d.name == Some(e.name);
        assert e in es;
      } else {
        assert es[0] in es;
      }
    }
    if DistinctEntries(es) {
      forall k | 0 <= k < |cs| && cs[k].Deflate? ensures cs[k].name != c.name {
        var e :| e in es[1..] && cs[k].name == Some(e.name);
        var i :| 0 <= i < |es[1..]| && es[1..][i] == e;
        assert es[i + 1] == e;
      }
    }
  }

  /** ReadZip: the file is cut at its entries, so that the chunks tile it; the pseudo chunk of the whole file
      goes in front, if it is asked for. */
  method ReadZip(z: Zlib, img: seq<byte>, pseudo: bool) returns (r: ZipReading)
    ensures !r.Cut? || !pseudo ==> CutAtEntries(z, img, r)
    ensures r.Cut? && !pseudo ==> Opened(z, img, r.cs, 0, |img|) && DirectoryOf(img).Entries? &&
                                  (DistinctEntries(DirectoryOf(img).es) ==> DistinctNames(r.cs))
    ensures r.Cut? && pseudo ==>
              r.cs != [] && r.cs[0] == Normal(0, 0, |img|) && CutAtEntries(z, img, Cut(r.cs[1..])) &&
              Opened(z, img, r.cs[1..], 0, |img|)
  {
    hide CutFrom, EntriesFrom, Word4At, Word2At, Opened, EndFrom, DistinctEntries, DistinctNames, Ascending;
    var i := FindEnd(img);
    if !(0 <= i + 4 && i + 20 <= |img|) {
      return Astray;
    }
    if img[i + 4..i + 8] != [0, 0, 0, 0] {
      return Refused;
    }
    var directory := ReadEntries(img, Word4At(img, i + 16), Word2At(img, i + 8));
    if !directory.Entries? {
      return if directory.BadDirectory? then Refused else Astray;
    }
    var es := SortEntries(directory.es);
    r := CutFile(z, img, es);
    if r.Cut? {
      CutOpens(z, img, es, 0);
      CutNames(z, img, es, 0);
      if DistinctEntries(directory.es) {
        PermutedDistinct(directory.es, es);
      }
      if pseudo {
        assert ([Normal(0, 0, |img|)] + r.cs)[1..] == r.cs;
        r := Cut([Normal(0, 0, |img|)] + r.cs);
      }
    }
  }

  // ----- pairing by name -----

  /** There is a deflate chunk of this name. */
  predicate Present(cs: seq<Chunk>, name: Option<seq<byte>>)
  {
    exists j :: 0 <= j < |cs| && cs[j].Deflate? && cs[j].name == name
  }

  /** No two deflate chunks have the same name. */
  predicate DistinctNames(cs: seq<Chunk>)
  {
    forall i, k :: 0 <= i < k < |cs| && cs[i].Deflate? && cs[k].Deflate? ==> cs[i].name != cs[k].name
  }

  /** FindChunkByName: the first deflate chunk of the name. */
  method FindChunkByName(name: Option<seq<byte>>, cs: array<Chunk>) returns (j: int)
    ensures -1 <= j < cs.Length && (j == -1 <==> !Present(cs[..], name))
    ensures j >= 0 ==> cs[j].Deflate? && cs[j].name == name && !Present(cs[..j], name)
  {
    for i := 0 to cs.Length
      invariant !Present(cs[..i], name)
    {
      if cs[i].Deflate? && cs[i].name == name {
        assert cs[..][i] == cs[i];
        return i;
      }
    }
    assert cs[..cs.Length] == cs[..];
    j := -1;
  }

  /** Where the first deflate chunk of the name is, or -1. */
  function FirstNamed(cs: seq<Chunk>, name: Option<seq<byte>>): (j: int)
    ensures -1 <= j < |cs|
  {
    if cs == [] then -1
    else if cs[0].Deflate? && cs[0].name == name then 0
    else
      var j := FirstNamed(cs[1..], name);
      if j < 0 then -1 else j + 1
  }

  lemma {:induction false} FirstNamedIs(cs: seq<Chunk>, name: Option<seq<byte>>, j: int)
    requires -1 <= j < |cs|
    requires if j == -1 then !Present(cs, name) else cs[j].Deflate? && cs[j].name == name && !Present(cs[..j], name)
    ensures FirstNamed(cs, name) == j
    decreases |cs|
  {
    if cs != [] {
      assert j != 0 ==> !(cs[0].Deflate? && cs[0].name == name) by {
        if j > 0 {
          assert cs[..j][0] == cs[0];
        }
      }
      if j != 0 {
        if j > 0 {
          assert cs[1..][..j - 1] == cs[..j][1..];
        }
        FirstNamedIs(cs[1..], name, if j < 0 then -1 else j - 1);
      }
    }
  }

  /** What the turn of a target chunk makes of the source chunks and of the chunk itself. */
  function Turn(z: Zlib, srcImg: seq<byte>, tgtImg: seq<byte>, ss: seq<Chunk>, t: Chunk): (r: (seq<Chunk>, Chunk))
    ensures |r.0| == |ss|
  {
    if t.Normal? then (ss, t)
    else
      var j := FirstNamed(ss, t.name);
      if j >= 0 && Reconstructs(z, tgtImg, t, Recoder(z, tgtImg, t)) && !SameCompressed(srcImg, ss[j], tgtImg, t)
      then (ss, t.(params := Recoder(z, tgtImg, t)))
      else (if j >= 0 then ss[j := AsNormal(ss[j])] else ss, AsNormal(t))
  }

  /** What the turns of the first n target chunks make of them. */
  function Turns(z: Zlib, srcImg: seq<byte>, tgtImg: seq<byte>, ss: seq<Chunk>, ts: seq<Chunk>, n: nat):
      (seq<Chunk>, seq<Chunk>)
    requires n <= |ts|
  {
    if n == 0 then (ss, [])
    else
      var (s1, t1) := Turns(z, srcImg, tgtImg, ss, ts, n - 1);
      var (s2, t) := Turn(z, srcImg, tgtImg, s1, ts[n - 1]);
      (s2, t1 + [t])
  }

  /** Every chunk that is still deflated has its source entry. */
  predicate AllPaired(ss: seq<Chunk>, ts: seq<Chunk>)
  {
    forall i :: 0 <= i < |ts| && ts[i].Deflate? ==> Present(ss, ts[i].name)
  }

  /** The source chunks as they may have become: some deflate chunks treated as normal ones. */
  ghost predicate Treated(was: seq<Chunk>, now: seq<Chunk>)
  {
    |was| == |now| && forall j :: 0 <= j < |was| ==> now[j] == was[j] || now[j] == AsNormal(was[j])
  }

  /** A target chunk after its turn: in the same place, and deflated only if it can be recompressed exactly. */
  ghost predicate TurnDone(z: Zlib, img: seq<byte>, was: Chunk, now: Chunk)
  {
    SamePlace(was, now) && Settled(z, img, now) &&
    (now.Deflate? ==> was.Deflate? && now.name == was.name && now.data == was.data)
  }

  /** The turn of one target chunk: it is treated as normal if it cannot be recompressed exactly, if the source
      has no entry of its name, or if that entry is the same; and then so is that entry. */
  method SettleEntry(z: Zlib, srcImg: seq<byte>, tgtImg: seq<byte>, src: array<Chunk>, t0: Chunk) returns (t: Chunk)
    modifies src
    ensures (src[..], t) == Turn(z, srcImg, tgtImg, old(src[..]), t0)
    ensures TurnDone(z, tgtImg, t0, t) && Treated(old(src[..]), src[..])
    ensures t.Deflate? ==> Present(src[..], t.name)
    ensures forall name :: Present(old(src[..]), name) && (t0.Normal? || name != t0.name) ==> Present(src[..], name)
  {
    t := t0;
    if t.Normal? {
      return;
    }
    var ok, p := ReconstructDeflateChunk(z, tgtImg, t);
    var j := FindChunkByName(t.name, src);
    FirstNamedIs(src[..], t.name, j);
    if ok && j >= 0 && !SameCompressed(srcImg, src[j], tgtImg, t) {
      t := t.(params := p);
      return;
    }
    t := AsNormal(t);
    if j >= 0 {
      ghost var was := src[..];
      src[j] := AsNormal(src[j]);
      forall name | Present(was, name) && name != t0.name ensures Present(src[..], name) {
        var k :| 0 <= k < |was| && was[k].Deflate? && was[k].name == name;
        assert src[..][k] == was[k];
      }
    }
  }

  /** Two target entries that share a name can leave the first without its source: the first is to be patched
      from the source entry, the second cannot be recompressed and has that entry treated as normal. */
  lemma SharedName(z: Zlib, srcImg: seq<byte>, tgtImg: seq<byte>, s: Chunk, a: Chunk, b: Chunk)
    requires s.Deflate? && a.Deflate? && b.Deflate? && s.name == a.name == b.name
    requires Reconstructs(z, tgtImg, a, Encoder(6)) && !SameCompressed(srcImg, s, tgtImg, a)
    requires !Reconstructs(z, tgtImg, b, Encoder(6)) && !Reconstructs(z, tgtImg, b, Encoder(9))
    ensures var (ss, ts) := Turns(z, srcImg, tgtImg, [Normal(0, 0, |srcImg|), s], [a, b], 2);
            !AllPaired(ss, ts) && ts[0].Deflate? && ts[0].name == s.name
  {
    hide Reconstructs, SameCompressed;
    var all := [Normal(0, 0, |srcImg|), s];
    assert all[1..] == [s];
    assert FirstNamed(all, a.name) == 1 && FirstNamed(all, b.name) == 1;
    var first := a.(params := Encoder(6));
    assert Turn(z, srcImg, tgtImg, all, a) == (all, first);
    assert Turns(z, srcImg, tgtImg, all, [a, b], 0) == (all, []);
    assert [] + [first] == [first];
    assert Turns(z, srcImg, tgtImg, all, [a, b], 1) == (all, [first]);
    assert Turn(z, srcImg, tgtImg, all, b) == (all[1 := AsNormal(s)], AsNormal(b));
    var (ss, ts) := Turns(z, srcImg, tgtImg, all, [a, b], 2);
    assert ts == [first] + [AsNormal(b)] && ss == all[1 := AsNormal(s)];
    assert ts[0] == first && ss[0].Normal? && ss[1].Normal?;
  }

  /** The loop over the target chunks. If no two target entries have the same name, each target chunk that is
      still deflated has its source entry. */
  method SettleZip(z: Zlib, srcImg: seq<byte>, tgtImg: seq<byte>, src: array<Chunk>, tgt: array<Chunk>)
    requires src != tgt
    modifies src, tgt
    ensures (src[..], tgt[..]) == Turns(z, srcImg, tgtImg, old(src[..]), old(tgt[..]), tgt.Length)
    ensures Treated(old(src[..]), src[..])
    ensures forall i :: 0 <= i < tgt.Length ==> TurnDone(z, tgtImg, old(tgt[i]), tgt[i])
    ensures DistinctNames(old(tgt[..])) ==> AllPaired(src[..], tgt[..])
  {
    hide Present, SamePlace, Settled, Turn;
    for i := 0 to tgt.Length
      invariant (src[..], tgt[..i]) == Turns(z, srcImg, tgtImg, old(src[..]), old(tgt[..]), i)
      invariant Treated(old(src[..]), src[..])
      invariant forall k :: 0 <= k < i ==> TurnDone(z, tgtImg, old(tgt[k]), tgt[k])
      invariant forall k :: i <= k < tgt.Length ==> tgt[k] == old(tgt[k])
      invariant DistinctNames(old(tgt[..])) ==>
                  forall k :: 0 <= k < i && tgt[k].Deflate? ==> Present(src[..], tgt[k].name)
    {
      assert old(tgt[..])[i] == tgt[i] && forall k :: 0 <= k < i ==> old(tgt[..])[k] == old(tgt[k]);
      ghost var was, done := src[..], tgt[..i];
      tgt[i] := SettleEntry(z, srcImg, tgtImg, src, tgt[i]);
      TreatedTwice(old(src[..]), was, src[..]);
      assert tgt[..i + 1] == done + [tgt[i]];
    }
    assert tgt[..tgt.Length] == tgt[..];
  }

  lemma TreatedTwice(a: seq<Chunk>, b: seq<Chunk>, c: seq<Chunk>)
    requires Treated(a, b) && Treated(b, c)
    ensures Treated(a, c)
  {}

  lemma TreatedExpands(z: Zlib, img: seq<byte>, was: seq<Chunk>, now: seq<Chunk>)
    requires Treated(was, now) && forall c :: c in was ==> Expands(z, img, c) && c.start == c.at
    ensures forall c :: c in now ==> Expands(z, img, c) && c.start == c.at
  {
    hide Expands;
    forall c | c in now ensures Expands(z, img, c) && c.start == c.at {
      var j :| 0 <= j < |now| && now[j] == c;
      assert was[j] in was;
      NormalExpands(z, img, was[j]);
    }
  }

  lemma NormalExpands(z: Zlib, img: seq<byte>, c: Chunk)
    ensures Expands(z, img, AsNormal(c))
  {}

  // ----- patches -----

  /** A target chunk that can be patched. */
  ghost predicate Patchable(z: Zlib, img: seq<byte>, c: Chunk)
  {
    Settled(z, img, c) && (c.Deflate? ==> |c.data| < TWO_TO_31)
  }

  /** One record: from the source entry of the same name, or from the source file as a whole. A deflated chunk
      whose source entry is gone cannot be patched: the source writes a length it never set. */
  method ZipRecord(z: Zlib, bz: Bzip, srcImg: seq<byte>, tgtImg: seq<byte>, src: array<Chunk>, t: Chunk,
                   IP: array?<int>)
      returns (ok: bool, r: Record, I: array?<int>)
    requires bz.Faithful() && |srcImg| < TWO_TO_31 && |tgtImg| < TWO_TO_31
    requires src.Length > 0 && src[0] == Normal(0, 0, |srcImg|)
    requires forall j :: 0 <= j < src.Length ==> Expands(z, srcImg, src[j]) && src[j].start == src[j].at
    requires Patchable(z, tgtImg, t) && t.start == t.at && t.start + t.Extent() <= |tgtImg|
    requires IP != null ==> IP.Length == |srcImg| + 1 && forall i :: 0 <= i < IP.Length ==> 0 <= IP[i] <= |srcImg|
    ensures ok <==> t.Normal? || Present(src[..], t.name)
    ensures ok ==> Fits(r) && Produces(z, bz, srcImg, [], r, Piece(tgtImg, t))
    ensures I != null ==> I.Length == |srcImg| + 1 && forall i :: 0 <= i < I.Length ==> 0 <= I[i] <= |srcImg|
  {
    hide Expands, Settled, Present, Produces, Bzip.Faithful;
    ok, r, I := true, RawRecord([]), IP;
    if t.Normal? {
      ghost var diff;
      r, I, diff := PatchNormal(z, bz, srcImg, tgtImg, src[0], t, IP);
    } else {
      var j := FindChunkByName(t.name, src);
      if j < 0 {
        return false, r, I;
      }
      ExpandsSize(z, srcImg, src[j]);
      r := PatchDeflate(z, bz, srcImg, tgtImg, src[j], t, []);
    }
  }

  lemma ExpandsSize(z: Zlib, img: seq<byte>, c: Chunk)
    requires Expands(z, img, c) && c.Deflate?
    ensures |c.data| < TWO_TO_31
  {}

  method ZipRecords(z: Zlib, bz: Bzip, srcImg: seq<byte>, tgtImg: seq<byte>, src: array<Chunk>, tgt: array<Chunk>,
                    num: nat)
      returns (ok: bool, rs: seq<Record>)
    requires bz.Faithful() && |srcImg| < TWO_TO_31 && |tgtImg| < TWO_TO_31 && num <= tgt.Length
    requires src.Length > 0 && src[0] == Normal(0, 0, |srcImg|)
    requires forall j :: 0 <= j < src.Length ==> Expands(z, srcImg, src[j]) && src[j].start == src[j].at
    requires Tiles(tgt[..num], 0, |tgtImg|) && forall i :: 0 <= i < num ==> Patchable(z, tgtImg, tgt[i])
    ensures ok <==> AllPaired(src[..], tgt[..num])
    ensures ok ==> |rs| == num && RecordsDone(z, bz, srcImg, tgtImg, tgt[..num], None, rs)
  {
    hide Expands, Patchable, Present, Produces, Bzip.Faithful, Tiles, Fits;
    ok, rs := true, [];
    var I: array?<int> := null;
    for i := 0 to num
      invariant |rs| == i && RecordsDone(z, bz, srcImg, tgtImg, tgt[..num], None, rs)
      invariant I != null ==> I.Length == |srcImg| + 1 && forall k :: 0 <= k < I.Length ==> 0 <= I[k] <= |srcImg|
      invariant forall k :: 0 <= k < i && tgt[k].Deflate? ==> Present(src[..], tgt[k].name)
    {
      TilesInImage(tgt[..num], 0, |tgtImg|, i);
      assert tgt[..num][i] == tgt[i] && BonusFor(None, i) == [];
      var r;
      ok, r, I := ZipRecord(z, bz, srcImg, tgtImg, src, tgt[i], I);
      if !ok {
        return;
      }
      rs := rs + [r];
    }
    assert forall i :: 0 <= i < num ==> tgt[..num][i] == tgt[i];
  }

  // ----- zip mode -----

  /** Merging loses no deflate chunk. */
  lemma {:induction false} DeflatesMerged(cs: seq<Chunk>, i: nat)
    requires i < |cs| && cs[i].Deflate?
    ensures cs[i] in Merged(cs)
    decreases |cs|
  {
    var n := RunLength(cs);
    if i < n {
      RunIsNormal(cs, i);
    } else {
      DeflatesMerged(cs[n..], i - n);
    }
  }

  lemma {:induction false} RunIsNormal(cs: seq<Chunk>, i: nat)
    requires i < |cs| && i < RunLength(cs) && cs[i].Deflate?
    ensures RunLength(cs) == 1 && i == 0
    decreases |cs|
  {
    if RunLength(cs) > 1 {
      if i > 0 {
        RunIsNormal(cs[1..], i - 1);
      }
      assert false;
    }
  }

  /** The target chunks after settling and merging: they tile the target and can be patched, and those still
      deflated are the same. */
  lemma MergedTarget(z: Zlib, img: seq<byte>, was: seq<Chunk>, now: seq<Chunk>, src: seq<Chunk>)
    requires Opened(z, img, was, 0, |img|) && |was| == |now|
    requires forall i :: 0 <= i < |was| ==> TurnDone(z, img, was[i], now[i])
    ensures Tiles(Merged(now), 0, |img|) && forall c :: c in Merged(now) ==> Patchable(z, img, c)
    ensures AllPaired(src, now) <==> AllPaired(src, Merged(now))
  {
    hide Present, Merged, Settled;
    SamePlacesTile(was, now, 0, |img|);
    MergedTiles(now, 0, |img|);
    forall c | c in now ensures Patchable(z, img, c) {
      var i :| 0 <= i < |now| && now[i] == c;
      assert TurnDone(z, img, was[i], now[i]) && was[i] in was;
    }
    forall i | 0 <= i < |Merged(now)| && Merged(now)[i].Deflate? ensures Merged(now)[i] in now {
      MergedDeflates(now, i);
    }
    forall i | 0 <= i < |now| && now[i].Deflate? ensures now[i] in Merged(now) {
      DeflatesMerged(now, i);
    }
    NormalsPatchable(z, img, Merged(now));
  }

  lemma NormalsPatchable(z: Zlib, img: seq<byte>, cs: seq<Chunk>)
    ensures forall c :: c in cs && c.Normal? ==> Patchable(z, img, c)
  {}

  /** main of imgdiff in zip mode: applying the patch it writes to the source file gives the target file byte for
      byte; if the entries of the target have different names, it is not stuck with an entry whose source is
      gone. */
  method DiffZips(z: Zlib, bz: Bzip, srcZip: seq<byte>, tgtZip: seq<byte>) returns (r: Outcome)
    requires bz.Faithful() && |srcZip| < TWO_TO_31 && |tgtZip| < TWO_TO_31
    ensures r.Written? ==> Interpreted(z, bz, srcZip, r.patch, None) == Ok(tgtZip)
    ensures r == Failed(SourceUnreadable) ==> exists q: ZipReading :: !q.Cut? && CutAtEntries(z, srcZip, q)
    ensures r == Failed(TargetUnreadable) ==> exists q: ZipReading :: !q.Cut? && CutAtEntries(z, tgtZip, q)
    ensures r == Failed(EntryUnpaired) ==>
              DirectoryOf(tgtZip).Entries? && !DistinctEntries(DirectoryOf(tgtZip).es)
    ensures r.Failed? ==> r.why in {SourceUnreadable, TargetUnreadable, EntryUnpaired, ContainerTooLarge}
  {
    hide CutAtEntries, DirectoryOf, DistinctEntries, DistinctNames, Opened, Interpreted;
    var rs := ReadZip(z, srcZip, true);
    if !rs.Cut? { return Failed(SourceUnreadable); }
    var rt := ReadZip(z, tgtZip, false);
    if !rt.Cut? { return Failed(TargetUnreadable); }
    r := DiffCut(z, bz, srcZip, tgtZip, rs.cs, rt.cs);
  }

  /** The rest of zip mode, from the chunks on. It is stuck with an entry whose source is gone exactly when the
      turns of the target chunks leave one. */
  method DiffCut(z: Zlib, bz: Bzip, srcZip: seq<byte>, tgtZip: seq<byte>, ss: seq<Chunk>, ts: seq<Chunk>)
      returns (r: Outcome)
    requires bz.Faithful() && |srcZip| < TWO_TO_31 && |tgtZip| < TWO_TO_31
    requires ss != [] && ss[0] == Normal(0, 0, |srcZip|) && Opened(z, srcZip, ss[1..], 0, |srcZip|)
    requires Opened(z, tgtZip, ts, 0, |tgtZip|)
    ensures r.Written? ==> Interpreted(z, bz, srcZip, r.patch, None) == Ok(tgtZip)
    ensures var (s1, t1) := Turns(z, srcZip, tgtZip, ss, ts, |ts|);
            r == Failed(EntryUnpaired) <==> !AllPaired(s1, t1)
    ensures r == Failed(EntryUnpaired) ==> !DistinctNames(ts)
    ensures r.Failed? ==> r.why == EntryUnpaired || r.why == ContainerTooLarge
  {
    hide *;
    var src := ChunkArray(ss);
    var tgt := ChunkArray(ts);
    SourceReady(z, srcZip, ss);
    SettleZip(z, srcZip, tgtZip, src, tgt);
    FirstStays(ss, src[..]);
    TreatedExpands(z, srcZip, ss, src[..]);
    MergedTarget(z, tgtZip, ts, tgt[..], src[..]);
    assert tgt[..tgt.Length] == tgt[..];
    var num := MergeAdjacentNormalChunks(tgt, tgt.Length);
    ElementsOf(tgt[..num], tgt, num);
    var ok, records := ZipRecords(z, bz, srcZip, tgtZip, src, tgt, num);
    if !ok { return Failed(EntryUnpaired); }
    if !Writable(records) { return Failed(ContainerTooLarge); }
    var patch := WriteContainer(records);
    DoneRoundTrips(z, bz, srcZip, tgtZip, tgt[..num], None, records);
    r := Written(patch);
  }

  lemma SourceReady(z: Zlib, img: seq<byte>, ss: seq<Chunk>)
    requires ss != [] && ss[0] == Normal(0, 0, |img|) && Opened(z, img, ss[1..], 0, |img|)
    ensures forall c :: c in ss ==> Expands(z, img, c) && c.start == c.at
  {
    forall c | c in ss ensures Expands(z, img, c) && c.start == c.at {
      if c != ss[0] {
        assert c in ss[1..];
        var i :| 0 <= i < |ss[1..]| && ss[1..][i] == c;
        TilesInImage(ss[1..], 0, |img|, i);
      }
    }
  }

  lemma FirstStays(was: seq<Chunk>, now: seq<Chunk>)
    requires Treated(was, now) && was != [] && was[0].Normal?
    ensures now != [] && now[0] == was[0]
  {}

  lemma ElementsOf(cs: seq<Chunk>, a: array<Chunk>, num: nat)
    requires num <= a.Length && cs == a[..num]
    ensures forall i :: 0 <= i < num ==> a[i] == cs[i] && a[i] in cs
  {}
}
