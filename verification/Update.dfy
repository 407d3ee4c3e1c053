/** A whole update of a file: the patch that imgdiff or bsdiff writes on the host, applied by applypatch
    on the device through any number of crashes. */
module Update {
  import opened Bytes
  import opened Disk
  import opened Retouch
  import opened ApplyPatch
  import BsDiff
  import BsPatch
  import Chunks
  import Codec
  import ImgDiff
  import ImgPatch
  import ZipDiff

  ghost function Prefixes(x: seq<byte>): set<seq<byte>>
  {
    set k | 0 <= k <= |x| :: x[..k]
  }

  /** What the files of an update from x to b can hold, if they start out with contents among others. */
  ghost function Contents(x: seq<byte>, b: seq<byte>, others: set<seq<byte>>): set<seq<byte>>
  {
    Prefixes(x) + {b} + others
  }

  /** No other data loaded from contents among u has the digest of x. */
  ghost predicate Unique(t: Tools, u: set<seq<byte>>, x: seq<byte>)
  {
    forall y :: y in u && Mask(y).Some? && t.sha(Mask(y).value) == t.sha(x) ==> Mask(y).value == x
  }

  /** The retouch records of contents that load as x are well-formed. */
  ghost predicate Retouchable(u: set<seq<byte>>, x: seq<byte>)
  {
    forall y :: y in u && Mask(y) == Some(x) ==> WellFormed(y)
  }

  /** The job of one patch. */
  function JobFor(t: Tools, source: Path, targetName: Path, x: seq<byte>, b: seq<byte>, patch: seq<byte>): Job
  {
    Job(source, targetName, Some(t.sha(b)), |b|, [Some(t.sha(x))], [Value(true, patch)])
  }

  /** The names do not collide and the source is not expendable. */
  predicate NamesFit(j: Job)
  {
    j.source != CACHE_TEMP_SOURCE && j.Target() != CACHE_TEMP_SOURCE && j.source != j.OutName() &&
    !Expendable(j.source)
  }

  /** The job of a patch that turns x into b meets what applypatch needs. */
  lemma JobIsSane(t: Tools, j: Job, x: seq<byte>, b: seq<byte>, patch: seq<byte>, others: set<seq<byte>>)
    requires j == JobFor(t, j.source, j.targetName, x, b, patch) && NamesFit(j)
    requires t.Known(patch) && t.Apply(patch, x) == Ok(b) && Mask(b) == Some(b)
    requires Unique(t, Contents(x, b, others), x) && Retouchable(Contents(x, b, others), x)
    ensures Sane(t, j, Contents(x, b, others)) && PatchesWork(t, j, Contents(x, b, others))
  {
    hide Mask, WellFormed, Expendable, Tools.Known, Tools.Apply;
    var u := Contents(x, b, others);
    forall y | y in u ensures Proper(t, j, u, y) {
      if Mask(y).Some? && ApplyPatch.Listed(j, t.sha(Mask(y).value)) {
        assert Mask(y).value == x;
        forall k | 0 <= k <= |x| ensures x[..k] in u {
          assert x[..k] in Prefixes(x);
        }
      }
    }
  }

  /** The ways to make a patch: bsdiff, and imgdiff in its two modes. */
  datatype Kind = WholeFile | ImageMode | ZipMode

  /** The host side. */
  method MakePatch(t: Tools, x: seq<byte>, b: seq<byte>, kind: Kind) returns (r: Option<seq<byte>>)
    requires t.z.Lawful() && t.bz.Faithful() && |x| < Codec.TWO_TO_31 && |b| < Codec.TWO_TO_31
    ensures r.Some? ==> t.Known(r.value) && t.Apply(r.value, x) == Ok(b)
    ensures kind == WholeFile ==> r.Some?
  {
    match kind {
      case WholeFile =>
        var patch, _ := BsDiff.Diff(t.bz, x, null, b);
        assert [] + patch + [] == patch;
        assert BsPatch.Patched(t.bz, x, [] + patch + [], 0) == Ok(b);
        r := Some(patch);
      case ImageMode =>
        var o := ImgDiff.DiffImages(t.z, t.bz, x, b, t.bonus);
        r := if o.Written? then Some(o.patch) else None;
      case ZipMode =>
        if t.bonus.Some? {
          return None;  // zip mode leaves bonus data out
        }
        var o := ZipDiff.DiffZips(t.z, t.bz, x, b);
        r := if o.Written? then Some(o.patch) else None;
    }
  }

  /** The data of x is in one of the places where a run looks for it, or the target is b. */
  ghost predicate NothingLost(j: Job, f: Files, x: seq<byte>, b: seq<byte>)
  {
    Loaded(f, j.Target()) == Some(b) || Loaded(f, j.source) == Some(x) || Loaded(f, CACHE_TEMP_SOURCE) == Some(x)
  }

  lemma SafeMeansNothingLost(t: Tools, j: Job, f: Files, x: seq<byte>, b: seq<byte>, patch: seq<byte>,
                             u: set<seq<byte>>)
    requires j == JobFor(t, j.source, j.targetName, x, b, patch)
    requires Within(j, u, f) && Unique(t, u, x) && Unique(t, u, b)
    ensures AtTarget(t, j, f) <==> Loaded(f, j.Target()) == Some(b)
    ensures Safe(t, j, f) <==> NothingLost(j, f, x, b)
  {
    hide Mask;
    forall p | j.Named(p) && Loaded(f, p).Some?
      ensures t.sha(Loaded(f, p).value) == t.sha(x) <==> Loaded(f, p).value == x
      ensures t.sha(Loaded(f, p).value) == t.sha(b) <==> Loaded(f, p).value == b
    {
      assert f[p] in u;
    }
  }

  /** Any number of interrupted runs with a patch that turns x into b never loses the data, and the first
      run without faults leaves exactly the target, which a further run leaves alone. */
  method ApplyThroughCrashes(t: Tools, j: Job, x: seq<byte>, b: seq<byte>, patch: seq<byte>,
                             ghost others: set<seq<byte>>, start: Files, scripts: seq<Script>, cuts: seq<nat>,
                             last: Script) returns (f: Files, g: Files, h: Files)
    requires j == JobFor(t, j.source, j.targetName, x, b, patch) && NamesFit(j) && |scripts| == |cuts|
    requires t.Known(patch) && t.Apply(patch, x) == Ok(b) && Mask(b) == Some(b)
    requires Unique(t, Contents(x, b, others), x) && Unique(t, Contents(x, b, others), b)
    requires Retouchable(Contents(x, b, others), x)
    requires Within(j, Contents(x, b, others), start) && NothingLost(j, start, x, b)
    ensures NothingLost(j, f, x, b)
    ensures Favourable(j, last, f) ==> Loaded(g, j.Target()) == Some(b) && h == g
    ensures Spared(j, [], start, f) && Spared(j, [], start, g) && (scripts == [] ==> f == start)
    ensures (forall i :: 0 <= i < |scripts| ==> Spacious(j, scripts[i])) ==> SameBut(j, start, f)
    ensures Spacious(j, last) ==> SameBut(j, f, g)
    ensures Loaded(f, j.source) == Some(x) && Loaded(f, j.Target()) != Some(b) && j.Target() != j.source ==>
              Favourable(j, last, f) && Cramped(j, last) ==> j.source !in g
  {
    ghost var u := Contents(x, b, others);
    assert j.targetSha.Some?;
    hide *;
    JobIsSane(t, j, x, b, patch, others);
    SafeMeansNothingLost(t, j, start, x, b, patch, u);
    f, g, h := RunToTheEnd(t, j, u, start, scripts, cuts, last);
    SafeMeansNothingLost(t, j, f, x, b, patch, u);
    SafeMeansNothingLost(t, j, g, x, b, patch, u);
    KeptIsSame(t, j, start, f);
    KeptIsSame(t, j, f, g);
    StillToDo(t, j, f, x, b, patch);
  }

  /** The files are the same but for output and target. */
  ghost predicate SameBut(j: Job, f: Files, g: Files)
  {
    forall q :: q != j.OutName() && q != j.Target() ==> (q in f <==> q in g) && (q in f ==> f[q] == g[q])
  }

  lemma KeptIsSame(t: Tools, j: Job, f: Files, g: Files)
    ensures Kept(t, j, false, f, g) ==> SameBut(j, f, g)
  {
    hide AtTarget;
  }

  lemma StillToDo(t: Tools, j: Job, f: Files, x: seq<byte>, b: seq<byte>, patch: seq<byte>)
    requires j == JobFor(t, j.source, j.targetName, x, b, patch)
    requires AtTarget(t, j, f) <==> Loaded(f, j.Target()) == Some(b)
    ensures Loaded(f, j.source) == Some(x) && Loaded(f, j.Target()) != Some(b) ==> Unfinished(t, j, f)
  {
    hide Mask;
  }

  /** The job for these files, with its patch left open. */
  function Plan(t: Tools, names: Job, x: seq<byte>, b: seq<byte>): Job
  {
    JobFor(t, names.source, names.targetName, x, b, [])
  }

  /** The patch made on the host and applied on the device through crashes: the data is never lost and
      the target is reached, and other files are spared. With room for the target nothing but output and target
      changes; without, the source is gone in the end. Jobs for the same files differ only in their patch. */
  method UpdateFile(t: Tools, names: Job, x: seq<byte>, b: seq<byte>, kind: Kind, ghost others: set<seq<byte>>,
                    start: Files, scripts: seq<Script>, cuts: seq<nat>, last: Script)
      returns (ok: bool, f: Files, g: Files, h: Files)
    requires t.z.Lawful() && t.bz.Faithful() && |x| < Codec.TWO_TO_31 && |b| < Codec.TWO_TO_31 && |scripts| == |cuts|
    requires NamesFit(names) && Mask(b) == Some(b)
    requires Unique(t, Contents(x, b, others), x) && Unique(t, Contents(x, b, others), b)
    requires Retouchable(Contents(x, b, others), x)
    requires Within(names, Contents(x, b, others), start) && NothingLost(names, start, x, b)
    ensures NothingLost(names, f, x, b)
    ensures ok && Favourable(names, last, f) ==> Loaded(g, names.Target()) == Some(b) && h == g
    ensures kind == WholeFile ==> ok
    ensures Spared(names, [], start, f) && Spared(names, [], start, g) && (scripts == [] ==> f == start)
    ensures (forall i :: 0 <= i < |scripts| ==> Spacious(Plan(t, names, x, b), scripts[i])) ==> SameBut(names, start, f)
    ensures Spacious(Plan(t, names, x, b), last) ==> SameBut(names, f, g)
    ensures Loaded(f, names.source) == Some(x) && Loaded(f, names.Target()) != Some(b) ==>
              names.Target() != names.source && ok && Favourable(names, last, f) ==>
              Cramped(Plan(t, names, x, b), last) ==> names.source !in g
  {
    hide *;
    f, g, h := start, start, start;
    NoChange(t, names, start);
    KeptIsSame(t, names, start, start);
    var patch := MakePatch(t, x, b, kind);
    ok := patch.Some?;
    if !ok { return; }
    var j := JobFor(t, names.source, names.targetName, x, b, patch.value);
    JobForIs(t, names.source, names.targetName, x, b, patch.value);
    SameFiles(names, j, Contents(x, b, others), start, x, b, last);
    SameRoom(t, names, j, x, b, patch.value);
    f, g, h := ApplyThroughCrashes(t, j, x, b, patch.value, others, start, scripts, cuts, last);
    SameFiles(names, j, Contents(x, b, others), f, x, b, last);
    SameSpared(names, j, start, f);
    SameSpared(names, j, start, g);
    SameSpared(names, j, f, g);
  }

  lemma JobForIs(t: Tools, source: Path, targetName: Path, x: seq<byte>, b: seq<byte>, patch: seq<byte>)
    ensures var j := JobFor(t, source, targetName, x, b, patch);
            j.source == source && j.targetName == targetName && j == JobFor(t, j.source, j.targetName, x, b, patch)
  {}

  /** What matters of a job here is its files. */
  lemma SameFiles(i: Job, j: Job, u: set<seq<byte>>, f: Files, x: seq<byte>, b: seq<byte>, s: Script)
    requires i.source == j.source && i.targetName == j.targetName
    ensures i.Target() == j.Target() && (NamesFit(i) <==> NamesFit(j))
    ensures (Within(i, u, f) <==> Within(j, u, f)) && (NothingLost(i, f, x, b) <==> NothingLost(j, f, x, b))
    ensures Favourable(i, s, f) <==> Favourable(j, s, f)
  {
    hide Expendable, Loaded;
  }

  lemma SameSpared(i: Job, j: Job, f: Files, g: Files)
    requires i.source == j.source && i.targetName == j.targetName
    ensures (Spared(i, [], f, g) <==> Spared(j, [], f, g)) && (SameBut(i, f, g) <==> SameBut(j, f, g))
  {
    hide Expendable;
  }

  /** The room that is needed does not depend on the patch. */
  lemma SameRoom(t: Tools, names: Job, j: Job, x: seq<byte>, b: seq<byte>, patch: seq<byte>)
    requires j == JobFor(t, names.source, names.targetName, x, b, patch)
    ensures forall s :: Spacious(Plan(t, names, x, b), s) <==> Spacious(j, s)
    ensures forall s :: Cramped(Plan(t, names, x, b), s) <==> Cramped(j, s)
  {
    assert forall free :: Plan(t, names, x, b).Roomy(free) <==> j.Roomy(free);
    hide Job.Roomy;
  }

  // ----- what an update needs can be met -----

  /** A code that ends itself: every byte after a 1, and a 0 at the end. */
  function Marked(x: seq<byte>): seq<byte>
  {
    if x == [] then [0] else [1, x[0]] + Marked(x[1..])
  }

  /** The bytes taken by the code at the front, and what they stand for. */
  function Unmarked(y: seq<byte>): Option<(nat, seq<byte>)>
  {
    if y == [] then None
    else if y[0] == 0 then Some((1, []))
    else if |y| == 1 then None
    else match Unmarked(y[2..])
         case None => None
         case Some((k, x)) => Some((k + 2, [y[1]] + x))
  }

  lemma {:induction false} MarkedUndone(x: seq<byte>, t: seq<byte>)
    ensures Unmarked(Marked(x) + t) == Some((2 * |x| + 1, x)) && |Marked(x)| == 2 * |x| + 1
  {
    if x == [] {
      assert (Marked(x) + t)[0] == 0;
    } else {
      MarkedUndone(x[1..], t);
      assert (Marked(x) + t)[2..] == Marked(x[1..]) + t;
      assert [x[0]] + x[1..] == x;
    }
  }

  lemma {:induction false} UnmarkedTakes(y: seq<byte>)
    requires Unmarked(y).Some?
    ensures Unmarked(y).value.0 <= |y| && Unmarked(y[..Unmarked(y).value.0]) == Unmarked(y)
  {
    if y[0] != 0 {
      UnmarkedTakes(y[2..]);
      var k := Unmarked(y).value.0;
      assert y[..k][2..] == y[2..][..k - 2];
    }
  }

  function ExampleZlib(): ImgPatch.Zlib
  {
    ImgPatch.Zlib(Unmarked, (p: Chunks.Params, x: seq<byte>) => Marked(x))
  }

  function ExampleBzip(): BsPatch.Bzip
  {
    BsPatch.Bzip(Marked, (y: seq<byte>) => if Unmarked(y).Some? then Unmarked(y).value.1 else [])
  }

  /** There are lawful and faithful compressors, which undo themselves besides. */
  lemma CompressorsExist()
    ensures ExampleZlib().Lawful() && ExampleBzip().Faithful()
    ensures forall p, x :: ExampleZlib().inflate(ExampleZlib().deflate(p, x)) == Some((2 * |x| + 1, x))
  {
    hide Marked, Unmarked;
    forall y | Unmarked(y).Some?
      ensures Unmarked(y).value.0 <= |y| && Unmarked(y[..Unmarked(y).value.0]) == Unmarked(y)
    {
      UnmarkedTakes(y);
    }
    forall x, t
      ensures Unmarked(Marked(x) + t) == Some((2 * |x| + 1, x)) && |Marked(x)| == 2 * |x| + 1
    {
      MarkedUndone(x, t);
    }
    assert forall x :: Marked(x) + [] == Marked(x);
  }

  /** What an update needs is met, for instance, by short files whose digests differ. */
  lemma UpdateIsPossible(t: Tools, x: seq<byte>, b: seq<byte>, target: Path)
    requires |x| < 20 && |b| < 20 && (target == "-" || target == "/system/b")
    requires forall y, v :: y in Contents(x, b, {}) && v in Contents(x, b, {}) && t.sha(y) == t.sha(v) ==> y == v
    ensures NamesFit(JobFor(t, "/system/a", target, x, b, [])) && Mask(b) == Some(b)
    ensures Unique(t, Contents(x, b, {}), x) && Unique(t, Contents(x, b, {}), b) && Retouchable(Contents(x, b, {}), x)
    ensures Within(JobFor(t, "/system/a", target, x, b, []), Contents(x, b, {}), map["/system/a" := x])
    ensures NothingLost(JobFor(t, "/system/a", target, x, b, []), map["/system/a" := x], x, b)
    ensures Loaded(map["/system/a" := x], "/system/a") == Some(x)
  {
    forall y | y in Contents(x, b, {}) ensures WellFormed(y) && Mask(y) == Some(y) {
      ShortIsPlain(y);
    }
    hide Mask, WellFormed;
    assert x[..|x|] == x && x in Prefixes(x);
    assert "/system/b.patch"[8] == 'b';
  }

  lemma LittleRoom(t: Tools, x: seq<byte>, b: seq<byte>, names: Job, last: Script, start: Files)
    requires names == JobFor(t, "/system/a", "/system/b", x, b, []) && start == map["/system/a" := x] && |x| < 20
    requires (forall n :: last.ok(n) && last.takes(n) == 1 && last.space(n) == 1000)
    requires Loaded(start, "/system/a") == Some(x)
    ensures names.Target() == "/system/b" && names.source == "/system/a" && names == Plan(t, names, x, b)
    ensures Loaded(start, "/system/b") == None && Cramped(names, last) && Favourable(names, last, start)
  {
    hide Mask;
    assert names.Target() == "/system/b" && "/system/b"[8] != "/system/a"[8];
    assert CACHE_TEMP_SOURCE[1] == 'c';
  }

  /** A run that succeeds and deletes the source, although the target is another file: there are 1000 bytes
      left. */
  method SourceGone(t: Tools, x: seq<byte>, b: seq<byte>) returns (g: Files)
    requires t.z.Lawful() && t.bz.Faithful() && |x| < 20 && |b| < 20
    requires forall y, v :: y in Contents(x, b, {}) && v in Contents(x, b, {}) && t.sha(y) == t.sha(v) ==> y == v
    ensures Loaded(g, "/system/b") == Some(b) && "/system/a" !in g
  {
    var names := JobFor(t, "/system/a", "/system/b", x, b, []);
    var last := Script(n => true, n => 1, n => 1000, []);
    var start := map["/system/a" := x];
    hide *;
    UpdateIsPossible(t, x, b, "/system/b");
    LittleRoom(t, x, b, names, last, start);
    var ok, f, h;
    ok, f, g, h := UpdateFile(t, names, x, b, WholeFile, {}, start, [], [], last);
  }
}
