/** applypatch/applypatch.c and applypatch/freecache.c for file targets: patching a file so that a
    crash or a failing call at any point leaves enough behind to try again. */
module ApplyPatch {
  import opened Bytes
  import opened Disk
  import opened BsPatch
  import opened ImgPatch
  import opened Retouch

  type Digest = seq<byte>

  const CACHE_TEMP_SOURCE: Path := "/cache/saved.file"

  /** The code this protocol calls that is not modelled: SHA-1, bzip2 and zlib; with the bonus data of
      the call. */
  datatype Tools = Tools(sha: seq<byte> -> Digest, bz: Bzip, z: Zlib, bonus: Option<seq<byte>>)
  {
    /** The header test of a patch. */
    predicate Known(patch: seq<byte>)
    {
      |patch| >= 8 && (patch[..8] == BSDIFF_MAGIC || patch[..8] == IMGDIFF_MAGIC)
    }

    /** Applies a patch of the kind its header says. */
    function Apply(patch: seq<byte>, src: seq<byte>): Result<seq<byte>>
    {
      if |patch| >= 8 && patch[..8] == BSDIFF_MAGIC then Patched(bz, src, patch, 0)
      else Interpreted(z, bz, src, patch, bonus)
    }
  }

  datatype Value = Value(isBlob: bool, data: seq<byte>)

  /** The arguments of applypatch; a digest string that does not parse is None. */
  datatype Job = Job(source: Path, targetName: Path, targetSha: Option<Digest>, targetSize: nat,
                     shas: seq<Option<Digest>>, patches: seq<Value>)
  {
    function Target(): Path { if targetName == "-" then source else targetName }
    function OutName(): Path { Target() + ".patch" }

    /** The files whose contents matter. */
    predicate Named(p: Path) { p == source || p == Target() || p == CACHE_TEMP_SOURCE }

    /** The files that a run works on. */
    predicate Uses(p: Path) { Named(p) || p == OutName() }

    /** There is room for the target: more than 256 KiB, and more than the target and half of it again. */
    predicate Roomy(free: nat) { free > 262144 && 2 * free > 3 * targetSize }
  }

  /** The files that may be deleted to make room on /cache. */
  predicate Expendable(p: Path)
  {
    p != CACHE_TEMP_SOURCE && (DirectlyIn(p, "/cache") || DirectlyIn(p, "/cache/recovery/otatest"))
  }

  /** What LoadFileContents gives for the file p. */
  function Loaded(f: Files, p: Path): Option<seq<byte>>
  {
    if p in f then Mask(f[p]) else None
  }

  predicate Listed(j: Job, d: Digest)
  {
    Some(d) in j.shas
  }

  /** The file p holds source data for which there is a patch. */
  predicate Matches(t: Tools, j: Job, f: Files, p: Path)
  {
    var c := Loaded(f, p);
    c.Some? && Listed(j, t.sha(c.value))
  }

  /** The target file is what it should become. */
  predicate AtTarget(t: Tools, j: Job, f: Files)
  {
    var c := Loaded(f, j.Target());
    c.Some? && j.targetSha == Some(t.sha(c.value))
  }

  /** Nothing is lost: the target is done, or the source or its saved copy can still be patched. */
  predicate Safe(t: Tools, j: Job, f: Files)
  {
    AtTarget(t, j, f) || Matches(t, j, f, j.source) || Matches(t, j, f, CACHE_TEMP_SOURCE)
  }

  /** The contents of the files that matter are among u. */
  ghost predicate Within(j: Job, u: set<seq<byte>>, f: Files)
  {
    forall p :: p in f && j.Named(p) ==> f[p] in u
  }

  /** Every state of the history is safe and within u. */
  ghost predicate AllSafe(t: Tools, j: Job, u: set<seq<byte>>, h: seq<Files>)
  {
    forall i :: 0 <= i < |h| ==> Safe(t, j, h[i]) && Within(j, u, h[i])
  }

  /** If the patch turns x into something with the target digest, that is among u and already masked. */
  predicate Lands(t: Tools, j: Job, u: set<seq<byte>>, patch: Value, x: seq<byte>)
  {
    var r := t.Apply(patch.data, x);
    r.Ok? && j.targetSha == Some(t.sha(r.value)) ==> r.value in u && Mask(r.value) == Some(r.value)
  }

  /** A file with contents y that loads as source data for which there is a patch has no retouch record
      or a well-formed one; what can be left of a copy of that data is among u, and so is the target. */
  ghost predicate Proper(t: Tools, j: Job, u: set<seq<byte>>, y: seq<byte>)
    requires |j.shas| == |j.patches|
  {
    Mask(y).Some? && Listed(j, t.sha(Mask(y).value)) ==>
      var x := Mask(y).value;
      WellFormed(y) &&
      (forall k :: 0 <= k <= |x| ==> x[..k] in u) &&
      forall i :: 0 <= i < |j.shas| && j.shas[i] == Some(t.sha(x)) ==> Lands(t, j, u, j.patches[i], x)
  }

  /** What the caller has to see to: the names do not collide, the source is not expendable, and the
      contents u that the files may hold are proper. */
  ghost predicate Sane(t: Tools, j: Job, u: set<seq<byte>>)
  {
    |j.shas| == |j.patches| &&
    j.source != CACHE_TEMP_SOURCE && j.Target() != CACHE_TEMP_SOURCE && j.source != j.OutName() &&
    !Expendable(j.source) &&
    forall y :: y in u ==> Proper(t, j, u, y)
  }

  lemma NamesApart(j: Job)
    requires j.source != j.OutName()
    ensures !j.Named(j.OutName())
  {
    assert j.OutName()[|j.OutName()| - 1] == 'h';
  }

  /** FindMatchingPatch: the first patch listed for the digest. */
  method FindMatchingPatch(j: Job, d: Digest) returns (k: int)
    ensures k == -1 <==> !Listed(j, d)
    ensures k >= 0 ==> k < |j.shas| && j.shas[k] == Some(d) && Some(d) !in j.shas[..k]
    ensures k >= -1
  {
    for i := 0 to |j.shas|
      invariant Some(d) !in j.shas[..i]
    {
      if j.shas[i] == Some(d) {
        return i;
      }
    }
    assert j.shas[..|j.shas|] == j.shas;
    k := -1;
  }

  /** The names found in directory d, without the saved copy. */
  method ScanDirectory(disk: Disk, d: Path) returns (names: seq<Option<Path>>)
    modifies disk`calls
    ensures disk.calls == old(disk.calls) + 1
    ensures None !in names
    ensures forall p :: Some(p) in names ==> p in disk.files && DirectlyIn(p, d) && p != CACHE_TEMP_SOURCE
    ensures (forall n :: disk.script.ok(n)) ==>
              forall p :: p in disk.files && DirectlyIn(p, d) && p != CACHE_TEMP_SOURCE ==> Some(p) in names
  {
    hide DirectlyIn;
    names := [];
    var listing := disk.List(d);
    if listing == None {
      return;
    }
    var found := listing.value;
    for i := 0 to |found|
      invariant None !in names
      invariant forall p :: Some(p) in names <==> p in found[..i] && p != CACHE_TEMP_SOURCE
    {
      if found[i] != CACHE_TEMP_SOURCE {
        names := names + [Some(found[i])];
      }
    }
    assert found[..|found|] == found;
  }

  /** The name, unless it is that of one of the open files on /cache. */
  function Closed(name: Option<Path>, open: seq<Path>): Option<Path>
  {
    if name.Some? && name.value in open && "/cache/" <= name.value then None else name
  }

  /** EliminateOpenFiles: replaces the names of open files on /cache by None. */
  method EliminateOpenFiles(names: array<Option<Path>>, open: seq<Path>)
    modifies names
    ensures forall k :: 0 <= k < names.Length ==> names[k] == Closed(old(names[k]), open)
  {
    for i := 0 to |open|
      invariant forall k :: 0 <= k < names.Length ==> names[k] == Closed(old(names[k]), open[..i])
    {
      if "/cache/" <= open[i] {
        for k := 0 to names.Length
          invariant forall m :: 0 <= m < k ==> names[m] == Closed(old(names[m]), open[..i + 1])
          invariant forall m :: k <= m < names.Length ==> names[m] == Closed(old(names[m]), open[..i])
        {
          if names[k] == Some(open[i]) {
            names[k] := None;
          }
        }
      }
    }
    assert open[..|open|] == open;
  }

  /** FindExpendableFiles: only names of expendable files that nobody has open are left, and if the
      directories can be read there are no others. It fails only if /proc cannot be read. */
  method FindExpendableFiles(disk: Disk) returns (ok: bool, names: seq<Option<Path>>)
    modifies disk`calls
    ensures disk.calls == old(disk.calls) + 3
    ensures ok ==> forall p :: Some(p) in names ==> p in disk.files && Expendable(p) && p !in disk.script.open
    ensures (forall n :: disk.script.ok(n)) ==>
              ok && forall p :: p in disk.files && Expendable(p) && p !in disk.script.open ==> Some(p) in names
  {
    var first := ScanDirectory(disk, "/cache");
    var second := ScanDirectory(disk, "/cache/recovery/otatest");
    var all := first + second;
    var table := new Option<Path>[|all|](i requires 0 <= i < |all| => all[i]);
    ok := disk.Call();  // /proc
    if !ok {
      return false, all;
    }
    EliminateOpenFiles(table, disk.script.open);
    names := table[..];
    forall p | Some(p) in names ensures p in disk.files && Expendable(p) && p !in disk.script.open {
      var k :| 0 <= k < |names| && names[k] == Some(p);
      assert all[k] == Some(p) && Some(p) in all;
      OnCache(p);
    }
    forall p | Some(p) in all && p !in disk.script.open ensures Some(p) in names {
      var k :| 0 <= k < |all| && all[k] == Some(p);
      assert names[k] == Some(p);
    }
  }

  lemma OnCache(p: Path)
    ensures DirectlyIn(p, "/cache") || DirectlyIn(p, "/cache/recovery/otatest") ==> "/cache/" <= p
  {
    assert "/cache" + "/" == "/cache/";
    if DirectlyIn(p, "/cache/recovery/otatest") {
      assert "/cache/" <= "/cache/recovery/otatest" + "/" <= p;
    }
  }

  /** Only expendable files that are not open are missing from g. */
  ghost predicate OnlyExpended(open: seq<Path>, f: Files, g: Files)
  {
    forall q :: (q in g ==> q in f && g[q] == f[q]) && (q in f && !(Expendable(q) && q !in open) ==> q in g)
  }

  lemma ExpendNone(open: seq<Path>, f: Files)
    ensures OnlyExpended(open, f, f)
  {}

  lemma ExpendOne(open: seq<Path>, f: Files, g: Files, p: Path)
    requires OnlyExpended(open, f, g) && Expendable(p) && p !in open
    ensures OnlyExpended(open, f, g - {p}) && OnlyExpended(open, f, g)
  {
    hide Expendable;
  }

  /** MakeFreeSpaceOnCache: deletes expendable files as long as there is too little room; succeeds if there is
      enough in the end. */
  method MakeFreeSpaceOnCache(disk: Disk, needed: nat) returns (ok: bool)
    requires disk.Logged()
    modifies disk
    ensures disk.Logged() && old(disk.history) <= disk.history
    ensures OnlyExpended(disk.script.open, old(disk.files), disk.files)
    ensures forall i :: |old(disk.history)| <= i < |disk.history| ==>
              OnlyExpended(disk.script.open, old(disk.files), disk.history[i])
    ensures ok ==> disk.calls > 0 && disk.script.space(disk.calls - 1) >= needed
    ensures disk.script.space(old(disk.calls)) >= needed ==>
              ok && disk.files == old(disk.files) && disk.history == old(disk.history)
    ensures forall m :: 1 <= m < |disk.history| - |old(disk.history)| ==>
              disk.script.space(old(disk.calls) + 3 + 2 * m) < needed
  {
    hide OnlyExpended, Expendable;
    ExpendNone(disk.script.open, disk.files);
    var free := disk.FreeSpace();
    if free >= needed {
      return true;
    }
    var names;
    ok, names := FindExpendableFiles(disk);
    if !ok || names == [] {
      return false;
    }
    var i := 0;
    ghost var m := 0;
    while i < |names| && free < needed
      invariant i <= |names| && disk.Logged() && old(disk.history) <= disk.history
      invariant OnlyExpended(disk.script.open, old(disk.files), disk.files)
      invariant forall k :: |old(disk.history)| <= k < |disk.history| ==>
                  OnlyExpended(disk.script.open, old(disk.files), disk.history[k])
      invariant m == |disk.history| - |old(disk.history)| && disk.calls == old(disk.calls) + 4 + 2 * m
      invariant free == disk.script.space(if m == 0 then old(disk.calls) else old(disk.calls) + 3 + 2 * m)
      invariant forall k :: 1 <= k < m ==> disk.script.space(old(disk.calls) + 3 + 2 * k) < needed
    {
      if names[i].Some? {
        ExpendOne(disk.script.open, old(disk.files), disk.files, names[i].value);
        disk.Unlink(names[i].value);
        free := disk.FreeSpace();
        m := m + 1;
      }
      i := i + 1;
    }
    ok := free >= needed;
  }

  // ----- what is left alone -----

  /** g has the files of f that the run does not work on, except for expendable ones that are not open. */
  ghost predicate Spared(j: Job, open: seq<Path>, f: Files, g: Files)
  {
    forall q :: !j.Uses(q) ==>
      (q in g ==> q in f && g[q] == f[q]) && (q in f && !(Expendable(q) && q !in open) ==> q in g)
  }

  ghost predicate AllSpared(j: Job, open: seq<Path>, f: Files, h: seq<Files>, n: nat)
  {
    forall i :: n <= i < |h| ==> Spared(j, open, f, h[i])
  }

  /** g is f but for the output, the target, which is as before or done, and, if it may be gone, the saved
      copy. */
  ghost predicate Kept(t: Tools, j: Job, gone: bool, f: Files, g: Files)
  {
    (forall q :: q != j.OutName() && q != j.Target() && !(gone && q == CACHE_TEMP_SOURCE) ==>
       (q in f <==> q in g) && (q in f ==> f[q] == g[q])) &&
    (SameAt(f, g, j.Target()) || AtTarget(t, j, g))
  }

  ghost predicate AllKept(t: Tools, j: Job, gone: bool, f: Files, h: seq<Files>, n: nat)
  {
    forall i :: n <= i < |h| ==> Kept(t, j, gone, f, h[i])
  }

  lemma SparedOn(j: Job, open: seq<Path>, f: Files, g: Files, h: seq<Files>, h': seq<Files>, n: nat)
    requires n <= |h| && h <= h' && AllSpared(j, open, f, h, n)
    requires Spared(j, open, f, g) && AllSpared(j, open, g, h', |h|)
    ensures AllSpared(j, open, f, h', n)
  {
    hide Expendable;
    forall i | n <= i < |h'| ensures Spared(j, open, f, h'[i]) {
      if i < |h| {
        assert h'[i] == h[i];
      } else {
        assert Spared(j, open, g, h'[i]);
      }
    }
  }

  lemma SparedChain(j: Job, open: seq<Path>, f: Files, g: Files, h: Files)
    requires Spared(j, open, f, g) && Spared(j, open, g, h)
    ensures Spared(j, open, f, h)
  {
    hide Expendable;
  }

  lemma OutputSpared(j: Job, open: seq<Path>, f: Files, g: Files, h: seq<Files>, n: nat)
    requires AllChangeOnly(f, h, n, j.OutName()) && ChangesOnly(f, g, j.OutName())
    ensures AllSpared(j, open, f, h, n) && Spared(j, open, f, g)
  {
    hide Expendable;
    forall i | n <= i < |h| ensures Spared(j, open, f, h[i]) {
      assert ChangesOnly(f, h[i], j.OutName());
    }
  }

  lemma KeptSpared(t: Tools, j: Job, gone: bool, open: seq<Path>, f: Files, g: Files, h: seq<Files>, n: nat)
    requires AllKept(t, j, gone, f, h, n) && Kept(t, j, gone, f, g)
    ensures AllSpared(j, open, f, h, n) && Spared(j, open, f, g)
  {
    hide Expendable, AtTarget;
    forall i | n <= i < |h| ensures Spared(j, open, f, h[i]) {
      assert Kept(t, j, gone, f, h[i]);
    }
  }

  lemma OutputOn(f: Files, g: Files, h: seq<Files>, h': seq<Files>, n: nat, p: Path)
    requires n <= |h| && h <= h' && AllChangeOnly(f, h, n, p) && ChangesOnly(f, g, p) && AllChangeOnly(g, h', |h|, p)
    ensures AllChangeOnly(f, h', n, p)
  {
    forall i | n <= i < |h'| ensures ChangesOnly(f, h'[i], p) {
      if i < |h| {
        assert h'[i] == h[i];
      } else {
        assert ChangesOnly(g, h'[i], p);
      }
    }
  }

  lemma OutputChain(f: Files, g: Files, h: Files, p: Path)
    requires ChangesOnly(f, g, p) && ChangesOnly(g, h, p)
    ensures ChangesOnly(f, h, p)
  {}

  /** First only the output changes, then the target is done. */
  lemma KeptOn(t: Tools, j: Job, f: Files, g: Files, h: seq<Files>, h': seq<Files>, n: nat)
    requires n <= |h| && h <= h' && AllChangeOnly(f, h, n, j.OutName()) && ChangesOnly(f, g, j.OutName())
    requires AllKept(t, j, false, g, h', |h|)
    ensures AllKept(t, j, false, f, h', n)
  {
    hide AtTarget;
    OutputApart(j);
    forall i | n <= i < |h'| ensures Kept(t, j, false, f, h'[i]) {
      if i < |h| {
        assert h'[i] == h[i] && ChangesOnly(f, h[i], j.OutName());
      } else {
        assert Kept(t, j, false, g, h'[i]);
      }
    }
  }

  lemma OutputApart(j: Job)
    ensures j.OutName() != j.Target()
  {
    assert |j.OutName()| > |j.Target()|;
  }

  lemma KeptChain(t: Tools, j: Job, f: Files, g: Files, h: Files)
    requires Kept(t, j, false, f, g) && Kept(t, j, false, g, h)
    ensures Kept(t, j, false, f, h)
  {
    hide Mask;
  }

  /** The file p is not opened for writing: it is as in f, or gone. */
  predicate Unopened(f: Files, g: Files, p: Path)
  {
    p in g ==> p in f && g[p] == f[p]
  }

  /** From the n-th state on the output is not opened before src is in the saved copy and, unless a call fails,
      the source is gone. */
  ghost predicate SavedFirst(j: Job, s: Script, src: seq<byte>, h: seq<Files>, n: nat)
    requires 0 < n <= |h|
  {
    (forall i :: n <= i < |h| ==> Unopened(h[n - 1], h[i], j.OutName())) || SavedOnce(j, s, src, h, n)
  }

  ghost predicate SavedOnce(j: Job, s: Script, src: seq<byte>, h: seq<Files>, n: nat)
    requires 0 < n <= |h|
  {
    exists m :: n <= m < |h| && SavedIn(j, s, src, h[m]) &&
      forall i :: n <= i <= m ==> Unopened(h[n - 1], h[i], j.OutName())
  }

  ghost predicate SavedIn(j: Job, s: Script, src: seq<byte>, f: Files)
  {
    CACHE_TEMP_SOURCE in f && f[CACHE_TEMP_SOURCE] == src && (j.source in f ==> exists n :: !s.ok(n))
  }

  /** g is f, or f with the file p replaced by the front of data. */
  ghost predicate PartCopied(f: Files, g: Files, p: Path, data: seq<byte>)
  {
    g == f || (ChangesOnly(f, g, p) && p in g && g[p] <= data)
  }

  lemma WriteCopies(f: Files, g: Files, p: Path, data: seq<byte>)
    requires ChangesOnly(f[p := []], g, p) && p in g && g[p] <= data
    ensures PartCopied(f, g, p, data)
  {}

  /** SaveFileContents: writes a copy, mode and owner included. */
  method SaveFileContents(disk: Disk, p: Path, data: seq<byte>) returns (ok: bool)
    requires disk.Logged()
    modifies disk
    ensures disk.Logged() && old(disk.history) <= disk.history
    ensures forall i :: |old(disk.history)| <= i < |disk.history| ==>
              PartCopied(old(disk.files), disk.history[i], p, data)
    ensures ok ==> disk.files == old(disk.files)[p := data]
    ensures (forall n :: disk.script.ok(n) && disk.script.takes(n) > 0) ==> ok
  {
    ok := disk.Truncate(p);
    assert PartCopied(old(disk.files), disk.files, p, data);
    hide PartCopied, ChangesOnly;
    if !ok { return; }
    ghost var n := |disk.history|;
    ok := disk.WriteAll(p, data);
    forall i | n <= i < |disk.history| ensures PartCopied(old(disk.files), disk.history[i], p, data) {
      WriteCopies(old(disk.files), disk.history[i], p, data);
    }
    if !ok { return; }
    ok := disk.Call();  // chmod
    if !ok { return; }
    ok := disk.Call();  // chown
  }

  /** The script lets every call succeed and always reports at least `room` bytes free. */
  ghost predicate FaultFree(s: Script, room: nat)
  {
    forall n :: s.ok(n) && s.takes(n) > 0 && s.space(n) >= room
  }

  /** src can be patched, and the file w, the source or its saved copy, still holds it. */
  ghost predicate Holds(t: Tools, j: Job, u: set<seq<byte>>, f: Files, w: Path, src: seq<byte>)
  {
    (w == j.source || w == CACHE_TEMP_SOURCE) && Loaded(f, w) == Some(src) && Listed(j, t.sha(src)) && Within(j, u, f)
  }

  /** g is f with at most the file p changed, to contents that are allowed. */
  ghost predicate Touched(j: Job, u: set<seq<byte>>, f: Files, g: Files, p: Path)
  {
    ChangesOnly(f, g, p) && (p in g && j.Named(p) ==> g[p] in u)
  }

  /** Data held is still held after a change to another file, and the state is safe. */
  lemma HoldsKept(t: Tools, j: Job, u: set<seq<byte>>, f: Files, g: Files, w: Path, src: seq<byte>, p: Path)
    requires Holds(t, j, u, f, w, src) && Touched(j, u, f, g, p) && p != w
    ensures Holds(t, j, u, g, w, src) && Safe(t, j, g)
  {
    hide Mask;
  }

  lemma HistorySafe(t: Tools, j: Job, u: set<seq<byte>>, h: seq<Files>, h': seq<Files>, f: Files,
                    w: Path, src: seq<byte>, p: Path)
    requires AllSafe(t, j, u, h) && h <= h' && Holds(t, j, u, f, w, src) && p != w
    requires forall i :: |h| <= i < |h'| ==> Touched(j, u, f, h'[i], p)
    ensures AllSafe(t, j, u, h')
  {
    hide Safe, Touched, Mask;
    forall i | 0 <= i < |h'| ensures Safe(t, j, h'[i]) && Within(j, u, h'[i]) {
      if i < |h| {
        assert h'[i] == h[i];
      } else {
        HoldsKept(t, j, u, f, h'[i], w, src, p);
      }
    }
  }

  /** One more state, which is as before or lacks a file. */
  lemma UnlinkSafe(t: Tools, j: Job, u: set<seq<byte>>, h: seq<Files>, f: Files, g: Files,
                   w: Path, src: seq<byte>, p: Path)
    requires AllSafe(t, j, u, h) && Holds(t, j, u, f, w, src) && p != w && (g == f || g == f - {p})
    ensures AllSafe(t, j, u, h + [g]) && Holds(t, j, u, g, w, src)
  {
    hide Mask;
    assert Touched(j, u, f, g, p);
    HoldsKept(t, j, u, f, g, w, src, p);
  }

  /** Losing expendable files keeps what the source holds. */
  lemma HoldsExpended(t: Tools, j: Job, u: set<seq<byte>>, open: seq<Path>, f: Files, g: Files, src: seq<byte>)
    requires Holds(t, j, u, f, j.source, src) && OnlyExpended(open, f, g) && !Expendable(j.source)
    ensures Holds(t, j, u, g, j.source, src) && Safe(t, j, g)
  {
    hide Mask, Expendable;
  }

  lemma ExpendSafe(t: Tools, j: Job, u: set<seq<byte>>, open: seq<Path>, h: seq<Files>, h': seq<Files>, f: Files,
                   src: seq<byte>)
    requires AllSafe(t, j, u, h) && h <= h' && Holds(t, j, u, f, j.source, src) && !Expendable(j.source)
    requires forall i :: |h| <= i < |h'| ==> OnlyExpended(open, f, h'[i])
    ensures AllSafe(t, j, u, h')
  {
    hide Safe, OnlyExpended, Expendable;
    forall i | 0 <= i < |h'| ensures Safe(t, j, h'[i]) && Within(j, u, h'[i]) {
      if i < |h| {
        assert h'[i] == h[i];
      } else {
        HoldsExpended(t, j, u, open, f, h'[i], src);
      }
    }
  }

  /** Data held is masked, what is left of a copy of it is among u, and every patch listed for it lands. */
  lemma HeldIsProper(t: Tools, j: Job, u: set<seq<byte>>, f: Files, w: Path, src: seq<byte>)
    requires Sane(t, j, u) && Holds(t, j, u, f, w, src)
    ensures Mask(src) == Some(src)
    ensures forall k :: 0 <= k <= |src| ==> src[..k] in u
    ensures forall i :: 0 <= i < |j.shas| && j.shas[i] == Some(t.sha(src)) ==> Lands(t, j, u, j.patches[i], src)
  {
    hide Mask, WellFormed, Lands, Expendable;
    assert f[w] in u && Proper(t, j, u, f[w]);
    MaskedIsMasked(f[w]);
  }

  lemma SaneMeans(t: Tools, j: Job, u: set<seq<byte>>)
    requires Sane(t, j, u)
    ensures |j.shas| == |j.patches| && j.source != CACHE_TEMP_SOURCE && !Expendable(j.source) && !j.Named(j.OutName())
    ensures j.Target() != CACHE_TEMP_SOURCE && j.source != j.OutName()
  {
    NamesApart(j);
  }

  lemma FaultFreeMeans(s: Script, room: nat)
    ensures FaultFree(s, room) ==> (forall n :: s.space(n) >= room) && forall n :: s.ok(n) && s.takes(n) > 0
  {}

  /** Every state while the copy is written touches only the copy. */
  lemma CopyTouches(t: Tools, j: Job, u: set<seq<byte>>, f: Files, g: Files, src: seq<byte>)
    requires Sane(t, j, u) && Holds(t, j, u, f, j.source, src)
    requires PartCopied(f, g, CACHE_TEMP_SOURCE, src)
    ensures Touched(j, u, f, g, CACHE_TEMP_SOURCE)
  {
    HeldIsProper(t, j, u, f, j.source, src);
    hide Mask, Sane, Listed;
    if g != f {
      assert g[CACHE_TEMP_SOURCE] == src[..|g[CACHE_TEMP_SOURCE]|];
    }
  }

  /** A saved copy of loaded data loads as the same data. */
  lemma HoldsSaved(t: Tools, j: Job, u: set<seq<byte>>, f: Files, src: seq<byte>)
    requires Sane(t, j, u) && Holds(t, j, u, f, j.source, src)
    ensures Holds(t, j, u, f[CACHE_TEMP_SOURCE := src], CACHE_TEMP_SOURCE, src)
  {
    HeldIsProper(t, j, u, f, j.source, src);
    hide Mask, Sane, Listed;
    assert src[..|src|] == src;
  }

  /** While the source is saved: other files are spared, the output is not opened, and the source is there
      until the copy is complete. */
  ghost predicate Backing(j: Job, open: seq<Path>, src: seq<byte>, f: Files, g: Files)
  {
    Spared(j, open, f, g) && Unopened(f, g, j.OutName()) &&
    (SameAt(f, g, j.source) || (CACHE_TEMP_SOURCE in g && g[CACHE_TEMP_SOURCE] == src))
  }

  ghost predicate AllBacking(j: Job, open: seq<Path>, src: seq<byte>, f: Files, h: seq<Files>, n: nat)
  {
    forall i :: n <= i < |h| ==> Backing(j, open, src, f, h[i])
  }

  lemma BackingExpended(j: Job, open: seq<Path>, src: seq<byte>, f: Files, g: Files)
    requires OnlyExpended(open, f, g) && !Expendable(j.source)
    ensures Backing(j, open, src, f, g)
  {
    hide Expendable;
  }

  lemma BackingCopy(j: Job, open: seq<Path>, src: seq<byte>, f: Files, e: Files, g: Files)
    requires OnlyExpended(open, f, e) && !Expendable(j.source) && PartCopied(e, g, CACHE_TEMP_SOURCE, src)
    requires j.source != CACHE_TEMP_SOURCE && !j.Named(j.OutName())
    ensures Backing(j, open, src, f, g)
  {
    hide Expendable;
  }

  lemma BackingGone(j: Job, open: seq<Path>, src: seq<byte>, f: Files, e: Files, g: Files)
    requires OnlyExpended(open, f, e) && !j.Named(j.OutName()) && j.source != CACHE_TEMP_SOURCE
    requires g == e[CACHE_TEMP_SOURCE := src] || g == e[CACHE_TEMP_SOURCE := src] - {j.source}
    ensures Backing(j, open, src, f, g)
  {
    hide Expendable;
  }

  lemma BackingNothing(j: Job, open: seq<Path>, src: seq<byte>, f: Files, h: seq<Files>)
    ensures AllBacking(j, open, src, f, h, |h|)
  {}

  lemma BackingOn(j: Job, open: seq<Path>, src: seq<byte>, f: Files, h: seq<Files>, h': seq<Files>, n: nat)
    requires n <= |h| && h <= h' && AllBacking(j, open, src, f, h, n)
    requires forall i :: |h| <= i < |h'| ==> Backing(j, open, src, f, h'[i])
    ensures AllBacking(j, open, src, f, h', n)
  {
    hide Backing;
    forall i | n <= i < |h'| ensures Backing(j, open, src, f, h'[i]) {
      assert i < |h| ==> h'[i] == h[i];
    }
  }

  lemma AllBackingMeans(j: Job, open: seq<Path>, src: seq<byte>, f: Files, h: seq<Files>, n: nat)
    requires AllBacking(j, open, src, f, h, n)
    ensures AllSpared(j, open, f, h, n)
    ensures forall i :: n <= i < |h| ==> Unopened(f, h[i], j.OutName())
  {
    hide Spared;
  }

  lemma SavedWhen(j: Job, s: Script, src: seq<byte>, f: Files, g: Files)
    requires f[CACHE_TEMP_SOURCE := src] == g && j.source != CACHE_TEMP_SOURCE
    ensures SavedIn(j, s, src, g - {j.source}) && ((exists n :: !s.ok(n)) ==> SavedIn(j, s, src, g))
  {}

  /** Copies the source to /cache and deletes the original; the source data is in one of the two
      places throughout. */
  method BackUpSource(disk: Disk, t: Tools, j: Job, ghost u: set<seq<byte>>, src: seq<byte>) returns (ok: bool)
    requires Sane(t, j, u) && disk.Logged() && AllSafe(t, j, u, disk.history)
    requires Holds(t, j, u, disk.files, j.source, src)
    modifies disk
    ensures disk.Logged() && AllSafe(t, j, u, disk.history) && old(disk.history) <= disk.history
    ensures ok ==> Holds(t, j, u, disk.files, CACHE_TEMP_SOURCE, src)
    ensures ok ==> SavedIn(j, disk.script, src, disk.files) && |old(disk.history)| < |disk.history|
    ensures AllBacking(j, disk.script.open, src, old(disk.files), disk.history, |old(disk.history)|)
    ensures FaultFree(disk.script, |src|) ==> ok
  {
    hide *;
    SaneMeans(t, j, u);
    FaultFreeMeans(disk.script, |src|);
    ghost var f, h, f0, h0, open := disk.files, disk.history, disk.files, disk.history, disk.script.open;
    BackingNothing(j, open, src, f, h);
    ok := MakeFreeSpaceOnCache(disk, |src|);
    ghost var e := disk.files;
    ExpendSafe(t, j, u, open, h, disk.history, f, src);
    HoldsExpended(t, j, u, open, f, e, src);
    forall i | |h| <= i < |disk.history| ensures Backing(j, open, src, f0, disk.history[i]) {
      BackingExpended(j, open, src, f0, disk.history[i]);
    }
    BackingOn(j, open, src, f0, h, disk.history, |h0|);
    if !ok { return; }
    f, h := disk.files, disk.history;
    ok := SaveFileContents(disk, CACHE_TEMP_SOURCE, src);
    forall i | |h| <= i < |disk.history|
      ensures Touched(j, u, f, disk.history[i], CACHE_TEMP_SOURCE) && Backing(j, open, src, f0, disk.history[i])
    {
      CopyTouches(t, j, u, f, disk.history[i], src);
      BackingCopy(j, open, src, f0, e, disk.history[i]);
    }
    HistorySafe(t, j, u, h, disk.history, f, j.source, src, CACHE_TEMP_SOURCE);
    BackingOn(j, open, src, f0, h, disk.history, |h0|);
    if !ok { return; }
    HoldsSaved(t, j, u, f, src);
    f, h := disk.files, disk.history;
    SavedWhen(j, disk.script, src, e, f);
    disk.Unlink(j.source);
    UnlinkSafe(t, j, u, h, f, disk.files, CACHE_TEMP_SOURCE, src, j.source);
    BackingGone(j, open, src, f0, e, disk.files);
    BackingOn(j, open, src, f0, h, disk.history, |h0|);
    var _ := disk.FreeSpace();
  }

  /** Applied to src, the patch gives the target. */
  predicate Works(t: Tools, j: Job, patch: Value, src: seq<byte>)
  {
    patch.isBlob && t.Known(patch.data) &&
    var r := t.Apply(patch.data, src);
    r.Ok? && j.targetSha == Some(t.sha(r.value))
  }

  lemma OutputTouches(j: Job, u: set<seq<byte>>, f: Files, g: Files)
    requires !j.Named(j.OutName()) && ChangesOnly(f, g, j.OutName())
    ensures Touched(j, u, f, g, j.OutName())
  {}

  datatype Attempt = Done | Retry | Fatal

  /** One attempt at writing the patched file next to the target. */
  method WriteOutput(disk: Disk, t: Tools, j: Job, ghost u: set<seq<byte>>, ghost w: Path, src: seq<byte>, patch: Value)
      returns (a: Attempt, out: seq<byte>)
    requires Sane(t, j, u) && disk.Logged() && AllSafe(t, j, u, disk.history) && Holds(t, j, u, disk.files, w, src)
    modifies disk
    ensures disk.Logged() && AllSafe(t, j, u, disk.history) && old(disk.history) <= disk.history
    ensures Holds(t, j, u, disk.files, w, src)
    ensures a == Done ==> j.OutName() in disk.files && disk.files[j.OutName()] == out &&
                          t.Apply(patch.data, src) == Ok(out)
    ensures AllChangeOnly(old(disk.files), disk.history, |old(disk.history)|, j.OutName())
    ensures ChangesOnly(old(disk.files), disk.files, j.OutName())
    ensures t.Apply(patch.data, src).Ok? && (forall n :: disk.script.takes(n) > 0) ==> a != Retry
    ensures FaultFree(disk.script, 0) && Works(t, j, patch, src) ==> a == Done
  {
    hide Sane, AllSafe, Mask, Touched, Listed, Within, Patched, Interpreted;
    SaneMeans(t, j, u);
    ghost var f, h := disk.files, disk.history;
    out := [];
    if !patch.isBlob {
      return Fatal, out;
    }
    var ok := disk.Truncate(j.OutName());
    OutputTouches(j, u, f, disk.files);
    HistorySafe(t, j, u, h, disk.history, f, w, src, j.OutName());
    HoldsKept(t, j, u, f, disk.files, w, src, j.OutName());
    if !ok || !t.Known(patch.data) {
      return Fatal, out;
    }
    var r;
    if patch.data[..8] == BSDIFF_MAGIC {
      r := ApplyBSDiffPatchMem(t.bz, src, patch.data, 0);
    } else {
      r := ApplyImagePatch(t.z, t.bz, src, patch.data, t.bonus);
    }
    if r == Err {
      return Retry, out;
    }
    out := r.value;
    f, h := disk.files, disk.history;
    ok := disk.WriteAll(j.OutName(), out);
    forall i | |h| <= i < |disk.history| ensures Touched(j, u, f, disk.history[i], j.OutName()) {
      OutputTouches(j, u, f, disk.history[i]);
    }
    HistorySafe(t, j, u, h, disk.history, f, w, src, j.OutName());
    OutputTouches(j, u, f, disk.files);
    HoldsKept(t, j, u, f, disk.files, w, src, j.OutName());
    a := if ok then Done else Retry;
  }

  /** The renamed output is the target. */
  lemma TargetReached(t: Tools, j: Job, u: set<seq<byte>>, h: seq<Files>, f: Files, out: seq<byte>)
    requires AllSafe(t, j, u, h) && Within(j, u, f - {j.Target()})
    requires j.targetSha == Some(t.sha(out)) && j.Target() in f && f[j.Target()] == out
    requires out in u && Mask(out) == Some(out)
    ensures AtTarget(t, j, f) && AllSafe(t, j, u, h + [f])
  {
    hide Mask, Matches;
    forall p | p in f && j.Named(p) ensures f[p] in u {
      assert p != j.Target() ==> p in f - {j.Target()};
    }
  }

  /** Checks the digest of the output and moves it over the target; a copy made by this run is then
      no longer needed. */
  method InstallOutput(disk: Disk, t: Tools, j: Job, ghost u: set<seq<byte>>, ghost w: Path, src: seq<byte>,
                       patch: Value, out: seq<byte>, madeCopy: bool) returns (ok: bool)
    requires Sane(t, j, u) && disk.Logged() && AllSafe(t, j, u, disk.history) && Holds(t, j, u, disk.files, w, src)
    requires j.OutName() in disk.files && disk.files[j.OutName()] == out
    requires Lands(t, j, u, patch, src) && t.Apply(patch.data, src) == Ok(out)
    modifies disk
    ensures disk.Logged() && AllSafe(t, j, u, disk.history) && old(disk.history) <= disk.history
    ensures ok ==> AtTarget(t, j, disk.files) && j.OutName() !in disk.files
    ensures ok ==> j.Target() in disk.files && disk.files[j.Target()] == out
    ensures ok && madeCopy && (forall n :: disk.script.ok(n)) ==> CACHE_TEMP_SOURCE !in disk.files
    ensures AllKept(t, j, madeCopy, old(disk.files), disk.history, |old(disk.history)|)
    ensures Kept(t, j, madeCopy, old(disk.files), disk.files)
    ensures FaultFree(disk.script, 0) && j.targetSha == Some(t.sha(out)) ==> ok
  {
    hide Sane, AllSafe, Mask, Listed, AtTarget, Patched, Interpreted;
    SaneMeans(t, j, u);
    if j.targetSha != Some(t.sha(out)) {
      return false;
    }
    ok := disk.Call();  // chmod
    if !ok { return; }
    ok := disk.Call();  // chown
    if !ok { return; }
    ghost var f, h := disk.files, disk.history;
    ok := disk.Rename(j.OutName(), j.Target());
    if !ok {
      UnlinkSafe(t, j, u, h, f, disk.files, w, src, j.OutName());
      return;
    }
    TargetReached(t, j, u, h, disk.files, out);
    if madeCopy {
      h := disk.history;
      disk.Unlink(CACHE_TEMP_SOURCE);
      TargetReached(t, j, u, h, disk.files, out);
    }
  }

  /** Removes the output of a failed attempt. */
  method DropOutput(disk: Disk, t: Tools, j: Job, ghost u: set<seq<byte>>, ghost w: Path, ghost src: seq<byte>)
    requires Sane(t, j, u) && disk.Logged() && AllSafe(t, j, u, disk.history) && Holds(t, j, u, disk.files, w, src)
    modifies disk
    ensures disk.Logged() && AllSafe(t, j, u, disk.history) && old(disk.history) <= disk.history
    ensures Holds(t, j, u, disk.files, w, src)
    ensures AllChangeOnly(old(disk.files), disk.history, |old(disk.history)|, j.OutName())
    ensures (forall n :: disk.script.ok(n)) ==> j.OutName() !in disk.files
    ensures ChangesOnly(old(disk.files), disk.files, j.OutName())
  {
    hide Sane, AllSafe, Mask, Listed;
    SaneMeans(t, j, u);
    ghost var f, h := disk.files, disk.history;
    disk.Unlink(j.OutName());
    UnlinkSafe(t, j, u, h, f, disk.files, w, src, j.OutName());
  }

  lemma FaultFreeForLess(s: Script, room: nat)
    requires FaultFree(s, room)
    ensures FaultFree(s, 0)
  {}

  lemma WorksMeans(t: Tools, j: Job, patch: Value, src: seq<byte>)
    requires Works(t, j, patch, src)
    ensures t.Apply(patch.data, src).Ok? && j.targetSha == Some(t.sha(t.Apply(patch.data, src).value))
  {}

  /** The source is saved and deleted, and the output is written from the data in hand. */
  method WriteWithBackup(disk: Disk, t: Tools, j: Job, ghost u: set<seq<byte>>, src: seq<byte>, patch: Value)
      returns (a: Attempt, out: seq<byte>)
    requires Sane(t, j, u) && disk.Logged() && AllSafe(t, j, u, disk.history)
    requires Holds(t, j, u, disk.files, j.source, src)
    modifies disk
    ensures disk.Logged() && AllSafe(t, j, u, disk.history) && old(disk.history) <= disk.history
    ensures a != Fatal ==> Holds(t, j, u, disk.files, CACHE_TEMP_SOURCE, src) && |disk.history| > |old(disk.history)|
    ensures a == Done ==> j.OutName() in disk.files && disk.files[j.OutName()] == out &&
                          t.Apply(patch.data, src) == Ok(out)
    ensures AllSpared(j, disk.script.open, old(disk.files), disk.history, |old(disk.history)|)
    ensures 0 < |old(disk.history)| && SavedFirst(j, disk.script, src, disk.history, |old(disk.history)|)
    ensures a != Fatal ==> SavedOnce(j, disk.script, src, disk.history, |old(disk.history)|)
    ensures a == Done && (forall n :: disk.script.ok(n)) ==> j.source !in disk.files
    ensures FaultFree(disk.script, |src|) && Works(t, j, patch, src) ==> a == Done
  {
    hide *;
    SaneMeans(t, j, u);
    LoggedMeans(disk);
    ghost var f0, h0, open := disk.files, disk.history, disk.script.open;
    var ok := BackUpSource(disk, t, j, u, src);
    LoggedMeans(disk);
    AllBackingMeans(j, open, src, f0, disk.history, |h0|);
    if !ok {
      SavedSoFar(j, disk.script, src, disk.history, |h0|);
      return Fatal, [];
    }
    ghost var f, h := disk.files, disk.history;
    AllSparedAt(j, open, f0, h, |h0|, |h| - 1);
    SavedInMeans(j, disk.script, src, f);
    if FaultFree(disk.script, |src|) {
      FaultFreeForLess(disk.script, |src|);
    }
    a, out := WriteOutput(disk, t, j, u, CACHE_TEMP_SOURCE, src, patch);
    OutputSpared(j, open, f, disk.files, disk.history, |h|);
    SparedOn(j, open, f0, f, h, disk.history, |h0|);
    SavedThen(j, disk.script, src, h, disk.history, |h0|);
    AbsentStill(f, disk.files, j.OutName(), j.source);
  }

  lemma LoggedMeans(disk: Disk)
    requires disk.Logged()
    ensures disk.history != [] && disk.files == disk.history[|disk.history| - 1]
  {}

  lemma AbsentStill(f: Files, g: Files, p: Path, q: Path)
    requires ChangesOnly(f, g, p) && p != q
    ensures q in f <==> q in g
  {}

  lemma SavedInMeans(j: Job, s: Script, src: seq<byte>, f: Files)
    requires SavedIn(j, s, src, f)
    ensures (forall n :: s.ok(n)) ==> j.source !in f
  {}

  lemma SavedSoFar(j: Job, s: Script, src: seq<byte>, h: seq<Files>, n: nat)
    requires 0 < n <= |h| && forall i :: n <= i < |h| ==> Unopened(h[n - 1], h[i], j.OutName())
    ensures SavedFirst(j, s, src, h, n)
  {
    hide Unopened;
  }

  lemma SavedThen(j: Job, s: Script, src: seq<byte>, h: seq<Files>, h': seq<Files>, n: nat)
    requires 0 < n < |h| && h <= h' && SavedIn(j, s, src, h[|h| - 1])
    requires forall i :: n <= i < |h| ==> Unopened(h[n - 1], h[i], j.OutName())
    ensures SavedOnce(j, s, src, h', n) && SavedFirst(j, s, src, h', n)
  {
    hide Unopened, SavedIn;
    assert SavedIn(j, s, src, h'[|h| - 1]);
  }

  lemma SavedStill(j: Job, s: Script, src: seq<byte>, h: seq<Files>, h': seq<Files>, n: nat)
    requires 0 < n <= |h| && h <= h' && SavedOnce(j, s, src, h, n)
    ensures SavedOnce(j, s, src, h', n) && SavedFirst(j, s, src, h', n)
  {
    hide Unopened, SavedIn;
    var m :| n <= m < |h| && SavedIn(j, s, src, h[m]) &&
             forall i :: n <= i <= m ==> Unopened(h[n - 1], h[i], j.OutName());
    assert SavedIn(j, s, src, h'[m]);
  }

  lemma AllSparedAt(j: Job, open: seq<Path>, f: Files, h: seq<Files>, n: nat, i: nat)
    requires AllSpared(j, open, f, h, n) && n <= i < |h|
    ensures Spared(j, open, f, h[i])
  {}

  /** Since the n-th state only the output has changed. */
  ghost predicate Pristine(j: Job, f: Files, n: nat, g: Files, h: seq<Files>)
  {
    n <= |h| && AllChangeOnly(f, h, n, j.OutName()) && ChangesOnly(f, g, j.OutName())
  }

  /** Only the output has changed from the n-th state to that of `since`, at which the source began to be saved,
      and saved it is. */
  ghost predicate Backed(j: Job, s: Script, src: seq<byte>, f: Files, n: nat, g: Files, h: seq<Files>, since: nat)
  {
    0 < n <= since < |h| && AllChangeOnly(f, h[..since], n, j.OutName()) && AllSpared(j, s.open, f, h, n) &&
    Spared(j, s.open, f, g) && SavedOnce(j, s, src, h, since)
  }

  /** What holds in the end, if the source began to be saved at the state `since`. */
  ghost predicate Ended(t: Tools, j: Job, s: Script, src: seq<byte>, f: Files, n: nat, h: seq<Files>, since: nat)
  {
    AllSpared(j, s.open, f, h, n) && 0 < n <= since <= |h| && AllKept(t, j, false, f, h[..since], n) &&
    SavedFirst(j, s, src, h, since)
  }

  lemma EndedMeans(t: Tools, j: Job, s: Script, src: seq<byte>, f: Files, n: nat, h: seq<Files>, since: nat)
    requires Ended(t, j, s, src, f, n, h, since)
    ensures AllSpared(j, s.open, f, h, n) && 0 < n <= since <= |h| && AllKept(t, j, false, f, h[..since], n)
    ensures SavedFirst(j, s, src, h, since)
  {}

  lemma PristineStarts(j: Job, f: Files, h: seq<Files>)
    ensures Pristine(j, f, |h|, f, h)
  {}

  lemma PristineOn(j: Job, f: Files, n: nat, g: Files, h: seq<Files>, g': Files, h': seq<Files>)
    requires Pristine(j, f, n, g, h) && h <= h'
    requires AllChangeOnly(g, h', |h|, j.OutName()) && ChangesOnly(g, g', j.OutName())
    ensures Pristine(j, f, n, g', h')
  {
    hide AllChangeOnly;
    OutputOn(f, g, h, h', n, j.OutName());
    OutputChain(f, g, g', j.OutName());
  }

  /** The attempt ended there. */
  lemma PristineEnds(t: Tools, j: Job, s: Script, src: seq<byte>, f: Files, n: nat, g: Files, h: seq<Files>)
    requires Pristine(j, f, n, g, h) && 0 < n
    ensures Ended(t, j, s, src, f, n, h, |h|)
  {
    hide *;
    PristineMeans(j, f, n, g, h);
    OutputSpared(j, s.open, f, g, h, n);
    OutputKept(t, j, f, h, n);
    SavedSoFar(j, s, src, h, |h|);
    assert h[..|h|] == h;
    EndedWhen(t, j, s, src, f, n, h, |h|);
  }

  lemma EndedWhen(t: Tools, j: Job, s: Script, src: seq<byte>, f: Files, n: nat, h: seq<Files>, since: nat)
    requires AllSpared(j, s.open, f, h, n) && 0 < n <= since <= |h| && AllKept(t, j, false, f, h[..since], n)
    requires SavedFirst(j, s, src, h, since)
    ensures Ended(t, j, s, src, f, n, h, since)
  {}

  lemma PristineMeans(j: Job, f: Files, n: nat, g: Files, h: seq<Files>)
    requires Pristine(j, f, n, g, h)
    ensures n <= |h| && AllChangeOnly(f, h, n, j.OutName()) && ChangesOnly(f, g, j.OutName())
  {}

  /** The source is saved next; either all goes well or the attempt ends there. */
  lemma BackedNext(t: Tools, j: Job, s: Script, src: seq<byte>, f: Files, n: nat, g: Files, h: seq<Files>,
                   h': seq<Files>)
    requires Pristine(j, f, n, g, h) && 0 < n && h <= h' && AllSpared(j, s.open, g, h', |h|) && h' != []
    requires SavedFirst(j, s, src, h', |h|)
    ensures Ended(t, j, s, src, f, n, h', |h|)
    ensures |h| < |h'| && SavedOnce(j, s, src, h', |h|) ==> Backed(j, s, src, f, n, h'[|h'| - 1], h', |h|)
  {
    hide AllChangeOnly, Spared, SavedOnce, SavedFirst, AllKept;
    OutputSpared(j, s.open, f, g, h, n);
    SparedOn(j, s.open, f, g, h, h', n);
    assert h'[..|h|] == h;
    OutputKept(t, j, f, h, n);
  }

  /** The output is installed. */
  lemma PristineDone(t: Tools, j: Job, s: Script, src: seq<byte>, f: Files, n: nat, g: Files, h: seq<Files>, g': Files,
                     h': seq<Files>)
    requires Pristine(j, f, n, g, h) && 0 < n && h <= h'
    requires AllKept(t, j, false, g, h', |h|) && Kept(t, j, false, g, g')
    requires j.source != j.OutName() && j.source != CACHE_TEMP_SOURCE
    ensures Ended(t, j, s, src, f, n, h', |h'|)
    ensures j.source != j.Target() ==> (j.source in f <==> j.source in g')
  {
    hide *;
    PristineMeans(j, f, n, g, h);
    KeptOn(t, j, f, g, h, h', n);
    KeptSpared(t, j, false, s.open, g, g', h', |h|);
    OutputSpared(j, s.open, f, g, h, n);
    SparedOn(j, s.open, f, g, h, h', n);
    SavedSoFar(j, s, src, h', |h'|);
    assert h'[..|h'|] == h';
    EndedWhen(t, j, s, src, f, n, h', |h'|);
    KeptAt(t, j, false, g, g');
    AbsentStill(f, g, j.OutName(), j.source);
  }

  lemma BackedDone(t: Tools, j: Job, s: Script, src: seq<byte>, f: Files, n: nat, g: Files, h: seq<Files>, g': Files,
                   h': seq<Files>, since: nat)
    requires Backed(j, s, src, f, n, g, h, since) && h <= h'
    requires AllKept(t, j, true, g, h', |h|) && Kept(t, j, true, g, g')
    ensures Ended(t, j, s, src, f, n, h', since)
  {
    hide AllChangeOnly, Spared, SavedOnce, SavedFirst, AllKept, Kept;
    KeptSpared(t, j, true, s.open, g, g', h', |h|);
    SparedOn(j, s.open, f, g, h, h', n);
    SavedStill(j, s, src, h, h', since);
    assert h'[..since] == h[..since];
    OutputKept(t, j, f, h[..since], n);
  }

  /** One attempt, with the source saved first or not. Whatever comes of it, the run may end there. */
  method Try(disk: Disk, t: Tools, j: Job, ghost u: set<seq<byte>>, save: bool, ghost w: Path, src: seq<byte>,
             patch: Value, ghost f: Files, ghost n: nat) returns (a: Attempt, out: seq<byte>, ghost since: nat)
    requires Sane(t, j, u) && disk.Logged() && AllSafe(t, j, u, disk.history) && Holds(t, j, u, disk.files, w, src)
    requires (save ==> w == j.source) && 0 < n && Pristine(j, f, n, disk.files, disk.history)
    modifies disk
    ensures disk.Logged() && AllSafe(t, j, u, disk.history) && old(disk.history) <= disk.history
    ensures since == (if save then |old(disk.history)| else |disk.history|)
    ensures Ended(t, j, disk.script, src, f, n, disk.history, since)
    ensures a != Fatal ==> Holds(t, j, u, disk.files, if save then CACHE_TEMP_SOURCE else w, src)
    ensures a == Done ==> j.OutName() in disk.files && disk.files[j.OutName()] == out &&
                          t.Apply(patch.data, src) == Ok(out)
    ensures !save ==> Pristine(j, f, n, disk.files, disk.history)
    ensures !save && Unstopped(t, disk.script, patch, src) ==> a != Retry
    ensures save && a != Fatal ==> Backed(j, disk.script, src, f, n, disk.files, disk.history, since)
    ensures save && a == Done && (forall n :: disk.script.ok(n)) ==> j.source !in disk.files
    ensures FaultFree(disk.script, |src|) && Works(t, j, patch, src) ==> a == Done
  {
    hide *;
    ghost var g, h, script := disk.files, disk.history, disk.script;
    if FaultFree(script, |src|) {
      FaultFreeForLess(script, |src|);
    }
    UnstoppedIs(t, script, patch, src);
    if save {
      since := |h|;
      a, out := WriteWithBackup(disk, t, j, u, src, patch);
      LoggedMeans(disk);
      BackedNext(t, j, script, src, f, n, g, h, disk.history);
    } else {
      a, out := WriteOutput(disk, t, j, u, w, src, patch);
      PristineOn(j, f, n, g, h, disk.files, disk.history);
      PristineEnds(t, j, script, src, f, n, disk.files, disk.history);
      since := |disk.history|;
    }
  }

  /** The attempts of GenerateTarget: the output is written, or the run has ended. */
  method WriteTarget(disk: Disk, t: Tools, j: Job, ghost u: set<seq<byte>>, fromCopy: bool, src: seq<byte>,
                     patch: Value) returns (a: Attempt, out: seq<byte>, madeCopy: bool, ghost since: nat)
    requires Sane(t, j, u) && disk.Logged() && AllSafe(t, j, u, disk.history)
    requires Holds(t, j, u, disk.files, if fromCopy then CACHE_TEMP_SOURCE else j.source, src)
    modifies disk
    ensures disk.Logged() && AllSafe(t, j, u, disk.history) && old(disk.history) <= disk.history
    ensures 0 < |old(disk.history)|
    ensures a == Fatal ==> Ended(t, j, disk.script, src, old(disk.files), |old(disk.history)|, disk.history, since)
    ensures a == Done ==>
              Holds(t, j, u, disk.files, if madeCopy || fromCopy then CACHE_TEMP_SOURCE else j.source, src) &&
              j.OutName() in disk.files && disk.files[j.OutName()] == out && t.Apply(patch.data, src) == Ok(out)
    ensures a == Done && !madeCopy ==>
              Pristine(j, old(disk.files), |old(disk.history)|, disk.files, disk.history) &&
              (fromCopy || j.Roomy(disk.script.space(old(disk.calls))))
    ensures a == Done && madeCopy ==>
              Backed(j, disk.script, src, old(disk.files), |old(disk.history)|, disk.files, disk.history, since)
    ensures a != Retry && (fromCopy ==> !madeCopy) && (!madeCopy ==> since == |disk.history|)
    ensures !fromCopy && !j.Roomy(disk.script.space(old(disk.calls))) ==> since == |old(disk.history)|
    ensures j.Roomy(disk.script.space(old(disk.calls))) && Unstopped(t, disk.script, patch, src) ==> !madeCopy
    ensures FaultFree(disk.script, |src|) && Works(t, j, patch, src) ==>
              a == Done && (madeCopy ==> j.source !in disk.files)
  {
    hide *;
    ghost var f0, h0, free0, script := disk.files, disk.history, disk.script.space(disk.calls), disk.script;
    LoggedMeans(disk);
    PristineStarts(j, f0, h0);
    ghost var good := FaultFree(script, |src|) && Works(t, j, patch, src);
    FaultFreeMeans(script, |src|);
    ghost var w := if fromCopy then CACHE_TEMP_SOURCE else j.source;
    var retry := 1;
    a, out, madeCopy, since := Retry, [], false, |h0|;
    while a == Retry
      invariant 0 <= retry <= 1 && disk.Logged() && AllSafe(t, j, u, disk.history) && h0 <= disk.history
      invariant a != Fatal && (a == Retry ==> !madeCopy) && (madeCopy ==> !fromCopy)
      invariant Holds(t, j, u, disk.files, w, src)
      invariant w == if madeCopy || fromCopy then CACHE_TEMP_SOURCE else j.source
      invariant a == Done ==> j.OutName() in disk.files && disk.files[j.OutName()] == out &&
                              t.Apply(patch.data, src) == Ok(out)
      invariant a == Retry && retry == 1 ==> disk.calls == old(disk.calls) && disk.history == h0
      invariant retry == 0 && a == Retry ==> j.Roomy(free0) && !Unstopped(t, script, patch, src) && !good
      invariant !madeCopy ==> Pristine(j, f0, |h0|, disk.files, disk.history)
      invariant a == Done && !madeCopy ==> since == |disk.history| && (fromCopy || j.Roomy(free0))
      invariant madeCopy ==> Backed(j, script, src, f0, |h0|, disk.files, disk.history, since) &&
                             (if j.Roomy(free0) then !Unstopped(t, script, patch, src) else since == |h0|) &&
                             (good ==> j.source !in disk.files)
      decreases retry, a == Retry
    {
      var enough := false;
      if retry > 0 {
        var free := disk.FreeSpace();
        enough := free > 0x4_0000 && free > j.targetSize * 3 / 2;
        RoomyIs(j, free);
      }
      if !enough {
        retry := 0;
      }
      madeCopy := !enough && !fromCopy;
      a, out, since := Try(disk, t, j, u, madeCopy, w, src, patch, f0, |h0|);
      if madeCopy {
        w := CACHE_TEMP_SOURCE;
      }
      if a == Retry && retry == 0 {
        a := Fatal;
      }
      if a == Fatal {
        return;
      }
      if a == Retry {
        ghost var f, h := disk.files, disk.history;
        DropOutput(disk, t, j, u, w, src);
        PristineOn(j, f0, |h0|, f, h, disk.files, disk.history);
        retry := retry - 1;
      }
    }
  }

  /** Nothing stops an attempt but the patch, a write that takes nothing, or the output not being opened. */
  ghost predicate Unstopped(t: Tools, s: Script, patch: Value, src: seq<byte>)
  {
    t.Apply(patch.data, src).Ok? && forall n :: s.takes(n) > 0
  }

  lemma UnstoppedIs(t: Tools, s: Script, patch: Value, src: seq<byte>)
    ensures Unstopped(t, s, patch, src) <==> t.Apply(patch.data, src).Ok? && forall n :: s.takes(n) > 0
  {}

  /** GenerateTarget: applies patch k to src, which the source file or its saved copy holds; the source
      is saved to /cache and deleted first if the target file system is short of space or the first
      attempt failed. Up to the state at which that begins, all files but output and target are kept; it begins
      at once if the source is used and the first query finds too little room, and never if the copy is used,
      or if there is room and nothing stops the first attempt. */
  method GenerateTarget(disk: Disk, t: Tools, j: Job, ghost u: set<seq<byte>>, fromCopy: bool, src: seq<byte>, k: nat)
      returns (ok: bool, ghost since: nat)
    requires Sane(t, j, u) && disk.Logged() && AllSafe(t, j, u, disk.history)
    requires Holds(t, j, u, disk.files, if fromCopy then CACHE_TEMP_SOURCE else j.source, src)
    requires k < |j.shas| == |j.patches| && j.shas[k] == Some(t.sha(src))
    modifies disk
    ensures disk.Logged() && AllSafe(t, j, u, disk.history) && old(disk.history) <= disk.history
    ensures ok ==> AtTarget(t, j, disk.files) && j.OutName() !in disk.files && j.Target() in disk.files &&
                   t.Apply(j.patches[k].data, src) == Ok(disk.files[j.Target()])
    ensures FaultFree(disk.script, |src|) && Works(t, j, j.patches[k], src) ==> ok
    ensures AllSpared(j, disk.script.open, old(disk.files), disk.history, |old(disk.history)|)
    ensures 0 < |old(disk.history)| <= since <= |disk.history|
    ensures AllKept(t, j, false, old(disk.files), disk.history[..since], |old(disk.history)|)
    ensures SavedFirst(j, disk.script, src, disk.history, since)
    ensures var free := disk.script.space(old(disk.calls));
            (fromCopy || (j.Roomy(free) && Unstopped(t, disk.script, j.patches[k], src)) ==> since == |disk.history|) &&
            (!fromCopy && !j.Roomy(free) ==> since == |old(disk.history)|)
    ensures FaultFree(disk.script, |src|) && Works(t, j, j.patches[k], src) && j.Target() != j.source && !fromCopy ==>
              (j.source in disk.files <==> j.Roomy(disk.script.space(old(disk.calls))))
    ensures FaultFree(disk.script, |src|) && Works(t, j, j.patches[k], src) && !fromCopy ==>
              !j.Roomy(disk.script.space(old(disk.calls))) ==> CACHE_TEMP_SOURCE !in disk.files
  {
    hide *;
    SaneMeans(t, j, u);
    ghost var f0, n0, script := disk.files, |disk.history|, disk.script;
    var patch := j.patches[k];
    HeldIsProper(t, j, u, f0, if fromCopy then CACHE_TEMP_SOURCE else j.source, src);
    HeldIsThere(t, j, u, f0, if fromCopy then CACHE_TEMP_SOURCE else j.source, src);
    if FaultFree(script, |src|) && Works(t, j, patch, src) {
      FaultFreeForLess(script, |src|);
      FaultFreeMeans(script, |src|);
      WorksMeans(t, j, patch, src);
    }
    UnstoppedIs(t, script, patch, src);
    var a, out, madeCopy;
    a, out, madeCopy, since := WriteTarget(disk, t, j, u, fromCopy, src, patch);
    if a == Fatal {
      EndedMeans(t, j, script, src, f0, n0, disk.history, since);
      return false, since;
    }
    ghost var f, h := disk.files, disk.history;
    ghost var w := if madeCopy || fromCopy then CACHE_TEMP_SOURCE else j.source;
    ok := InstallOutput(disk, t, j, u, w, src, patch, out, madeCopy);
    if madeCopy {
      BackedDone(t, j, script, src, f0, n0, f, h, disk.files, disk.history, since);
      KeptAt(t, j, true, f, disk.files);
    } else {
      since := |disk.history|;
      PristineDone(t, j, script, src, f0, n0, f, h, disk.files, disk.history);
    }
    EndedMeans(t, j, script, src, f0, n0, disk.history, since);
  }

  lemma HeldIsThere(t: Tools, j: Job, u: set<seq<byte>>, f: Files, w: Path, src: seq<byte>)
    requires Holds(t, j, u, f, w, src)
    ensures w in f
  {
    hide Mask;
  }

  lemma KeptAt(t: Tools, j: Job, gone: bool, f: Files, g: Files)
    requires Kept(t, j, gone, f, g) && j.source != j.OutName() && j.source != CACHE_TEMP_SOURCE
    ensures j.source != j.Target() ==> (j.source in f <==> j.source in g)
  {
    hide AtTarget;
  }

  lemma OutputKept(t: Tools, j: Job, f: Files, h: seq<Files>, n: nat)
    requires AllChangeOnly(f, h, n, j.OutName())
    ensures AllKept(t, j, false, f, h, n)
  {
    hide AtTarget;
    OutputApart(j);
    forall i | n <= i < |h| ensures Kept(t, j, false, f, h[i]) {
      assert ChangesOnly(f, h[i], j.OutName());
    }
  }

  lemma RoomyIs(j: Job, free: nat)
    ensures j.Roomy(free) <==> free > 0x4_0000 && free > j.targetSize * 3 / 2
  {}

  /** LoadFileContents, with the retouched entries masked. */
  method Load(disk: Disk, p: Path) returns (r: Option<seq<byte>>)
    modifies disk`calls
    ensures r.Some? ==> r == Loaded(disk.files, p)
    ensures (forall n :: disk.script.ok(n)) ==> r == Loaded(disk.files, p)
  {
    hide Masked;
    var c := disk.Read(p);
    if c == None {
      return None;
    }
    var data := new byte[|c.value|](i requires 0 <= i < |c.value| => c.value[i]);
    assert data[..] == c.value;
    var status, _ := MaskData(data, Some(0));
    r := if status.Matched? then Some(data[..]) else None;
  }

  /** Every listed patch works on the data among u that it is listed for. */
  ghost predicate PatchesWork(t: Tools, j: Job, u: set<seq<byte>>)
  {
    |j.shas| == |j.patches| &&
    forall i, y :: 0 <= i < |j.shas| && y in u && Mask(y).Some? && j.shas[i] == Some(t.sha(Mask(y).value)) ==>
      Works(t, j, j.patches[i], Mask(y).value)
  }

  /** The script lets every call succeed, with room on /cache for the source data. */
  ghost predicate Favourable(j: Job, s: Script, f: Files)
  {
    (forall n :: s.ok(n) && s.takes(n) > 0) &&
    forall n, p :: (p == j.source || p == CACHE_TEMP_SOURCE) && Loaded(f, p).Some? ==>
      s.space(n) >= |Loaded(f, p).value|
  }

  /** Looks for source data with a patch: in the source file, else in the saved copy. */
  method FindSource(disk: Disk, t: Tools, j: Job, ghost u: set<seq<byte>>, loaded: Option<seq<byte>>)
      returns (ok: bool, fromCopy: bool, src: seq<byte>, k: nat)
    requires (loaded.Some? ==> loaded == Loaded(disk.files, j.Target())) && Within(j, u, disk.files)
    modifies disk`calls
    ensures ok ==> k < |j.shas| && j.shas[k] == Some(t.sha(src))
    ensures ok ==> Holds(t, j, u, disk.files, if fromCopy then CACHE_TEMP_SOURCE else j.source, src)
    ensures (forall n :: disk.script.ok(n)) ==>
              (Matches(t, j, disk.files, j.source) || Matches(t, j, disk.files, CACHE_TEMP_SOURCE) ==> ok) &&
              (ok ==> (fromCopy <==> !Matches(t, j, disk.files, j.source)))
  {
    hide Mask, Within, Loaded;
    var source := loaded;
    if loaded == None || j.Target() != j.source {
      source := Load(disk, j.source);
    }
    ok, fromCopy, src, k := false, false, [], 0;
    if source.Some? {
      var i := FindMatchingPatch(j, t.sha(source.value));
      if i >= 0 {
        return true, false, source.value, i;
      }
    }
    fromCopy := true;
    var copy := Load(disk, CACHE_TEMP_SOURCE);
    if copy.Some? {
      var i := FindMatchingPatch(j, t.sha(copy.value));
      if i >= 0 {
        return true, true, copy.value, i;
      }
    }
  }

  /** There is always room for the target, and every write takes something. */
  ghost predicate Spacious(j: Job, s: Script)
  {
    forall n :: j.Roomy(s.space(n)) && s.takes(n) > 0
  }

  /** There is never room for the target. */
  ghost predicate Cramped(j: Job, s: Script)
  {
    forall n :: !j.Roomy(s.space(n))
  }

  /** applypatch. From a safe state, every state it passes through is safe; if it reports success the
      target is done; it succeeds whenever no call fails and the patches are right; and with the target
      done it changes nothing. Files that it does not work on are left alone; with room for the target all
      others are but output and target; without, the source is saved and deleted first. */
  method ApplyPatch(disk: Disk, t: Tools, j: Job, ghost u: set<seq<byte>>) returns (ok: bool)
    requires Sane(t, j, u) && disk.Logged() && AllSafe(t, j, u, disk.history)
    modifies disk
    ensures disk.Logged() && AllSafe(t, j, u, disk.history)
    ensures 0 < |old(disk.history)| && old(disk.history) <= disk.history
    ensures ok ==> AtTarget(t, j, disk.files)
    ensures Favourable(j, disk.script, old(disk.files)) && PatchesWork(t, j, u) && j.targetSha.Some? ==> ok
    ensures AtTarget(t, j, old(disk.files)) && (forall n :: disk.script.ok(n)) ==>
              ok && disk.files == old(disk.files) && disk.history == old(disk.history)
    ensures AllSpared(j, disk.script.open, old(disk.files), disk.history, |old(disk.history)|)
    ensures Spacious(j, disk.script) && PatchesWork(t, j, u) ==>
              AllKept(t, j, false, old(disk.files), disk.history, |old(disk.history)|)
    ensures Unfinished(t, j, old(disk.files)) && (forall n :: disk.script.ok(n)) && Cramped(j, disk.script) ==>
              SavedFirst(j, disk.script, Loaded(old(disk.files), j.source).value, disk.history, |old(disk.history)|)
    ensures Unfinished(t, j, old(disk.files)) && Favourable(j, disk.script, old(disk.files)) && PatchesWork(t, j, u) ==>
              j.targetSha.Some? && j.Target() != j.source && Cramped(j, disk.script) ==> j.source !in disk.files
  {
    hide *;
    LoggedMeans(disk);
    NothingChanged(t, j, disk.script.open, disk.files, disk.history);
    if Unfinished(t, j, disk.files) {
      UnfinishedMeans(t, j, disk.script, disk.files, disk.history);
    }
    AtTargetIs(t, j, disk.files);
    if j.targetSha == None {
      return false;
    }
    SafeNow(t, j, u, disk.history);
    var loaded := Load(disk, j.Target());
    if loaded.Some? && j.targetSha == Some(t.sha(loaded.value)) {
      return true;
    }
    FavourableMeans(j, disk.script, disk.files);
    SaneMeans(t, j, u);
    var fromCopy, src, k;
    ok, fromCopy, src, k := FindSource(disk, t, j, u, loaded);
    if !ok { return; }
    FavourableRoom(t, j, u, disk.script, disk.files, fromCopy, src, k);
    HoldsMeans(t, j, u, disk.files, fromCopy, src);
    WorksUnstopped(t, j, disk.script, j.patches[k], src);
    ghost var since;
    ok, since := GenerateTarget(disk, t, j, u, fromCopy, src, k);
    assert since == |disk.history| ==> disk.history[..since] == disk.history;
  }

  /** The target is not done and the source file can be patched. */
  predicate Unfinished(t: Tools, j: Job, f: Files)
  {
    !AtTarget(t, j, f) && Matches(t, j, f, j.source)
  }

  lemma UnfinishedMeans(t: Tools, j: Job, s: Script, f: Files, h: seq<Files>)
    requires Unfinished(t, j, f) && h != []
    ensures !AtTarget(t, j, f) && Matches(t, j, f, j.source) && Loaded(f, j.source).Some?
    ensures SavedFirst(j, s, Loaded(f, j.source).value, h, |h|)
  {
    hide Mask;
  }

  lemma NothingChanged(t: Tools, j: Job, open: seq<Path>, f: Files, h: seq<Files>)
    ensures AllSpared(j, open, f, h, |h|) && AllKept(t, j, false, f, h, |h|)
  {}

  lemma SafeNow(t: Tools, j: Job, u: set<seq<byte>>, h: seq<Files>)
    requires AllSafe(t, j, u, h) && h != []
    ensures Safe(t, j, h[|h| - 1]) && Within(j, u, h[|h| - 1])
    ensures AtTarget(t, j, h[|h| - 1]) || Matches(t, j, h[|h| - 1], j.source) ||
            Matches(t, j, h[|h| - 1], CACHE_TEMP_SOURCE)
  {
    hide Within, AtTarget, Matches;
  }

  lemma AtTargetIs(t: Tools, j: Job, f: Files)
    ensures AtTarget(t, j, f) <==>
              Loaded(f, j.Target()).Some? && j.targetSha == Some(t.sha(Loaded(f, j.Target()).value))
  {
    hide Loaded;
  }

  lemma FavourableMeans(j: Job, s: Script, f: Files)
    ensures Favourable(j, s, f) ==> forall n :: s.ok(n)
  {}

  lemma HoldsMeans(t: Tools, j: Job, u: set<seq<byte>>, f: Files, fromCopy: bool, src: seq<byte>)
    requires Holds(t, j, u, f, if fromCopy then CACHE_TEMP_SOURCE else j.source, src)
    ensures !fromCopy ==> Loaded(f, j.source) == Some(src)
  {}

  /** Neither room nor writing stop the attempt. */
  lemma WorksUnstopped(t: Tools, j: Job, s: Script, patch: Value, src: seq<byte>)
    ensures Spacious(j, s) ==> forall n :: j.Roomy(s.space(n))
    ensures Cramped(j, s) ==> forall n :: !j.Roomy(s.space(n))
    ensures Spacious(j, s) && Works(t, j, patch, src) ==> Unstopped(t, s, patch, src)
  {
    hide Job.Roomy;
  }

  lemma FavourableRoom(t: Tools, j: Job, u: set<seq<byte>>, s: Script, f: Files, fromCopy: bool, src: seq<byte>, k: nat)
    requires |j.shas| == |j.patches| && k < |j.shas| && j.shas[k] == Some(t.sha(src))
    requires Holds(t, j, u, f, if fromCopy then CACHE_TEMP_SOURCE else j.source, src)
    ensures Favourable(j, s, f) ==> FaultFree(s, |src|)
    ensures PatchesWork(t, j, u) ==> Works(t, j, j.patches[k], src)
  {
    hide Mask, Works;
  }

  /** Any number of runs, each under its own script and cut off by a crash at any point, leaves a safe
      state and spares all other files; with room for the target nothing else but output and target changes. */
  method InterruptedRuns(t: Tools, j: Job, ghost u: set<seq<byte>>, start: Files, scripts: seq<Script>, cuts: seq<nat>)
      returns (f: Files)
    requires Sane(t, j, u) && Safe(t, j, start) && Within(j, u, start) && |scripts| == |cuts|
    ensures Safe(t, j, f) && Within(j, u, f) && Spared(j, [], start, f) && (scripts == [] ==> f == start)
    ensures PatchesWork(t, j, u) && (forall i :: 0 <= i < |scripts| ==> Spacious(j, scripts[i])) ==>
              Kept(t, j, false, start, f)
  {
    hide *;
    f := start;
    NoChange(t, j, f);
    for i := 0 to |scripts|
      invariant Safe(t, j, f) && Within(j, u, f) && Spared(j, [], start, f) && (i == 0 ==> f == start)
      invariant PatchesWork(t, j, u) && (forall k :: 0 <= k < |scripts| ==> Spacious(j, scripts[k])) ==>
                  Kept(t, j, false, start, f)
    {
      var disk := new Disk(scripts[i], f);
      SafeStarts(disk, t, j, u);
      var ok := ApplyPatch(disk, t, j, u);
      var k := cuts[i] % |disk.history|;
      OneRun(t, j, u, scripts[i], f, disk.history, k);
      SparedChain(j, [], start, f, disk.history[k]);
      if Kept(t, j, false, start, f) && Kept(t, j, false, f, disk.history[k]) {
        KeptChain(t, j, start, f, disk.history[k]);
      }
      f := disk.history[k];
    }
  }

  lemma SafeStarts(disk: Disk, t: Tools, j: Job, u: set<seq<byte>>)
    requires disk.history == [disk.files] && Safe(t, j, disk.files) && Within(j, u, disk.files)
    ensures disk.Logged() && AllSafe(t, j, u, disk.history)
  {
    hide Safe, Within;
  }

  lemma NoChange(t: Tools, j: Job, f: Files)
    ensures Spared(j, [], f, f) && Kept(t, j, false, f, f)
  {
    hide Expendable, AtTarget;
  }

  /** What a crash after any state of a run leaves. */
  lemma OneRun(t: Tools, j: Job, u: set<seq<byte>>, s: Script, f: Files, h: seq<Files>, k: nat)
    requires k < |h| && h[0] == f && AllSafe(t, j, u, h) && AllSpared(j, s.open, f, h, 1)
    ensures Safe(t, j, h[k]) && Within(j, u, h[k]) && Spared(j, [], f, h[k])
    ensures AllKept(t, j, false, f, h, 1) ==> Kept(t, j, false, f, h[k])
  {
    hide Safe, Within, Expendable, AtTarget;
    if k > 0 {
      assert Spared(j, s.open, f, h[k]);
    }
  }

  /** After any interrupted runs, one run without faults reaches the target, and another one changes
      nothing. */
  method RunToTheEnd(t: Tools, j: Job, ghost u: set<seq<byte>>, start: Files, scripts: seq<Script>, cuts: seq<nat>,
                     last: Script) returns (f: Files, g: Files, h: Files)
    requires Sane(t, j, u) && Safe(t, j, start) && Within(j, u, start) && |scripts| == |cuts|
    requires PatchesWork(t, j, u) && j.targetSha.Some?
    ensures Safe(t, j, f) && Within(j, u, f) && Within(j, u, g)
    ensures Favourable(j, last, f) ==> AtTarget(t, j, g) && h == g
    ensures Spared(j, [], start, f) && Spared(j, [], start, g) && (scripts == [] ==> f == start)
    ensures (forall i :: 0 <= i < |scripts| ==> Spacious(j, scripts[i])) ==> Kept(t, j, false, start, f)
    ensures Spacious(j, last) ==> Kept(t, j, false, f, g)
    ensures Unfinished(t, j, f) && Favourable(j, last, f) && j.Target() != j.source && Cramped(j, last) ==>
              j.source !in g
  {
    hide *;
    f := InterruptedRuns(t, j, u, start, scripts, cuts);
    FavourableMeans(j, last, f);
    var disk := new Disk(last, f);
    SafeStarts(disk, t, j, u);
    var ok := ApplyPatch(disk, t, j, u);
    LoggedMeans(disk);
    g := disk.files;
    OneRun(t, j, u, last, f, disk.history, |disk.history| - 1);
    SparedChain(j, [], start, f, g);
    var again := new Disk(last, g);
    SafeStarts(again, t, j, u);
    ok := ApplyPatch(again, t, j, u);
    h := again.files;
  }
}
