/** Files that survive a crash, and the system calls of applypatch on them. Every system call may
    fail or, for a write, stop short; a script decides. The history holds every state that a crash
    could leave behind. */
module Disk {
  import opened Bytes

  type Path = string
  type Files = map<Path, seq<byte>>

  /** What the environment does: whether the n-th call succeeds, how much the n-th write takes, how
      much space the n-th query reports, and the files that processes have open. */
  datatype Script = Script(ok: nat -> bool, takes: nat -> nat, space: nat -> nat, open: seq<Path>)

  /** p is the name of a file directly in directory d. */
  predicate DirectlyIn(p: Path, d: Path)
  {
    d + "/" <= p && '/' !in p[|d| + 1..]
  }

  /** The file q is the same in a and b. */
  predicate SameAt(a: Files, b: Files, q: Path)
  {
    (q in a <==> q in b) && (q in a ==> a[q] == b[q])
  }

  /** b is a with at most the file p changed. */
  ghost predicate ChangesOnly(a: Files, b: Files, p: Path)
  {
    forall q :: q != p ==> (q in a <==> q in b) && (q in a ==> a[q] == b[q])
  }

  /** From the n-th on, every state of the history is a with at most the file p changed. */
  ghost predicate AllChangeOnly(a: Files, h: seq<Files>, n: nat, p: Path)
  {
    forall i :: n <= i < |h| ==> ChangesOnly(a, h[i], p)
  }

  class Disk {
    const script: Script
    var files: Files
    var calls: nat
    var history: seq<Files>

    constructor (script: Script, files: Files)
      ensures this.script == script && this.files == files && history == [files]
    {
      this.script, this.files, calls, history := script, files, 0, [files];
    }

    /** The files are the last state of the history. */
    ghost predicate Logged()
      reads `files, `history
    {
      history != [] && history[|history| - 1] == files
    }

    method Call() returns (ok: bool)
      modifies this`calls
      ensures ok == script.ok(old(calls)) && calls == old(calls) + 1
    {
      ok, calls := script.ok(calls), calls + 1;
    }

    method FreeSpace() returns (n: nat)
      modifies this`calls
      ensures n == script.space(old(calls)) && calls == old(calls) + 1
    {
      n, calls := script.space(calls), calls + 1;
    }

    /** opendir and readdir: the regular files of a directory, in no particular order. */
    method List(d: Path) returns (r: Option<seq<Path>>)
      modifies this`calls
      ensures r.Some? ==> forall p :: p in r.value <==> p in files && DirectlyIn(p, d)
      ensures (forall n :: script.ok(n)) ==> r.Some?
      ensures calls == old(calls) + 1
    {
      var ok := Call();
      if !ok {
        return None;
      }
      var rest := set p | p in files && DirectlyIn(p, d);
      ghost var all := rest;
      var names := [];
      while rest != {}
        invariant rest <= all && forall p :: p in names <==> p in all && p !in rest
        decreases rest
      {
        var p :| p in rest;
        names, rest := names + [p], rest - {p};
      }
      r := Some(names);
    }

    /** Reads a whole file. */
    method Read(p: Path) returns (r: Option<seq<byte>>)
      modifies this`calls
      ensures r.Some? ==> p in files && r.value == files[p]
      ensures (forall n :: script.ok(n)) && p in files ==> r.Some?
    {
      var ok := Call();
      r := if ok && p in files then Some(files[p]) else None;
    }

    /** Removes a file; the caller does not look at the result. */
    method Unlink(p: Path)
      requires Logged()
      modifies this
      ensures Logged() && history == old(history) + [files]
      ensures calls == old(calls) + 1 && files == if script.ok(old(calls)) then old(files) - {p} else old(files)
    {
      var ok := Call();
      if ok {
        files := files - {p};
      }
      history := history + [files];
    }

    /** Replaces p by q in one step. */
    method Rename(q: Path, p: Path) returns (ok: bool)
      requires Logged()
      modifies this
      ensures Logged() && history == old(history) + [files]
      ensures ok ==> q in old(files) && files == (old(files) - {q})[p := old(files)[q]]
      ensures !ok ==> files == old(files)
      ensures (forall n :: script.ok(n)) && q in old(files) ==> ok
    {
      ok := Call();
      ok := ok && q in files;
      if ok {
        files := (files - {q})[p := files[q]];
      }
      history := history + [files];
    }

    /** Opens p for writing, which empties it. */
    method Truncate(p: Path) returns (ok: bool)
      requires Logged()
      modifies this
      ensures Logged() && history == old(history) + [files]
      ensures files == if ok then old(files)[p := []] else old(files)
      ensures (forall n :: script.ok(n)) ==> ok
    {
      ok := Call();
      if ok {
        files := files[p := []];
      }
      history := history + [files];
    }

    /** FileSink: writes data to p piece by piece, until it is complete or a write takes nothing.
        Every intermediate state of the file is recorded. */
    method WriteAll(p: Path, data: seq<byte>) returns (ok: bool)
      requires Logged() && p in files && files[p] == []
      modifies this
      ensures Logged() && old(history) <= history
      ensures forall i :: |old(history)| <= i < |history| ==>
                ChangesOnly(old(files), history[i], p) && p in history[i] && history[i][p] <= data
      ensures ok ==> files == old(files)[p := data]
      ensures ChangesOnly(old(files), files, p)
      ensures (forall n :: script.takes(n) > 0) ==> ok
    {
      var done := 0;
      while done < |data|
        invariant Logged() && old(history) <= history && 0 <= done <= |data|
        invariant files == old(files)[p := data[..done]]
        invariant forall i :: |old(history)| <= i < |history| ==>
                    ChangesOnly(old(files), history[i], p) && p in history[i] && history[i][p] <= data
      {
        var n := script.takes(calls);
        calls := calls + 1;
        if n == 0 {
          return false;
        }
        done := if n > |data| - done then |data| else done + n;
        files := files[p := data[..done]];
        history := history + [files];
      }
      ok := true;
      assert data[..done] == data;
    }
  }
}
