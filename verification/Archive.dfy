/** Runs of backups, manifest deletions and garbage collections over one blob directory. */
module Archive {
  import opened Bytes
  import opened Entries
  import opened Backup
  import opened Restore
  import opened Collect

  /** A backup, with the calls that fail; the deletion of a manifest; a collection given the manifests
      named, with what the directory scan lists. */
  datatype Op =
    | Make(name: string, tree: Listing, excludes: set<string>, works: nat -> bool, short: nat -> nat)
    | Drop(name: string)
    | Clean(order: seq<string>, listing: seq<string>, removes: nat -> bool)

  /** The manifests on disk, complete or cut short by a failure, and the trees of the complete ones. */
  datatype State = State(blobs: Blobs, manifests: map<string, string>, recorded: map<string, Listing>)

  /** A tree whose manifest can be read back. */
  predicate Recordable(h: Hash, l: Listing) {
    Tidy(l) && StorableList(h, ".", l)
  }

  ghost predicate Complete(dir: string, h: Hash, s: State, n: string)
    requires n in s.recorded
  {
    n in s.manifests && s.manifests[n] == HEADER + ListText(h, ".", s.recorded[n]) &&
    Recordable(h, s.recorded[n]) && Held(dir, h, s.blobs, s.recorded[n])
  }

  /** What every operation keeps, for backups of the contents u. */
  ghost predicate Inv(dir: string, h: Hash, u: set<seq<byte>>, s: State) {
    Addressed(dir, h, u, s.blobs) &&
    (forall n :: n in s.manifests ==> HEADER <= s.manifests[n]) &&
    forall n :: n in s.recorded ==> Complete(dir, h, s, n)
  }

  lemma OwnIsNotTooNew(text: string)
    requires HEADER <= text
    ensures !TooNew(Some(text))
  {
    OwnHeader(text[|HEADER|..]);
    assert text == HEADER + text[|HEADER|..];
  }

  /** The state with a manifest of that name overwritten. */
  function Forget(s: State, name: string): State {
    s.(manifests := s.manifests - {name}, recorded := s.recorded - {name})
  }

  lemma ForgetKeeps(dir: string, h: Hash, u: set<seq<byte>>, s: State, name: string)
    requires Inv(dir, h, u, s)
    ensures Inv(dir, h, u, Forget(s, name))
  {
    var f := Forget(s, name);
    forall n | n in f.recorded
      ensures Complete(dir, h, f, n)
    {
      assert Complete(dir, h, s, n);
    }
  }

  lemma GrowKeeps(dir: string, h: Hash, u: set<seq<byte>>, s: State, blobs: Blobs)
    requires h.Sized() && Inv(dir, h, u, s) && Kept(s.blobs, blobs) && Addressed(dir, h, u, blobs)
    ensures Inv(dir, h, u, s.(blobs := blobs))
  {
    hide Addressed, Kept, Held, Recordable;
    var g := s.(blobs := blobs);
    forall n | n in g.recorded
      ensures Complete(dir, h, g, n)
    {
      assert Complete(dir, h, s, n);
      HeldKept(dir, h, s.blobs, blobs, s.recorded[n]);
    }
  }

  lemma AddKeeps(dir: string, h: Hash, u: set<seq<byte>>, s: State, name: string, text: string, l: Listing)
    requires Inv(dir, h, u, s) && name !in s.manifests && HEADER <= text
    ensures Inv(dir, h, u, s.(manifests := s.manifests[name := text]))
    ensures text == HEADER + ListText(h, ".", l) && Recordable(h, l) && Held(dir, h, s.blobs, l) ==>
              Inv(dir, h, u, s.(manifests := s.manifests[name := text], recorded := s.recorded[name := l]))
  {
    hide Addressed, Held, Recordable, ListText;
    var a := s.(manifests := s.manifests[name := text]);
    var b := a.(recorded := a.recorded[name := l]);
    forall n | n in s.recorded
      ensures n != name && Complete(dir, h, a, n) && Complete(dir, h, b, n)
    {
      assert Complete(dir, h, s, n);
    }
  }

  /** The contents that an operation stores. */
  function Saved(op: Op): set<seq<byte>> {
    if op.Make? then Contents(Pruned(".", op.tree, op.excludes)) else {}
  }

  /** The contents that a run stores. */
  function Universe(ops: seq<Op>): set<seq<byte>> {
    if ops == [] then {} else Saved(ops[0]) + Universe(ops[1..])
  }

  lemma {:induction false} InUniverse(ops: seq<Op>, i: nat)
    requires i < |ops|
    ensures Saved(ops[i]) <= Universe(ops)
  {
    if i > 0 {
      InUniverse(ops[1..], i - 1);
    }
  }

  method BackUpTo(dir: string, h: Hash, ghost u: set<seq<byte>>, s: State, op: Op) returns (r: State)
    requires op.Make? && h.Lawful(u) && Saved(op) <= u && Inv(dir, h, u, s)
    ensures Inv(dir, h, u, r)
    ensures forall n :: n in r.recorded && n != op.name ==> n in s.recorded && r.recorded[n] == s.recorded[n]
    ensures forall n :: n in s.recorded && n != op.name ==> n in r.recorded
    ensures op.name in r.recorded ==>
              r.recorded[op.name] == Pruned(".", op.tree, op.excludes) && Recordable(h, r.recorded[op.name])
    ensures (forall k :: op.works(k)) && Recordable(h, Pruned(".", op.tree, op.excludes)) ==> op.name in r.recorded
  {
    var store := new Store(dir, h, op.excludes, op.works, op.short, s.blobs, u);
    assert store.Sound() && h.Sized();
    hide Inv, Recordable, Addressed, Kept, Held, Pruned, ListText;
    ForgetKeeps(dir, h, u, s, op.name);
    InvMeans(dir, h, u, s);
    var ok := store.BackUp(op.tree);
    GrowKeeps(dir, h, u, Forget(s, op.name), store.blobs);
    var t := Forget(s, op.name).(blobs := store.blobs);
    var l := Pruned(".", op.tree, op.excludes);
    AddKeeps(dir, h, u, t, op.name, store.text, l);
    r := t.(manifests := t.manifests[op.name := store.text]);
    if ok && Recordable(h, l) {
      r := r.(recorded := r.recorded[op.name := l]);
    }
  }

  lemma InvMeans(dir: string, h: Hash, u: set<seq<byte>>, s: State)
    requires Inv(dir, h, u, s)
    ensures Addressed(dir, h, u, s.blobs)
  {}

  lemma CleanKeeps(dir: string, h: Hash, u: set<seq<byte>>, s: State, order: seq<string>, ms: seq<Option<string>>,
                   left: Blobs)
    requires Inv(dir, h, u, s) && |ms| == |order|
    requires forall i :: 0 <= i < |ms| ==>
              ms[i] == if order[i] in s.manifests then Some(s.manifests[order[i]]) else None
    requires forall n :: n in s.manifests ==> n in order
    requires forall p :: p in left ==> p in s.blobs && left[p] == s.blobs[p]
    requires Uses(dir, ms).Found? && forall p :: p in s.blobs && p in Uses(dir, ms).used ==> p in left
    ensures Inv(dir, h, u, s.(blobs := left))
  {
    hide Uses, TooNew, Held, ListText, Recordable;
    var t := s.(blobs := left);
    forall i | 0 <= i < |ms|
      ensures !TooNew(ms[i])
    {
      if order[i] in s.manifests {
        OwnIsNotTooNew(s.manifests[order[i]]);
      } else {
        NoneIsNotTooNew();
      }
    }
    forall n | n in s.recorded
      ensures Complete(dir, h, t, n)
    {
      assert Complete(dir, h, s, n);
      var k :| 0 <= k < |order| && order[k] == n;
      RecordableMeans(h, s.recorded[n]);
      StorableIsLegible(h, ".", s.recorded[n]);
      GcKeeps(dir, h, ms, k, s.recorded[n], s.blobs, left);
    }
  }

  lemma NoneIsNotTooNew()
    ensures !TooNew(None)
  {}

  lemma RecordableMeans(h: Hash, l: Listing)
    ensures Recordable(h, l) <==> Tidy(l) && StorableList(h, ".", l)
  {}

  /** The manifests a collection is given, by name. */
  function Given(s: State, order: seq<string>): seq<Option<string>> {
    seq(|order|, i requires 0 <= i < |order| => if order[i] in s.manifests then Some(s.manifests[order[i]]) else None)
  }

  /** A collection given all manifests keeps everything recorded; what no manifest uses goes, if every
      manifest can be read. */
  method CollectGarbage(dir: string, h: Hash, ghost u: set<seq<byte>>, s: State, op: Op) returns (r: State)
    requires op.Clean? && Inv(dir, h, u, s) && forall n :: n in s.manifests ==> n in op.order
    ensures Inv(dir, h, u, r) && r.manifests == s.manifests && r.recorded == s.recorded
    ensures forall p :: p in r.blobs ==> p in s.blobs
    ensures var used := Uses(dir, Given(s, op.order));
            if !used.Found? then r.blobs == s.blobs
            else (forall n :: op.removes(n)) ==> forall p :: p in op.listing && p !in used.used ==> p !in r.blobs
  {
    hide Inv, Uses;
    var ms := Given(s, op.order);
    var left := Gc(dir, ms, op.listing, s.blobs, op.removes);
    r := s.(blobs := left);
    if Uses(dir, ms).Found? {
      CleanKeeps(dir, h, u, s, op.order, ms, left);
    }
  }

  /** The trees recorded after an operation that does not fail. */
  function After(h: Hash, op: Op, before: map<string, Listing>): map<string, Listing> {
    match op
    case Make(name, tree, ex, _, _) =>
      var l := Pruned(".", tree, ex);
      if Recordable(h, l) then before[name := l] else before - {name}
    case Drop(name) => before - {name}
    case Clean(_, _, _) => before
  }

  function Expected(h: Hash, ops: seq<Op>, before: map<string, Listing>): map<string, Listing> {
    if ops == [] then before else After(h, ops[|ops| - 1], Expected(h, ops[..|ops| - 1], before))
  }

  ghost predicate NoFailures(ops: seq<Op>) {
    forall i :: 0 <= i < |ops| && ops[i].Make? ==> forall k :: ops[i].works(k)
  }

  /** Any sequence of operations, with any failures: each manifest that was completed and not deleted or
      overwritten since still restores exactly the tree it recorded; without failures those are the
      manifests one expects. The sum need only tell apart the contents of the run. */
  method Run(dir: string, h: Hash, ops: seq<Op>, root: Item) returns (s: State)
    requires h.Lawful(Universe(ops)) && root.body.DirBody?
    ensures forall n :: n in s.recorded ==>
              n in s.manifests &&
              var (ok, fs) := Restored(dir, s.blobs, s.manifests[n], map[[] := root]);
              ok && IsTree(fs, root, s.recorded[n])
    ensures NoFailures(ops) ==> s.recorded == Expected(h, ops, map[])
  {
    hide *;
    ghost var u := Universe(ops);
    s := State(map[], map[], map[]);
    InvStarts(dir, h, u);
    ExpectedNothing(h, ops);
    for i := 0 to |ops|
      invariant Inv(dir, h, u, s)
      invariant NoFailures(ops) ==> s.recorded == Expected(h, ops[..i], map[])
    {
      InUniverse(ops, i);
      ExpectedStep(h, ops, i);
      s := Perform(dir, h, u, s, ops[i]);
    }
    assert ops[..|ops|] == ops;
    AllRestored(dir, h, u, s, root);
  }

  /** One operation; a collection that is not given all manifests is not part of a run. */
  method Perform(dir: string, h: Hash, ghost u: set<seq<byte>>, s: State, op: Op) returns (r: State)
    requires h.Lawful(u) && Saved(op) <= u && Inv(dir, h, u, s)
    ensures Inv(dir, h, u, r)
    ensures (op.Make? ==> forall k :: op.works(k)) ==> r.recorded == After(h, op, s.recorded)
  {
    hide Inv, Recordable, Pruned, Hash.Lawful;
    match op {
      case Make(_, _, _, _, _) =>
        r := BackUpTo(dir, h, u, s, op);
        if forall k :: op.works(k) {
          assert r.recorded == After(h, op, s.recorded);
        }
      case Drop(name) =>
        ForgetKeeps(dir, h, u, s, name);
        r := Forget(s, name);
      case Clean(order, _, _) =>
        r := s;
        if forall n :: n in s.manifests ==> n in order {
          r := CollectGarbage(dir, h, u, s, op);
        }
    }
  }

  lemma InvStarts(dir: string, h: Hash, u: set<seq<byte>>)
    ensures Inv(dir, h, u, State(map[], map[], map[]))
  {}

  lemma ExpectedNothing(h: Hash, ops: seq<Op>)
    ensures Expected(h, ops[..0], map[]) == map[]
  {}

  lemma ExpectedStep(h: Hash, ops: seq<Op>, i: nat)
    requires i < |ops|
    ensures Expected(h, ops[..i + 1], map[]) == After(h, ops[i], Expected(h, ops[..i], map[]))
    ensures NoFailures(ops) && ops[i].Make? ==> forall k :: ops[i].works(k)
  {
    hide After;
    assert ops[..i + 1][..i] == ops[..i] && ops[..i + 1][i] == ops[i];
  }

  /** Whatever is recorded can be restored. */
  lemma AllRestored(dir: string, h: Hash, u: set<seq<byte>>, s: State, root: Item)
    requires Inv(dir, h, u, s) && root.body.DirBody?
    ensures forall n :: n in s.recorded ==>
              n in s.manifests &&
              var (ok, fs) := Restored(dir, s.blobs, s.manifests[n], map[[] := root]);
              ok && IsTree(fs, root, s.recorded[n])
  {
    hide Addressed, IsTree, Restored, Held, ListText;
    forall n | n in s.recorded
      ensures n in s.manifests
      ensures var (ok, fs) := Restored(dir, s.blobs, s.manifests[n], map[[] := root]);
              ok && IsTree(fs, root, s.recorded[n])
    {
      assert Complete(dir, h, s, n);
      RestoreUndoesBackup(dir, h, s.blobs, s.recorded[n], root);
    }
  }
}
