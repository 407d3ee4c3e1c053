/** Restoring a backup (the 'x' branch of dedupe_main) and its round trip with the backup. */
module Restore {
  import opened Bytes
  import opened Manifest
  import opened Entries
  import opened Backup

  datatype Body = FileBody(content: seq<byte>) | DirBody | LinkBody(to: string)

  /** What restoring sets; a link has no mode of its own. */
  datatype Item = Item(body: Body, mode: Option<int>, uid: int, gid: int, selabel: string)

  type Fs = map<seq<string>, Item>

  function Component(c: string): seq<string> {
    if c == "" || c == "." then [] else [c]
  }

  /** The components of a path. */
  function Resolve(path: string): seq<string> {
    var k := Next(path, '/', 0);
    if k == |path| then Component(path) else Component(path[..k]) + Resolve(path[k + 1..])
  }

  predicate HasParent(fs: Fs, p: seq<string>) {
    p != [] && p[..|p| - 1] in fs && fs[p[..|p| - 1]].body.DirBody?
  }

  function Owned(i: Item, e: Entry): Item {
    i.(uid := e.uid, gid := e.gid, selabel := e.selabel)
  }

  /** One manifest line; None where the restore stops. A link or directory that cannot be made is passed
      over, and what is there instead gets the owner and label. */
  function Applied(dir: string, blobs: Blobs, e: Entry, fs: Fs): Option<Fs> {
    var p := Resolve(e.name);
    match e.kind
    case File(key, _) =>
      var blob := dir + "/" + key;
      if blob !in blobs || !HasParent(fs, p) || (p in fs && !fs[p].body.FileBody?) then None
      else Some(fs[p := Item(FileBody(blobs[blob]), Some(e.mode), e.uid, e.gid, e.selabel)])
    case Link(to) =>
      if p in fs then Some(fs[p := Owned(fs[p], e)])
      else if HasParent(fs, p) then Some(fs[p := Item(LinkBody(to), None, e.uid, e.gid, e.selabel)])
      else Some(fs)
    case Dir =>
      if p in fs then Some(fs[p := Owned(fs[p], e).(mode := Some(e.mode))])
      else if HasParent(fs, p) then Some(fs[p := Item(DirBody, Some(e.mode), e.uid, e.gid, e.selabel)])
      else Some(fs)
    case Unknown => None
  }

  /** Whatever was there: if a line can be applied, and what it names is there afterwards, that has the owner and
      label of the line and, unless it is for a link, its mode; nothing else changes. */
  lemma AppliedSets(dir: string, blobs: Blobs, e: Entry, fs: Fs, q: seq<string>)
    requires Applied(dir, blobs, e, fs).Some?
    ensures var p, now := Resolve(e.name), Applied(dir, blobs, e, fs).value;
            (q != p ==> (q in fs <==> q in now) && (q in fs ==> fs[q] == now[q])) &&
            (p in now ==>
              now[p].uid == e.uid && now[p].gid == e.gid && now[p].selabel == e.selabel &&
              (!e.kind.Link? ==> now[p].mode == Some(e.mode)) &&
              (p in fs && !e.kind.File? ==> now[p].body == fs[p].body) &&
              (p !in fs ==> now[p].body == match e.kind
                                           case File(key, _) => FileBody(blobs[dir + "/" + key])
                                           case Link(to) => LinkBody(to)
                                           case _ => DirBody))
  {
    hide Resolve, HasParent;
  }

  /** The remaining lines; on a failure what was restored stays. */
  function Lines(dir: string, blobs: Blobs, version: int, text: string, fs: Fs): (bool, Fs)
    decreases |text|
  {
    if text == "" then (true, fs)
    else
      var n := LineLength(text);
      var e := Parsed(version, text[..n]);
      if e == None then (false, fs)
      else
        var next := Applied(dir, blobs, e.value, fs);
        if next == None then (false, fs) else Lines(dir, blobs, version, text[n..], next.value)
  }

  function Restored(dir: string, blobs: Blobs, text: string, fs: Fs): (bool, Fs) {
    var (version, body) := Opened(text);
    if version > 2 then (false, fs) else Lines(dir, blobs, version, body, fs)
  }

  /** The 'x' branch, on an open manifest. */
  method Extract(dir: string, blobs: Blobs, text: string, out: Fs) returns (ok: bool, fs: Fs)
    ensures (ok, fs) == Restored(dir, blobs, text, out)
  {
    hide Applied, Opened;
    fs := out;
    var (version, body) := Opened(text);
    if version > 2 {
      return false, fs;
    }
    var rest := body;
    while rest != ""
      invariant Lines(dir, blobs, version, body, out) == Lines(dir, blobs, version, rest, fs)
      decreases |rest|
    {
      var n := LineLength(rest);
      var e := ReadEntry(version, rest[..n]);
      if e == None {
        return false, fs;
      }
      var next := Applied(dir, blobs, e.value, fs);
      if next == None {
        return false, fs;
      }
      fs, rest := next.value, rest[n..];
    }
    ok := true;
  }

  // ----- the tree a backup recorded -----

  function ItemOf(t: Tree): Item
    requires !t.Special?
  {
    match t
    case Regular(st, x) => Item(FileBody(x), Some(PermBits(st.mode)), st.uid, st.gid, st.selabel)
    case Folder(st, _) => Item(DirBody, Some(PermBits(st.mode)), st.uid, st.gid, st.selabel)
    case Symlink(st, to) => Item(LinkBody(to), None, st.uid, st.gid, st.selabel)
  }

  /** The item is what the node of the tree was, with its permissions, owner and label. */
  ghost predicate Restores(i: Item, t: Tree) {
    !t.Special? && i.uid == t.stat.uid && i.gid == t.stat.gid && i.selabel == t.stat.selabel &&
    match t
    case Regular(st, x) => i.body == FileBody(x) && i.mode.Some? && SamePermissions(i.mode.value, st.mode)
    case Folder(st, _) => i.body == DirBody && i.mode.Some? && SamePermissions(i.mode.value, st.mode)
    case Symlink(_, to) => i.body == LinkBody(to)
  }

  lemma ItemRestores(t: Tree)
    requires !t.Special?
    ensures Restores(ItemOf(t), t)
  {
    hide PermBits, SamePermissions;
    if !t.Symlink? {
      PermBitsAre(t.stat.mode);
    }
  }

  /** The node at a path of a tree. */
  function NodeAt(l: Listing, p: seq<string>): Option<Tree>
    decreases l
  {
    match l
    case End => None
    case More(n, t, rest) =>
      if p == [] || p[0] != n then NodeAt(rest, p)
      else if |p| == 1 then Some(t)
      else if t.Folder? then NodeAt(t.entries, p[1..])
      else None
  }

  predicate Names(l: Listing, n: string) {
    match l
    case End => false
    case More(m, _, rest) => m == n || Names(rest, n)
  }

  /** Distinct proper file names, no special files. */
  predicate Tidy(l: Listing) {
    match l
    case End => true
    case More(n, t, rest) =>
      n != "" && n != "." && '/' !in n && !Names(rest, n) && !t.Special? && Tidy(rest) &&
      (t.Folder? ==> Tidy(t.entries))
  }

  /** No directory has two entries of the same name. */
  predicate Distinct(l: Listing) {
    match l
    case End => true
    case More(n, t, rest) => !Names(rest, n) && Distinct(rest) && (t.Folder? ==> Distinct(t.entries))
  }

  /** The path leads through a name that a backup leaves out. */
  predicate LeftOut(path: string, p: seq<string>, ex: set<string>)
    decreases |p|
  {
    p != [] &&
    var next := path + "/" + p[0];
    p[0] == "." || p[0] == ".." || next in ex || LeftOut(next, p[1..], ex)
  }

  /** The nodes are the same but for the entries of a directory. */
  predicate SameNode(t: Tree, u: Tree) {
    if t.Folder? then u.Folder? && t.stat == u.stat else t == u
  }

  /** What a backup records: every node of the tree that is neither special nor excluded, nor below an excluded
      one, at its path. */
  lemma {:induction false} RecordedExactly(path: string, l: Listing, ex: set<string>, p: seq<string>)
    requires Distinct(l)
    ensures var t, u := NodeAt(l, p), NodeAt(Pruned(path, l, ex), p);
            (u.Some? <==> t.Some? && !t.value.Special? && !LeftOut(path, p, ex)) &&
            (u.Some? ==> SameNode(t.value, u.value))
    decreases l
  {
    if l.More? {
      RecordedExactly(path, l.rest, ex, p);
      if p != [] && p[0] == l.name {
        NotNamed(l.rest, p);
        if |p| == 1 {
          assert p[1..] == [];
        } else if l.node.Folder? {
          RecordedExactly(path + "/" + l.name, l.node.entries, ex, p[1..]);
        }
      }
    }
  }

  /** Every line of the tree can be stored. */
  predicate StorableList(h: Hash, path: string, l: Listing)
    decreases l
  {
    match l
    case End => true
    case More(n, t, rest) => StorableNode(h, path + "/" + n, t) && StorableList(h, path, rest)
  }

  predicate StorableNode(h: Hash, path: string, t: Tree)
    decreases t
  {
    !t.Special? && Storable(EntryFor(h, path, t), t.stat.ctime) &&
    (t.Folder? ==> StorableList(h, path, t.entries))
  }

  /** The tree laid over the files. */
  function Laid(fs: Fs, p: seq<string>, l: Listing): Fs
    requires Tidy(l)
    decreases l
  {
    match l
    case End => fs
    case More(n, t, rest) => Laid(LaidNode(fs, p + [n], t), p, rest)
  }

  function LaidNode(fs: Fs, p: seq<string>, t: Tree): Fs
    requires !t.Special? && (t.Folder? ==> Tidy(t.entries))
    decreases t
  {
    var fs' := fs[p := ItemOf(t)];
    if t.Folder? then Laid(fs', p, t.entries) else fs'
  }

  /** q keeps its item, or lack of one. */
  ghost predicate SameAt(a: Fs, b: Fs, q: seq<string>) {
    (q in a <==> q in b) && (q in a ==> a[q] == b[q])
  }

  ghost predicate Under(p: seq<string>, q: seq<string>) {
    p <= q && p != q
  }

  lemma {:induction false} NotNamed(l: Listing, p: seq<string>)
    requires p == [] || !Names(l, p[0])
    ensures NodeAt(l, p) == None
  {
    if l.More? {
      NotNamed(l.rest, p);
    }
  }

  /** Laying a tree puts every node at its path and changes nothing else. */
  lemma {:induction false} LaidAt(fs: Fs, p: seq<string>, l: Listing, q: seq<string>)
    requires Tidy(l)
    ensures Under(p, q) && NodeAt(l, q[|p|..]).Some? ==>
              var t := NodeAt(l, q[|p|..]).value; !t.Special? && q in Laid(fs, p, l) && Laid(fs, p, l)[q] == ItemOf(t)
    ensures !(Under(p, q) && NodeAt(l, q[|p|..]).Some?) ==> SameAt(fs, Laid(fs, p, l), q)
    decreases l
  {
    if l.More? {
      var p' := p + [l.name];
      var mid := LaidNode(fs, p', l.node);
      LaidNodeAt(fs, p', l.node, q);
      LaidAt(mid, p, l.rest, q);
      if Under(p, q) {
        var r := q[|p|..];
        if r[0] == l.name {
          NotNamed(l.rest, r);
          assert p' <= q;
          assert r[1..] == q[|p'|..];
        } else {
          assert q[|p|] != p'[|p|];
        }
      }
    }
  }

  lemma {:induction false} LaidNodeAt(fs: Fs, p: seq<string>, t: Tree, q: seq<string>)
    requires !t.Special? && (t.Folder? ==> Tidy(t.entries))
    ensures q == p ==> q in LaidNode(fs, p, t) && LaidNode(fs, p, t)[q] == ItemOf(t)
    ensures Under(p, q) && t.Folder? && NodeAt(t.entries, q[|p|..]).Some? ==>
              var u := NodeAt(t.entries, q[|p|..]).value;
              !u.Special? && q in LaidNode(fs, p, t) && LaidNode(fs, p, t)[q] == ItemOf(u)
    ensures q != p && !(Under(p, q) && t.Folder? && NodeAt(t.entries, q[|p|..]).Some?) ==>
              SameAt(fs, LaidNode(fs, p, t), q)
    decreases t
  {
    if t.Folder? {
      LaidAt(fs[p := ItemOf(t)], p, t.entries, q);
    }
  }

  // ----- restoring what a backup wrote -----

  lemma ResolveStep(full: string, first: string, rest: string)
    requires full == first + "/" + rest && '/' !in first
    ensures Resolve(full) == Component(first) + Resolve(rest)
  {
    hide Component;
    NextAfter("", first, rest, 0, '/');
    assert full == "" + first + ['/'] + rest;
    assert full[..|first|] == first && full[|first| + 1..] == rest;
  }

  lemma ResolveLeaf(n: string)
    requires '/' !in n
    ensures Resolve(n) == Component(n)
  {
    NextAbsent(n, '/', 0);
  }

  lemma {:induction false} ResolveChild(path: string, n: string)
    requires n != "" && n != "." && '/' !in n
    ensures Resolve(path + "/" + n) == Resolve(path) + [n]
    decreases |path|
  {
    hide Resolve, Next;
    var full := path + "/" + n;
    var k := Next(path, '/', 0);
    NextFound(path, '/', 0);
    if k == |path| {
      assert path[0..k] == path;
      ResolveStep(full, path, n);
      ResolveLeaf(path);
      ResolveLeaf(n);
    } else {
      var first, tail := path[..k], path[k + 1..];
      assert path == first + "/" + tail;
      assert full == first + "/" + (tail + "/" + n);
      ResolveStep(full, first, tail + "/" + n);
      ResolveStep(path, first, tail);
      ResolveChild(tail, n);
      assert Component(first) + (Resolve(tail) + [n]) == (Component(first) + Resolve(tail)) + [n];
    }
  }

  /** Nothing is at p or below it. */
  ghost predicate FreshAt(fs: Fs, p: seq<string>) {
    forall q :: q in fs ==> !(p <= q)
  }

  /** Nothing is where the entries of l will go. */
  ghost predicate Fresh(fs: Fs, p: seq<string>, l: Listing) {
    forall q :: q in fs && Under(p, q) ==> !Names(l, q[|p|])
  }

  ghost predicate IsDir(fs: Fs, p: seq<string>) {
    p in fs && fs[p].body.DirBody?
  }

  /** The line of a node, restored at a free place, makes the node's item. */
  lemma NodeApplied(dir: string, h: Hash, blobs: Blobs, path: string, t: Tree, fs: Fs)
    requires HeldNode(dir, h, blobs, t) && !t.Special?
    requires HasParent(fs, Resolve(path)) && FreshAt(fs, Resolve(path))
    ensures Applied(dir, blobs, EntryFor(h, path, t), fs) == Some(fs[Resolve(path) := ItemOf(t)])
  {
    hide Resolve, PermBits, Key, HasParent;
    assert Resolve(path) !in fs;
    if t.Regular? {
      assert dir + "/" + Key(h.sum(t.content)) == BlobPath(dir, h, t.content);
    }
  }

  /** A stored line, read and applied. */
  lemma LineApplied(dir: string, blobs: Blobs, e: Entry, ctime: int, rest: string, fs: Fs)
    requires Storable(e, ctime) && Applied(dir, blobs, e, fs).Some?
    ensures Lines(dir, blobs, 2, Line(e, ctime) + rest, fs) ==
            Lines(dir, blobs, 2, rest, Applied(dir, blobs, e, fs).value)
  {
    hide Parsed, Applied, LineLength, Line;
    var text := Line(e, ctime) + rest;
    LineIsTaken(e, ctime, rest);
    LineReadsBack(e, ctime);
    assert text[..|Line(e, ctime)|] == Line(e, ctime) && text[|Line(e, ctime)|..] == rest;
  }

  lemma NodeTextSplits(h: Hash, path: string, t: Tree, rest: string)
    requires !t.Special?
    ensures var tail := if t.Folder? then ListText(h, path, t.entries) + rest else rest;
            NodeText(h, path, t) + rest == Line(EntryFor(h, path, t), t.stat.ctime) + tail
  {
    hide Line, ListText, EntryFor;
  }

  lemma {:induction false} RestoreNode(dir: string, h: Hash, blobs: Blobs, path: string, t: Tree, rest: string, fs: Fs)
    requires HeldNode(dir, h, blobs, t)
    requires StorableNode(h, path, t) && (t.Folder? ==> Tidy(t.entries))
    requires HasParent(fs, Resolve(path)) && FreshAt(fs, Resolve(path))
    ensures Lines(dir, blobs, 2, NodeText(h, path, t) + rest, fs) ==
            Lines(dir, blobs, 2, rest, LaidNode(fs, Resolve(path), t))
    decreases t
  {
    hide Lines, Applied, NodeText, ListText, Line, Resolve, Storable, HasParent;
    NodeApplied(dir, h, blobs, path, t, fs);
    NodeTextSplits(h, path, t, rest);
    var tail := if t.Folder? then ListText(h, path, t.entries) + rest else rest;
    LineApplied(dir, blobs, EntryFor(h, path, t), t.stat.ctime, tail, fs);
    if t.Folder? {
      var fs' := fs[Resolve(path) := ItemOf(t)];
      assert Fresh(fs', Resolve(path), t.entries);
      RestoreList(dir, h, blobs, path, t.entries, rest, fs');
    }
  }

  lemma ListTextSplits(h: Hash, path: string, l: Listing, rest: string)
    ensures l.End? ==> ListText(h, path, l) + rest == rest
    ensures l.More? ==>
              ListText(h, path, l) + rest ==
                NodeText(h, path + "/" + l.name, l.node) + (ListText(h, path, l.rest) + rest)
  {
    hide NodeText;
  }

  lemma ChildIsFree(fs: Fs, p: seq<string>, l: Listing)
    requires l.More? && IsDir(fs, p) && Fresh(fs, p, l)
    ensures HasParent(fs, p + [l.name]) && FreshAt(fs, p + [l.name])
  {
    var c := p + [l.name];
    assert c[..|c| - 1] == p;
    forall q | q in fs
      ensures !(c <= q)
    {
      if c <= q {
        assert p <= q && q[|p|] == c[|p|] == l.name;
        assert Under(p, q);
      }
    }
  }

  /** After one entry is laid, its siblings' places are still free. */
  lemma SiblingsFree(fs: Fs, p: seq<string>, l: Listing)
    requires l.More? && Tidy(l) && IsDir(fs, p) && Fresh(fs, p, l)
    ensures var fs' := LaidNode(fs, p + [l.name], l.node); IsDir(fs', p) && Fresh(fs', p, l.rest)
  {
    hide LaidNode, NodeAt;
    var c := p + [l.name];
    var fs' := LaidNode(fs, c, l.node);
    LaidNodeAt(fs, c, l.node, p);
    forall q | q in fs' && Under(p, q)
      ensures !Names(l.rest, q[|p|])
    {
      LaidNodeAt(fs, c, l.node, q);
      if c <= q {
        assert q[|p|] == c[|p|] == l.name;
      }
    }
  }

  lemma {:induction false} RestoreList(dir: string, h: Hash, blobs: Blobs, path: string, l: Listing, rest: string,
                                       fs: Fs)
    requires Held(dir, h, blobs, l)
    requires Tidy(l) && StorableList(h, path, l) && IsDir(fs, Resolve(path)) && Fresh(fs, Resolve(path), l)
    ensures Lines(dir, blobs, 2, ListText(h, path, l) + rest, fs) ==
            Lines(dir, blobs, 2, rest, Laid(fs, Resolve(path), l))
    decreases l
  {
    hide Lines, NodeText, ListText, Resolve, StorableNode, IsDir, Fresh, HasParent, FreshAt;
    ListTextSplits(h, path, l, rest);
    if l.More? {
      var p := Resolve(path);
      ResolveChild(path, l.name);
      ChildIsFree(fs, p, l);
      RestoreNode(dir, h, blobs, path + "/" + l.name, l.node, ListText(h, path, l.rest) + rest, fs);
      SiblingsFree(fs, p, l);
      RestoreList(dir, h, blobs, path, l.rest, rest, LaidNode(fs, p + [l.name], l.node));
    }
  }

  /** A restore stops at a link whose target is too long; what came before it stays. */
  lemma LongLinkStops(dir: string, blobs: Blobs, e: Entry, ctime: int, rest: string, fs: Fs)
    requires Legible(e, ctime) && e.kind.Link? && |e.kind.to| > 40
    ensures Lines(dir, blobs, 2, Line(e, ctime) + rest, fs) == (false, fs)
  {
    var line := Line(e, ctime);
    LineIsTaken(e, ctime, rest);
    LongLinkLost(e, ctime);
    hide Parsed, Line, LineLength, Legible;
    assert (line + rest)[..|line|] == line;
    LineNotEmpty(e, ctime);
  }

  lemma LineNotEmpty(e: Entry, ctime: int)
    requires e.times.Some?
    ensures Line(e, ctime) != ""
  {}

  /** What restoring a backup into an empty directory leaves: exactly the nodes of the tree. */
  ghost predicate IsTree(fs: Fs, root: Item, l: Listing) {
    [] in fs && fs[[]] == root &&
    (forall q :: q in fs <==> q == [] || NodeAt(l, q).Some?) &&
    forall q :: q != [] && q in fs && NodeAt(l, q).Some? ==> Restores(fs[q], NodeAt(l, q).value)
  }

  lemma LaidIsTree(root: Item, l: Listing)
    requires Tidy(l)
    ensures IsTree(Laid(map[[] := root], [], l), root, l)
  {
    hide Laid, NodeAt, ItemOf, Tidy;
    var fs := Laid(map[[] := root], [], l);
    LaidAt(map[[] := root], [], l, []);
    forall q
      ensures q in fs <==> q == [] || NodeAt(l, q).Some?
      ensures q != [] && q in fs && NodeAt(l, q).Some? ==> Restores(fs[q], NodeAt(l, q).value)
    {
      LaidAt(map[[] := root], [], l, q);
      assert q[0..] == q;
      if q != [] {
        assert Under([], q);
        if NodeAt(l, q).Some? {
          ItemRestores(NodeAt(l, q).value);
        }
      }
    }
  }

  /** A manifest restores the tree it recorded. */
  lemma RestoreUndoesBackup(dir: string, h: Hash, blobs: Blobs, l: Listing, root: Item)
    requires Held(dir, h, blobs, l)
    requires Tidy(l) && StorableList(h, ".", l) && root.body.DirBody?
    ensures var (ok, fs) := Restored(dir, blobs, HEADER + ListText(h, ".", l), map[[] := root]);
            ok && IsTree(fs, root, l)
  {
    var start: Fs := map[[] := root];
    OwnHeader(ListText(h, ".", l));
    RootResolves();
    RestoreEnds(dir, blobs, Laid(start, [], l));
    hide Opened, ListText, Lines, IsTree, Tidy, Laid;
    RestoreList(dir, h, blobs, ".", l, "", start);
    assert ListText(h, ".", l) + "" == ListText(h, ".", l);
    LaidIsTree(root, l);
  }

  lemma RootResolves()
    ensures Resolve(".") == []
  {
    NextAbsent(".", '/', 0);
  }

  lemma RestoreEnds(dir: string, blobs: Blobs, fs: Fs)
    ensures Lines(dir, blobs, 2, "", fs) == (true, fs)
  {}
}
