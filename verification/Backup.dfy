/** Backing up a directory tree into a content-addressed blob directory and a manifest (the 'c' branch of
    dedupe_main and store_st, store_file, store_dir, store_link). */
module Backup {
  import opened Bytes
  import opened Manifest
  import opened Entries

  datatype Stat = Stat(mode: nat, uid: int, gid: int, selabel: string, atime: int, mtime: int, ctime: int)

  datatype Tree =
    | Regular(stat: Stat, content: seq<byte>)
    | Folder(stat: Stat, entries: Listing)
    | Symlink(stat: Stat, to: string)
    | Special

  /** What readdir returns, in its order. */
  datatype Listing = End | More(name: string, node: Tree, rest: Listing)

  type Blobs = map<string, seq<byte>>

  // ----- keys -----

  /** SHA-256. */
  datatype Hash = Hash(sum: seq<byte> -> seq<byte>) {
    ghost predicate Sized() {
      forall x :: |sum(x)| == 32
    }

    /** No two of the contents u that ever come up share a sum. */
    ghost predicate Lawful(u: set<seq<byte>>) {
      Sized() && forall x, y :: x in u && y in u && sum(x) == sum(y) ==> x == y
    }
  }

  /** A sum that tells apart all contents of up to 31 bytes: the content, zeros, and its length. */
  function Padded(x: seq<byte>): seq<byte> {
    if |x| <= 31 then x + seq(31 - |x|, _ => 0) + [|x|] else seq(32, _ => 255)
  }

  /** There are lawful sums, for any set of contents that short. */
  lemma LawfulIsMet(u: set<seq<byte>>)
    requires forall x :: x in u ==> |x| <= 31
    ensures Hash(Padded).Lawful(u)
  {
    forall x, y | x in u && y in u && Padded(x) == Padded(y)
      ensures x == y
    {
      assert Padded(x)[31] == |x| && Padded(y)[31] == |y|;
      assert x == Padded(x)[..|x|] && y == Padded(y)[..|y|];
    }
  }

  function HexDigit(d: nat): char
    requires d < 16
  {
    if d < 10 then (48 + d) as char else (87 + d) as char
  }

  function Hex(s: seq<byte>): (r: string)
    ensures |r| == 2 * |s|
  {
    if s == [] then "" else [HexDigit(s[0] / 16), HexDigit(s[0] % 16)] + Hex(s[1..])
  }

  /** The hexadecimal sum with a slash after its third digit. */
  function Key(s: seq<byte>): string {
    if |s| < 2 then Hex(s) else Hex(s)[..3] + "/" + Hex(s)[3..]
  }

  /** The name of a blob: the digits of the sum, two a byte, with a slash after the third. */
  lemma {:induction false} HexAt(s: seq<byte>, i: nat)
    requires i < |s|
    ensures Hex(s)[2 * i] == "0123456789abcdef"[s[i] / 16] && Hex(s)[2 * i + 1] == "0123456789abcdef"[s[i] % 16]
  {
    if i > 0 {
      HexAt(s[1..], i - 1);
    }
  }

  lemma KeyAt(s: seq<byte>)
    requires |s| == 32
    ensures |Key(s)| == 65 && Key(s)[3] == '/' && Key(s)[..3] + Key(s)[4..] == Hex(s)
  {
    hide Hex;
    HexLength(s);
  }

  lemma HexLength(s: seq<byte>)
    ensures |Hex(s)| == 2 * |s|
  {}

  lemma HexDigitsDiffer(d: nat, e: nat)
    requires d < 16 && e < 16 && HexDigit(d) == HexDigit(e)
    ensures d == e
  {
    assert HexDigit(d) as int == HexDigit(e) as int;
  }

  lemma {:induction false} HexInjective(s: seq<byte>, t: seq<byte>)
    requires Hex(s) == Hex(t)
    ensures s == t
  {
    assert |s| == |t|;
    if s != [] {
      assert Hex(s)[2..] == Hex(s[1..]) && Hex(t)[2..] == Hex(t[1..]);
      HexInjective(s[1..], t[1..]);
      assert Hex(s)[0] == Hex(t)[0] && Hex(s)[1] == Hex(t)[1];
      HexDigitsDiffer(s[0] / 16, t[0] / 16);
      HexDigitsDiffer(s[0] % 16, t[0] % 16);
      assert s == [s[0]] + s[1..] && t == [t[0]] + t[1..];
    }
  }

  /** The blob of a content. */
  function BlobPath(dir: string, h: Hash, x: seq<byte>): string {
    dir + "/" + Key(h.sum(x))
  }

  lemma BlobPathInjective(dir: string, h: Hash, u: set<seq<byte>>, x: seq<byte>, y: seq<byte>)
    requires h.Lawful(u) && x in u && y in u && BlobPath(dir, h, x) == BlobPath(dir, h, y)
    ensures x == y
  {
    var s, t := h.sum(x), h.sum(y);
    assert BlobPath(dir, h, x)[|dir| + 1..] == Key(s) && BlobPath(dir, h, y)[|dir| + 1..] == Key(t);
    assert Hex(s) == Key(s)[..3] + Key(s)[4..] && Hex(t) == Key(t)[..3] + Key(t)[4..];
    HexInjective(s, t);
  }

  lemma {:induction false} HexIsPlain(s: seq<byte>)
    ensures Plain(Hex(s)) && 'p' !in Hex(s)
  {
    if s != [] {
      HexIsPlain(s[1..]);
      assert forall d: nat :: d < 16 ==> HexDigit(d) != '\t' && HexDigit(d) != '\n' && HexDigit(d) != 'p';
    }
  }

  /** The name of a copy that is not complete. */
  predicate IsTmp(p: string) {
    |p| >= 4 && p[|p| - 4..] == ".tmp"
  }

  lemma BlobIsNotTmp(dir: string, h: Hash, x: seq<byte>)
    requires h.Sized()
    ensures !IsTmp(BlobPath(dir, h, x)) && IsTmp(BlobPath(dir, h, x) + ".tmp")
  {
    hide Hex;
    var s, p := h.sum(x), BlobPath(dir, h, x);
    HexIsPlain(s);
    assert |s| == 32;
    assert p[|p| - 1] == Hex(s)[63];
    assert (p + ".tmp")[|p|..] == ".tmp";
  }

  // ----- what a backup records -----

  /** The permission bits kept: all but the sticky bit. */
  function PermBits(mode: nat): nat {
    mode % 512 + mode / 1024 % 4 * 1024
  }

  /** Bit k of a number, the lowest first. */
  function Bit(n: nat, k: nat): nat {
    if k == 0 then n % 2 else Bit(n / 2, k - 1)
  }

  /** m has the bits of mode for the owner, the group, others, setgid and setuid, and no other. */
  ghost predicate SamePermissions(m: int, mode: nat) {
    m >= 0 && forall k: nat :: Bit(m, k) == if k <= 8 || k == 10 || k == 11 then Bit(mode, k) else 0
  }

  lemma {:induction false} BitNone(k: nat)
    ensures Bit(0, k) == 0
  {
    if k > 0 {
      BitNone(k - 1);
    }
  }

  function Power2(j: nat): nat {
    if j == 0 then 1 else 2 * Power2(j - 1)
  }

  /** The bits below the j-th are those of r. */
  lemma {:induction false} LowBits(a: nat, r: nat, j: nat, k: nat)
    requires k < j
    ensures Bit(Power2(j) * a + r, k) == Bit(r, k)
    decreases k
  {
    var x := Power2(j - 1) * a;
    assert Power2(j) * a == 2 * x;
    assert (2 * x + r) % 2 == r % 2 && (2 * x + r) / 2 == x + r / 2;
    if k > 0 {
      LowBits(a, r / 2, j - 1, k - 1);
    }
  }

  /** The bits from the j-th on are those of a. */
  lemma {:induction false} HighBits(a: nat, r: nat, j: nat, k: nat)
    requires r < Power2(j) && k >= j
    ensures Bit(Power2(j) * a + r, k) == Bit(a, k - j)
    decreases j
  {
    if j == 0 {
      assert Power2(0) * a + r == a;
    } else {
      var x := Power2(j - 1) * a;
      assert Power2(j) * a == 2 * x;
      assert (2 * x + r) / 2 == x + r / 2;
      HighBits(a, r / 2, j - 1, k - 1);
    }
  }

  lemma Nine()
    ensures Power2(9) == 512
  {
    assert Power2(3) == 8 && Power2(6) == 8 * Power2(3) && Power2(9) == 8 * Power2(6);
  }

  lemma PermBitAt(mode: nat, k: nat)
    ensures Bit(PermBits(mode), k) == if k <= 8 || k == 10 || k == 11 then Bit(mode, k) else 0
  {
    Nine();
    var r, a := mode % 512, mode / 512;
    var b := mode / 1024 % 4 * 2;
    assert PermBits(mode) == 512 * b + r && mode == 512 * a + r && mode / 1024 == a / 2;
    hide Power2, PermBits, Bit;
    if k <= 8 {
      LowBits(b, r, 9, k);
      LowBits(a, r, 9, k);
    } else {
      HighBits(b, r, 9, k);
      HighBits(a, r, 9, k);
      TwoBits(a, k - 9);
    }
  }

  /** Of four bits, the middle two are kept. */
  lemma TwoBits(a: nat, k: nat)
    ensures Bit(a / 2 % 4 * 2, k) == if k == 1 || k == 2 then Bit(a, k) else 0
  {
    var c := a / 2;
    assert Bit(c % 4 * 2, 0) == 0;
    if k > 0 {
      assert c % 4 * 2 / 2 == c % 4 && Bit(c % 4 * 2, k) == Bit(c % 4, k - 1) && Bit(a, k) == Bit(c, k - 1);
      if k > 1 {
        assert Bit(c % 4, k - 1) == Bit(c % 4 / 2, k - 2) && Bit(c, k - 1) == Bit(c / 2, k - 2);
        if k > 2 {
          assert Bit(c % 4 / 2, k - 2) == Bit(0, k - 3);
          BitNone(k - 3);
        }
      }
    }
  }

  /** The mode that a backup records has all permission bits but the sticky one, and no other. */
  lemma PermBitsAre(mode: nat)
    ensures SamePermissions(PermBits(mode), mode)
  {
    hide Bit;
    forall k: nat
      ensures Bit(PermBits(mode), k) == if k <= 8 || k == 10 || k == 11 then Bit(mode, k) else 0
    {
      PermBitAt(mode, k);
    }
  }

  function KindOf(h: Hash, t: Tree): Kind {
    match t
    case Regular(_, x) => File(Key(h.sum(x)), Signed(Int32(|x|)))
    case Folder(_, _) => Dir
    case Symlink(_, to) => Link(to)
    case Special => Unknown
  }

  /** The key and size of a file always fit a manifest line; only its name and attributes may not. */
  lemma FileIsLegible(h: Hash, t: Tree)
    requires h.Sized() && t.Regular?
    ensures LegibleKind(KindOf(h, t))
  {
    hide Digits, Hex;
    var s, n := h.sum(t.content), Int32(|t.content|);
    assert |s| == 32;
    HexIsPlain(s);
    DigitsFew(if n < 0 then 0 - n else n);
    DigitsAreDigits(if n < 0 then 0 - n else n, 10);
  }

  function EntryFor(h: Hash, path: string, t: Tree): Entry
    requires !t.Special?
  {
    var st := t.stat;
    Entry(KindOf(h, t), PermBits(st.mode), st.uid, st.gid, st.selabel, Some(Times(st.atime, st.mtime)), path)
  }

  function NodeText(h: Hash, path: string, t: Tree): string
    decreases t
  {
    if t.Special? then ""
    else Line(EntryFor(h, path, t), t.stat.ctime) + (if t.Folder? then ListText(h, path, t.entries) else "")
  }

  /** The lines for a directory's entries, each directory before what it holds. */
  function ListText(h: Hash, path: string, l: Listing): string
    decreases l
  {
    match l
    case End => ""
    case More(n, t, rest) => NodeText(h, path + "/" + n, t) + ListText(h, path, rest)
  }

  /** The entries without the excluded paths and the special files. */
  function PrunedNode(path: string, t: Tree, ex: set<string>): Tree
    decreases t
  {
    if t.Folder? then t.(entries := Pruned(path, t.entries, ex)) else t
  }

  function Pruned(path: string, l: Listing, ex: set<string>): Listing
    decreases l
  {
    match l
    case End => End
    case More(n, t, rest) =>
      var p := path + "/" + n;
      if n == "." || n == ".." || p in ex || t.Special? then Pruned(path, rest, ex)
      else More(n, PrunedNode(p, t, ex), Pruned(path, rest, ex))
  }

  /** The blob directory has every content of the tree. */
  ghost predicate HeldNode(dir: string, h: Hash, blobs: Blobs, t: Tree) {
    match t
    case Regular(_, x) => BlobPath(dir, h, x) in blobs && blobs[BlobPath(dir, h, x)] == x
    case Folder(_, l) => Held(dir, h, blobs, l)
    case _ => true
  }

  ghost predicate Held(dir: string, h: Hash, blobs: Blobs, l: Listing) {
    match l
    case End => true
    case More(_, t, rest) => HeldNode(dir, h, blobs, t) && Held(dir, h, blobs, rest)
  }

  /** The contents of the files of a tree. */
  function ContentsNode(t: Tree): set<seq<byte>> {
    match t
    case Regular(_, x) => {x}
    case Folder(_, l) => Contents(l)
    case _ => {}
  }

  function Contents(l: Listing): set<seq<byte>> {
    match l
    case End => {}
    case More(_, t, rest) => ContentsNode(t) + Contents(rest)
  }

  /** Each blob that has the key of one of the contents u is that content. */
  ghost predicate Addressed(dir: string, h: Hash, u: set<seq<byte>>, blobs: Blobs) {
    forall x :: x in u && BlobPath(dir, h, x) in blobs ==> blobs[BlobPath(dir, h, x)] == x
  }

  /** No blob of a is gone or changed in b; unfinished copies may be. */
  ghost predicate Kept(a: Blobs, b: Blobs) {
    forall p :: p in a && !IsTmp(p) ==> p in b && b[p] == a[p]
  }

  lemma {:induction false} HeldNodeKept(dir: string, h: Hash, a: Blobs, b: Blobs, t: Tree)
    requires h.Sized() && Kept(a, b) && HeldNode(dir, h, a, t)
    ensures HeldNode(dir, h, b, t)
    decreases t
  {
    match t
    case Regular(_, x) => BlobIsNotTmp(dir, h, x);
    case Folder(_, l) => HeldKept(dir, h, a, b, l);
    case _ =>
  }

  lemma {:induction false} HeldKept(dir: string, h: Hash, a: Blobs, b: Blobs, l: Listing)
    requires h.Sized() && Kept(a, b) && Held(dir, h, a, l)
    ensures Held(dir, h, b, l)
    decreases l
  {
    if l.More? {
      HeldNodeKept(dir, h, a, b, l.node);
      HeldKept(dir, h, a, b, l.rest);
    }
  }

  lemma AddressedPut(dir: string, h: Hash, u: set<seq<byte>>, a: Blobs, x: seq<byte>)
    requires h.Lawful(u) && x in u && Addressed(dir, h, u, a) && BlobPath(dir, h, x) !in a
    ensures var b := (a - {BlobPath(dir, h, x) + ".tmp"})[BlobPath(dir, h, x) := x];
            Addressed(dir, h, u, b) && Kept(a, b)
  {
    hide BlobPath, Hash.Lawful, IsTmp;
    LawfulMeans(h, u);
    BlobIsNotTmp(dir, h, x);
    var b := (a - {BlobPath(dir, h, x) + ".tmp"})[BlobPath(dir, h, x) := x];
    forall y | y in u && BlobPath(dir, h, y) in b
      ensures b[BlobPath(dir, h, y)] == y
    {
      if BlobPath(dir, h, x) == BlobPath(dir, h, y) {
        BlobPathInjective(dir, h, u, x, y);
      }
    }
  }

  lemma LawfulMeans(h: Hash, u: set<seq<byte>>)
    requires h.Lawful(u)
    ensures h.Sized()
  {}

  lemma AddressedTmp(dir: string, h: Hash, u: set<seq<byte>>, a: Blobs, x: seq<byte>, part: seq<byte>)
    requires h.Sized() && Addressed(dir, h, u, a)
    ensures var b := a[BlobPath(dir, h, x) + ".tmp" := part]; Addressed(dir, h, u, b) && Kept(a, b)
  {
    hide BlobPath, IsTmp;
    BlobIsNotTmp(dir, h, x);
    forall y {
      BlobIsNotTmp(dir, h, y);
    }
  }

  // ----- making a backup -----

  /** The text print_stat writes. */
  function HeadText(h: Hash, path: string, t: Tree): string
    requires !t.Special?
  {
    Tabbed(HeadFields(EntryFor(h, path, t), t.stat.ctime))
  }

  function TailText(h: Hash, t: Tree): string {
    Tabbed(TailFields(KindOf(h, t))) + "\n"
  }

  lemma {:induction false} TabbedJoin(a: seq<string>, b: seq<string>)
    ensures Tabbed(a + b) == Tabbed(a) + Tabbed(b)
  {
    if a == [] {
      assert a + b == b;
    } else {
      assert (a + b)[1..] == a[1..] + b;
      TabbedJoin(a[1..], b);
    }
  }

  lemma LineIsHeadAndTail(h: Hash, path: string, t: Tree)
    requires !t.Special?
    ensures NodeText(h, path, t) == HeadText(h, path, t) + TailText(h, t) +
                                    (if t.Folder? then ListText(h, path, t.entries) else "")
  {
    hide Tabbed;
    var e := EntryFor(h, path, t);
    TabbedJoin(HeadFields(e, t.stat.ctime), TailFields(e.kind));
  }

  /** Once rest is stored too, all of l is: the blobs for the other entries are there. */
  ghost predicate Owes(dir: string, h: Hash, blobs: Blobs, rest: Listing, l: Listing) {
    forall b :: Kept(blobs, b) && Held(dir, h, b, rest) ==> Held(dir, h, b, l)
  }

  lemma OwesNone(dir: string, h: Hash, blobs: Blobs, l: Listing)
    ensures Owes(dir, h, blobs, l, l)
    ensures Owes(dir, h, blobs, End, l) ==> Held(dir, h, blobs, l)
  {
    assert Kept(blobs, blobs);
    assert Held(dir, h, blobs, End);
  }

  lemma OwesStep(dir: string, h: Hash, a: Blobs, b: Blobs, cur: Listing, l: Listing)
    requires h.Sized() && cur.More? && Owes(dir, h, a, cur, l) && Kept(a, b) && HeldNode(dir, h, b, cur.node)
    ensures Owes(dir, h, b, cur.rest, l)
  {
    forall c | Kept(b, c) && Held(dir, h, c, cur.rest)
      ensures Held(dir, h, c, l)
    {
      HeldNodeKept(dir, h, b, c, cur.node);
      KeptChain(a, b, c);
      assert Held(dir, h, c, cur);
    }
  }

  lemma KeptChain(a: Blobs, b: Blobs, c: Blobs)
    requires Kept(a, b) && Kept(b, c)
    ensures Kept(a, c)
  {}

  lemma KeptSelf(a: Blobs)
    ensures Kept(a, a)
  {}

  predicate Skipped(path: string, n: string, ex: set<string>) {
    n == "." || n == ".." || path + "/" + n in ex
  }

  lemma PrunedStep(h: Hash, path: string, l: Listing, ex: set<string>)
    ensures l.End? ==> Pruned(path, l, ex) == End && ListText(h, path, End) == ""
    ensures l.More? && (Skipped(path, l.name, ex) || l.node.Special?) ==>
              Pruned(path, l, ex) == Pruned(path, l.rest, ex)
    ensures l.More? && !Skipped(path, l.name, ex) && !l.node.Special? ==>
              var p := path + "/" + l.name;
              Pruned(path, l, ex) == More(l.name, PrunedNode(p, l.node, ex), Pruned(path, l.rest, ex)) &&
              ListText(h, path, Pruned(path, l, ex)) ==
                NodeText(h, p, PrunedNode(p, l.node, ex)) + ListText(h, path, Pruned(path, l.rest, ex))
    ensures l.More? && l.node.Special? ==>
              NodeText(h, path + "/" + l.name, PrunedNode(path + "/" + l.name, l.node, ex)) == ""
  {}

  lemma OwesNext(dir: string, h: Hash, a: Blobs, b: Blobs, path: string, cur: Listing, l: Listing, ex: set<string>)
    requires h.Sized() && cur.More? && !Skipped(path, cur.name, ex) && Owes(dir, h, a, Pruned(path, cur, ex), l)
    requires Kept(a, b) && HeldNode(dir, h, b, PrunedNode(path + "/" + cur.name, cur.node, ex))
    ensures Owes(dir, h, b, Pruned(path, cur.rest, ex), l)
  {
    hide *;
    PrunedStep(h, path, cur, ex);
    if cur.node.Special? {
      OwesKept(dir, h, a, b, Pruned(path, cur.rest, ex), l);
    } else {
      OwesStep(dir, h, a, b, Pruned(path, cur, ex), l);
    }
  }

  lemma OwesKept(dir: string, h: Hash, a: Blobs, b: Blobs, rest: Listing, l: Listing)
    requires Owes(dir, h, a, rest, l) && Kept(a, b)
    ensures Owes(dir, h, b, rest, l)
  {
    forall c | Kept(b, c) && Held(dir, h, c, rest)
      ensures Held(dir, h, c, l)
    {
      KeptChain(a, b, c);
    }
  }

  /** The pieces of text and blobs that a node needs, by its kind. */
  lemma NodeStep(dir: string, h: Hash, path: string, t: Tree, ex: set<string>)
    requires !t.Special?
    ensures !PrunedNode(path, t, ex).Special? && HeadText(h, path, PrunedNode(path, t, ex)) == HeadText(h, path, t)
    ensures t.Regular? ==>
              NodeText(h, path, t) ==
                HeadText(h, path, t) + (Tabbed([Key(h.sum(t.content)), Signed(Int32(|t.content|))]) + "\n") &&
              PrunedNode(path, t, ex) == t
    ensures t.Symlink? ==>
              NodeText(h, path, t) == HeadText(h, path, t) + (Tabbed([t.to]) + "\n") && PrunedNode(path, t, ex) == t
    ensures t.Folder? ==>
              NodeText(h, path, PrunedNode(path, t, ex)) ==
                HeadText(h, path, t) + "\n" + ListText(h, path, Pruned(path, t.entries, ex))
  {
    hide Tabbed, Digits, Signed, Key, Line, HeadFields, NodeText, ListText;
    LineIsHeadAndTail(h, path, PrunedNode(path, t, ex));
    TabbedNothing();
  }

  lemma NodeHolds(dir: string, h: Hash, blobs: Blobs, path: string, t: Tree, ex: set<string>)
    ensures t.Regular? && BlobPath(dir, h, t.content) in blobs && blobs[BlobPath(dir, h, t.content)] == t.content ==>
              HeldNode(dir, h, blobs, t)
    ensures t.Symlink? || t.Special? ==> HeldNode(dir, h, blobs, PrunedNode(path, t, ex))
    ensures t.Folder? && Held(dir, h, blobs, Pruned(path, t.entries, ex)) ==>
              HeldNode(dir, h, blobs, PrunedNode(path, t, ex))
    ensures t.Special? ==> NodeText(h, path, PrunedNode(path, t, ex)) == ""
  {}

  lemma NodeContents(path: string, t: Tree, ex: set<string>)
    ensures t.Regular? ==> ContentsNode(PrunedNode(path, t, ex)) == {t.content}
    ensures t.Folder? ==> ContentsNode(PrunedNode(path, t, ex)) == Contents(Pruned(path, t.entries, ex))
  {}

  lemma PrunedContents(path: string, l: Listing, ex: set<string>)
    ensures l.More? ==> Contents(Pruned(path, l.rest, ex)) <= Contents(Pruned(path, l, ex))
    ensures l.More? && !Skipped(path, l.name, ex) ==>
              ContentsNode(PrunedNode(path + "/" + l.name, l.node, ex)) <= Contents(Pruned(path, l, ex))
  {}

  class Store {
    const dir: string
    const hash: Hash
    const excludes: set<string>
    const works: nat -> bool
    const short: nat -> nat
    ghost const universe: set<seq<byte>>   // the contents of all trees backed up
    var calls: nat
    var blobs: Blobs
    var text: string

    constructor (dir: string, hash: Hash, excludes: set<string>, works: nat -> bool, short: nat -> nat, blobs: Blobs,
                 ghost universe: set<seq<byte>>)
      ensures this.dir == dir && this.hash == hash && this.excludes == excludes && this.works == works
      ensures this.blobs == blobs && this.universe == universe
    {
      this.universe := universe;
      this.dir, this.hash, this.excludes, this.works, this.short := dir, hash, excludes, works, short;
      this.blobs, calls, text := blobs, 0, "";
    }

    /** Every blob is under its key. */
    ghost predicate Sound()
      reads `blobs
    {
      hash.Lawful(universe) && Addressed(dir, hash, universe, blobs)
    }

    lemma SoundMeans()
      requires Sound()
      ensures hash.Sized()
    {}

    method Call() returns (ok: bool)
      modifies this`calls
      ensures (forall n :: works(n)) ==> ok
    {
      ok, calls := works(calls), calls + 1;
    }

    /** The blob of a file, copied under a temporary name and renamed, unless a blob of that name and
        size is there. */
    method StoreBlob(x: seq<byte>) returns (ok: bool)
      requires Sound() && x in universe
      modifies this`blobs, this`calls
      ensures Sound() && Kept(old(blobs), blobs)
      ensures ok ==> BlobPath(dir, hash, x) in blobs && blobs[BlobPath(dir, hash, x)] == x
      ensures (forall n :: works(n)) ==> ok
    {
      var path := BlobPath(dir, hash, x);
      if path in blobs && Int32(|blobs[path]|) == Int32(|x|) {
        return true;
      }
      var amount := short(calls);
      ok := Call();
      var copied := if ok || amount > |x| then x else x[..amount];
      AddressedTmp(dir, hash, universe, blobs, x, copied);
      AddressedPut(dir, hash, universe, blobs, x);
      if !ok {
        blobs := blobs[path + ".tmp" := copied];
        return;
      }
      ok := Call();
      blobs := if ok then (blobs - {path + ".tmp"})[path := x] else blobs[path + ".tmp" := copied];
    }

    method StoreFile(x: seq<byte>) returns (ok: bool)
      requires Sound() && x in universe
      modifies this
      ensures Sound() && Kept(old(blobs), blobs)
      ensures ok ==> BlobPath(dir, hash, x) in blobs && blobs[BlobPath(dir, hash, x)] == x
      ensures ok ==> text == old(text) + Tabbed([Key(hash.sum(x)), Signed(Int32(|x|))]) + "\n"
      ensures !ok ==> text == old(text)
      ensures old(text) <= text
      ensures (forall n :: works(n)) ==> ok
    {
      ok := Call();
      if !ok { return; }
      ok := StoreBlob(x);
      if !ok { return; }
      text := text + Tabbed([Key(hash.sum(x)), Signed(Int32(|x|))]) + "\n";
    }

    method StoreLink(to: string) returns (ok: bool)
      modifies this`calls, this`text
      ensures text == if ok then old(text) + Tabbed([to]) + "\n" else old(text)
      ensures old(text) <= text
      ensures (forall n :: works(n)) ==> ok
    {
      ok := Call();
      if !ok { return; }
      text := text + Tabbed([to]) + "\n";
    }

    /** One node: its line and, for a directory, what it holds. A failure leaves a manifest cut short and
        no blob lost. */
    method StoreNode(path: string, t: Tree) returns (ok: bool)
      requires Sound() && ContentsNode(PrunedNode(path, t, excludes)) <= universe
      modifies this
      ensures Sound() && Kept(old(blobs), blobs)
      ensures ok ==> text == old(text) + NodeText(hash, path, PrunedNode(path, t, excludes))
      ensures ok ==> HeldNode(dir, hash, blobs, PrunedNode(path, t, excludes))
      ensures old(text) <= text
      ensures (forall n :: works(n)) ==> ok
      decreases t, 1
    {
      hide *;
      NodeHolds(dir, hash, blobs, path, t, excludes);
      KeptSelf(blobs);
      if t.Special? {
        return true;
      }
      NodeStep(dir, hash, path, t, excludes);
      NodeContents(path, t, excludes);
      text := text + HeadText(hash, path, t);
      match t {
        case Regular(_, x) =>
          ok := StoreFile(x);
        case Folder(_, l) =>
          text := text + "\n";
          ok := StoreDir(path, l);
        case Symlink(_, to) =>
          ok := StoreLink(to);
        case Special =>
      }
      NodeHolds(dir, hash, blobs, path, t, excludes);
    }

    /** The entries of an open directory, in the order readdir returns them. */
    method StoreDir(path: string, l: Listing) returns (ok: bool)
      requires Sound() && Contents(Pruned(path, l, excludes)) <= universe
      modifies this
      ensures Sound() && Kept(old(blobs), blobs)
      ensures ok ==> text == old(text) + ListText(hash, path, Pruned(path, l, excludes))
      ensures ok ==> Held(dir, hash, blobs, Pruned(path, l, excludes))
      ensures old(text) <= text
      ensures (forall n :: works(n)) ==> ok
      decreases l, 0
    {
      hide *;
      KeptSelf(blobs);
      OwesNone(dir, hash, blobs, Pruned(path, l, excludes));
      ok := Call();
      if !ok { return; }
      var cur := l;
      while cur.More?
        invariant Sound() && Kept(old(blobs), blobs) && old(text) <= text
        invariant old(text) + ListText(hash, path, Pruned(path, l, excludes)) ==
                  text + ListText(hash, path, Pruned(path, cur, excludes))
        invariant Owes(dir, hash, blobs, Pruned(path, cur, excludes), Pruned(path, l, excludes))
        invariant ok && (cur == l || cur < l) && Contents(Pruned(path, cur, excludes)) <= universe
        decreases cur
      {
        PrunedStep(hash, path, cur, excludes);
        PrunedContents(path, cur, excludes);
        SoundMeans();
        if !Skipped(path, cur.name, excludes) {
          ghost var was := blobs;
          ok := Call();
          if !ok { return; }
          ok := StoreNode(path + "/" + cur.name, cur.node);
          KeptChain(old(blobs), was, blobs);
          if !ok { return; }
          OwesNext(dir, hash, was, blobs, path, cur, Pruned(path, l, excludes), excludes);
        }
        cur := cur.rest;
      }
      PrunedStep(hash, path, cur, excludes);
      OwesNone(dir, hash, blobs, Pruned(path, l, excludes));
    }

    /** The 'c' branch: a version line, then the entries of the input directory. */
    method BackUp(l: Listing) returns (ok: bool)
      requires Sound() && Contents(Pruned(".", l, excludes)) <= universe
      modifies this
      ensures Sound() && Kept(old(blobs), blobs)
      ensures ok ==> text == HEADER + ListText(hash, ".", Pruned(".", l, excludes))
      ensures ok ==> Held(dir, hash, blobs, Pruned(".", l, excludes))
      ensures HEADER <= text
      ensures (forall n :: works(n)) ==> ok
    {
      hide *;
      text := HEADER;
      ok := StoreDir(".", l);
    }
  }
}
