/** Garbage collection of the blob directory (the 'gc' branch of dedupe_main). */
module Collect {
  import opened Bytes
  import opened Manifest
  import opened Entries
  import opened Backup
  import opened Restore

  // ----- the order of strings -----

  /** strcmp. */
  function Compare(a: string, b: string): int {
    if a == "" then (if b == "" then 0 else -1)
    else if b == "" then 1
    else if a[0] != b[0] then (if a[0] < b[0] then -1 else 1)
    else Compare(a[1..], b[1..])
  }

  lemma {:induction false} CompareEqual(a: string, b: string)
    ensures Compare(a, b) == 0 <==> a == b
    ensures Compare(a, b) < 0 <==> Compare(b, a) > 0
  {
    if a != "" && b != "" && a[0] == b[0] {
      CompareEqual(a[1..], b[1..]);
      assert a == [a[0]] + a[1..] && b == [b[0]] + b[1..];
    }
  }

  lemma {:induction false} CompareChain(a: string, b: string, c: string)
    requires Compare(a, b) <= 0 && Compare(b, c) <= 0
    ensures Compare(a, c) <= 0
    ensures Compare(a, b) < 0 || Compare(b, c) < 0 ==> Compare(a, c) < 0
  {
    if a != "" && b != "" && c != "" && a[0] == b[0] == c[0] {
      CompareChain(a[1..], b[1..], c[1..]);
    }
  }

  ghost predicate Sorted(s: seq<string>) {
    forall i, j :: 0 <= i < j < |s| ==> Compare(s[i], s[j]) <= 0
  }

  function Insert(x: string, s: seq<string>): (r: seq<string>)
    ensures multiset(r) == multiset(s) + multiset{x}
  {
    if s == [] then [x]
    else if Compare(x, s[0]) <= 0 then [x] + s
    else
      assert s == [s[0]] + s[1..];
      [s[0]] + Insert(x, s[1..])
  }

  /** qsort with string_compare. */
  function Sort(s: seq<string>): (r: seq<string>)
    ensures multiset(r) == multiset(s)
  {
    if s == [] then []
    else
      assert s == [s[0]] + s[1..];
      Insert(s[0], Sort(s[1..]))
  }

  lemma {:induction false} InsertSorted(x: string, s: seq<string>)
    requires Sorted(s)
    ensures Sorted(Insert(x, s))
  {
    if s == [] {
    } else if Compare(x, s[0]) <= 0 {
      forall j | 0 <= j < |s|
        ensures Compare(x, s[j]) <= 0
      {
        if j > 0 { CompareChain(x, s[0], s[j]); }
      }
    } else {
      var rest := Insert(x, s[1..]);
      InsertSorted(x, s[1..]);
      forall j | 0 <= j < |rest|
        ensures Compare(s[0], rest[j]) <= 0
      {
        assert rest[j] in multiset(rest);
        CompareEqual(x, s[0]);
        if rest[j] != x {
          assert rest[j] in s[1..];
        }
      }
    }
  }

  lemma {:induction false} SortSorted(s: seq<string>)
    ensures Sorted(Sort(s))
  {
    if s != [] {
      SortSorted(s[1..]);
      InsertSorted(s[0], Sort(s[1..]));
    }
  }

  // ----- the sweep -----

  /** Where the used list stands against the file f: all before j come before f. */
  ghost predicate Passed(used: seq<string>, j: nat, f: string) {
    j <= |used| && forall k :: 0 <= k < j ==> Compare(used[k], f) < 0
  }

  lemma PassedOn(used: seq<string>, j: nat, f: string, g: string)
    requires Passed(used, j, f) && Compare(f, g) <= 0
    ensures Passed(used, j, g)
  {
    forall k | 0 <= k < j
      ensures Compare(used[k], g) < 0
    {
      CompareChain(used[k], f, g);
    }
  }

  /** At the first used name not before f, f is used exactly when that name is f. */
  lemma PassedDecides(used: seq<string>, j: nat, f: string)
    requires Sorted(used) && Passed(used, j, f) && (j < |used| ==> Compare(used[j], f) >= 0)
    ensures f in used <==> j < |used| && Compare(used[j], f) == 0
  {
    if j < |used| {
      CompareEqual(used[j], f);
    }
    forall k | 0 <= k < |used| && used[k] == f
      ensures j < |used| && Compare(used[j], f) == 0
    {
      CompareEqual(f, f);
      if k > j {
        CompareEqual(used[j], f);
      }
    }
  }

  /** The two-index sweep: of the files listed, exactly those not in the used list are removed, unless a
      removal fails. */
  method Sweep(blobs: Blobs, used: seq<string>, all: seq<string>, works: nat -> bool) returns (left: Blobs)
    requires Sorted(used) && Sorted(all)
    ensures forall p :: p in left ==> p in blobs && left[p] == blobs[p]
    ensures forall p :: p in blobs && (p in used || p !in all) ==> p in left
    ensures (forall n :: works(n)) ==> forall p :: p in all && p !in used ==> p !in left
  {
    hide *;
    left := blobs;
    var j: nat := 0;
    if |all| > 0 { PassedNone(used, all[0]); }
    for i := 0 to |all|
      invariant 0 <= j <= |used|
      invariant i < |all| ==> Passed(used, j, all[i])
      invariant forall p :: p in left ==> p in blobs && left[p] == blobs[p]
      invariant forall p :: p in blobs && (p in used || p !in all[..i]) ==> p in left
      invariant (forall n :: works(n)) ==> forall p :: p in all[..i] && p !in used ==> p !in left
    {
      var cmp: int := *;
      while j < |used|
        invariant Passed(used, j, all[i]) && 0 <= j <= |used|
      {
        cmp := Compare(used[j], all[i]);
        if cmp >= 0 { break; }
        PassedMore(used, j, all[i]);
        j := j + 1;
      }
      PassedDecides(used, j, all[i]);
      if cmp > 0 || j >= |used| {
        if works(i) {
          left := left - {all[i]};
        }
      }
      assert all[..i + 1] == all[..i] + [all[i]];
      if i + 1 < |all| {
        SortedNext(all, i);
        PassedOn(used, j, all[i], all[i + 1]);
      }
    }
    assert all[..|all|] == all;
  }

  lemma PassedNone(used: seq<string>, f: string)
    ensures Passed(used, 0, f)
  {}

  lemma PassedMore(used: seq<string>, j: nat, f: string)
    requires Passed(used, j, f) && j < |used| && Compare(used[j], f) < 0
    ensures Passed(used, j + 1, f)
  {}

  lemma SortedNext(s: seq<string>, i: nat)
    requires Sorted(s) && i + 1 < |s|
    ensures Compare(s[i], s[i + 1]) <= 0
  {}

  // ----- the used list -----

  /** The buffers of the branch: those of a file's line, or those before the name of anything else. The name
      is read too, but nothing comes of it, and the line is too short to fill its buffer. */
  function GcCaps(version: int, kind: string): seq<nat> {
    if kind == "f" then HeadCaps(version) + [128, 32] else HeadCaps(version)[..|HeadCaps(version)| - 1]
  }

  /** What a line tells the branch: the key of a blob, nothing, or that the source would run into a null
      pointer or past a buffer, or would go on with a size that it has not terminated. */
  datatype Mention = Unreadable | Nothing | Blob(key: string)

  function Mentioned(version: int, line: string): Mention {
    var kind := Field(line, 0, 4);
    if kind == None then Unreadable
    else
      var fs := Fields(line, 0, GcCaps(version, kind.value));
      if fs == None then Unreadable else if kind.value == "f" then Blob(fs.value[|HeadCaps(version)|]) else Nothing
  }

  method ReadMention(version: int, line: string) returns (m: Mention)
    ensures m == Mentioned(version, line)
  {
    hide Field, Fields, Next;
    var kind := Tokenize(line, 0, 4);
    if kind == None {
      return Unreadable;
    }
    var caps := GcCaps(version, kind.value);
    var rest, _ := ReadFields(line, |kind.value| + 1, caps[1..]);
    FieldsAre(line, kind.value, caps);
    m := if rest == None then Unreadable
         else if kind.value == "f" then Blob(rest.value[|HeadCaps(version)| - 1]) else Nothing;
  }

  /** The blob that a line makes used. */
  function Used(dir: string, m: Mention): seq<string> {
    if m.Blob? then [dir + "/" + m.key] else []
  }

  /** The blobs named by the lines of a manifest; None where reading it would go wrong. */
  function LineUses(dir: string, version: int, text: string): Option<seq<string>>
    decreases |text|
  {
    if text == "" then Some([])
    else
      var n := LineLength(text);
      var m := Mentioned(version, text[..n]);
      if m.Unreadable? then None else Joined(Used(dir, m), LineUses(dir, version, text[n..]))
  }

  /** What reading the manifests gives: the used list, cut at a manifest of a newer version; or nothing,
      when one cannot be opened or read. */
  datatype Scan = Crashed | Missing | Found(used: seq<string>, complete: bool)

  function Uses(dir: string, ms: seq<Option<string>>): Scan {
    if ms == [] then Found([], true)
    else if ms[0] == None then Missing
    else
      var (version, body) := Opened(ms[0].value);
      if version > 2 then Found([], false)
      else
        var us := LineUses(dir, version, body);
        if us == None then Crashed
        else
          var rest := Uses(dir, ms[1..]);
          if rest.Found? then Found(us.value + rest.used, rest.complete) else rest
  }

  predicate TooNew(m: Option<string>) {
    m.Some? && Opened(m.value).0 > 2
  }

  method ReadUses(dir: string, version: int, body: string) returns (us: Option<seq<string>>)
    ensures us == LineUses(dir, version, body)
  {
    hide Mentioned, LineLength;
    var used, rest := [], body;
    JoinedEmpty(LineUses(dir, version, body));
    while rest != ""
      invariant Joined(used, LineUses(dir, version, rest)) == LineUses(dir, version, body)
      decreases |rest|
    {
      var n := LineLength(rest);
      var m := ReadMention(version, rest[..n]);
      if m.Unreadable? {
        return None;
      }
      JoinedJoined(used, Used(dir, m), LineUses(dir, version, rest[n..]));
      used, rest := used + Used(dir, m), rest[n..];
    }
    us := Some(used);
    assert used + [] == used;
  }

  function Joined(used: seq<string>, rest: Option<seq<string>>): Option<seq<string>> {
    if rest == None then None else Some(used + rest.value)
  }

  lemma JoinedEmpty(r: Option<seq<string>>)
    ensures Joined([], r) == r
  {
    if r.Some? {
      assert [] + r.value == r.value;
    }
  }

  lemma JoinedJoined(a: seq<string>, b: seq<string>, r: Option<seq<string>>)
    ensures Joined(a, Joined(b, r)) == Joined(a + b, r)
  {
    if r.Some? {
      assert a + (b + r.value) == a + b + r.value;
    }
  }

  /** The first loop of the branch. */
  method Scanned(dir: string, ms: seq<Option<string>>) returns (r: Scan)
    ensures r == Uses(dir, ms)
  {
    hide LineUses, Opened;
    var used := [];
    for i := 0 to |ms|
      invariant Uses(dir, ms) == After(used, Uses(dir, ms[i..]))
    {
      if ms[i] == None {
        return Missing;
      }
      var (version, body) := Opened(ms[i].value);
      if version > 2 {
        return Found(used, false);
      }
      var us := ReadUses(dir, version, body);
      if us == None {
        return Crashed;
      }
      assert ms[i..][1..] == ms[i + 1..];
      AfterAfter(used, us.value, Uses(dir, ms[i + 1..]));
      used := used + us.value;
    }
    r := Found(used, true);
  }

  function After(used: seq<string>, s: Scan): Scan {
    if s.Found? then Found(used + s.used, s.complete) else s
  }

  lemma AfterAfter(a: seq<string>, b: seq<string>, s: Scan)
    ensures After(a, After(b, s)) == After(a + b, s)
  {
    if s.Found? {
      assert a + (b + s.used) == a + b + s.used;
    }
  }

  /** The 'gc' branch: nothing is removed unless every manifest up to a too new one can be read; then,
      of the listed files, those outside the used list go. */
  method Gc(dir: string, ms: seq<Option<string>>, listing: seq<string>, blobs: Blobs, works: nat -> bool)
      returns (left: Blobs)
    ensures forall p :: p in left ==> p in blobs && left[p] == blobs[p]
    ensures !Uses(dir, ms).Found? ==> left == blobs
    ensures Uses(dir, ms).Found? ==> forall p :: p in blobs && (p in Uses(dir, ms).used || p !in listing) ==> p in left
    ensures Uses(dir, ms).Found? && (forall n :: works(n)) ==>
              forall p :: p in listing && p !in Uses(dir, ms).used ==> p !in left
  {
    hide *;
    var scan := Scanned(dir, ms);
    if !scan.Found? {
      return blobs;
    }
    SortSorted(scan.used);
    SortSorted(listing);
    SortMembers(scan.used);
    SortMembers(listing);
    left := Sweep(blobs, Sort(scan.used), Sort(listing), works);
  }

  lemma SortMembers(s: seq<string>)
    ensures forall x :: x in Sort(s) <==> x in s
  {
    forall x
      ensures x in Sort(s) <==> x in s
    {
      assert x in Sort(s) <==> x in multiset(Sort(s));
      assert x in s <==> x in multiset(s);
    }
  }

  // ----- what the used list covers -----

  /** Every blob the tree needs is among these. */
  ghost predicate CoversNode(dir: string, h: Hash, used: seq<string>, t: Tree) {
    match t
    case Regular(_, x) => BlobPath(dir, h, x) in used
    case Folder(_, l) => Covers(dir, h, used, l)
    case _ => true
  }

  ghost predicate Covers(dir: string, h: Hash, used: seq<string>, l: Listing) {
    match l
    case End => true
    case More(_, t, rest) => CoversNode(dir, h, used, t) && Covers(dir, h, used, rest)
  }

  ghost predicate Includes(a: seq<string>, b: seq<string>) {
    forall x :: x in a ==> x in b
  }

  lemma {:induction false} CoversMoreNode(dir: string, h: Hash, a: seq<string>, b: seq<string>, t: Tree)
    requires CoversNode(dir, h, a, t) && Includes(a, b)
    ensures CoversNode(dir, h, b, t)
    decreases t
  {
    if t.Folder? { CoversMore(dir, h, a, b, t.entries); }
  }

  lemma {:induction false} CoversMore(dir: string, h: Hash, a: seq<string>, b: seq<string>, l: Listing)
    requires Covers(dir, h, a, l) && Includes(a, b)
    ensures Covers(dir, h, b, l)
    decreases l
  {
    if l.More? {
      CoversMoreNode(dir, h, a, b, l.node);
      CoversMore(dir, h, a, b, l.rest);
    }
  }

  /** The fields of a written line as the branch splits it: a link's target is left alone. */
  lemma LineMentions(e: Entry, ctime: int)
    requires Legible(e, ctime)
    ensures Mentioned(2, Line(e, ctime)) == if e.kind.File? then Blob(e.kind.key) else Nothing
  {
    hide Fields, Field, Tabbed, Digits;
    var head, tail := HeadFields(e, ctime), TailFields(e.kind);
    HeadIsClean(e, ctime);
    var caps := GcCaps(2, KindText(e.kind));
    if e.kind.File? {
      assert Clean(head + tail, caps);
      FieldsOfTabbed("", head + tail, "\n", caps);
      assert "" + Tabbed(head + tail) + "\n" == Line(e, ctime);
    } else {
      var front, back := head[..8], head[8..] + tail;
      assert Clean(front, caps) && head + tail == front + back;
      TabbedSplits(front, back);
      FieldsOfTabbed("", front, Tabbed(back) + "\n", caps);
      assert "" + Tabbed(front) + (Tabbed(back) + "\n") == Line(e, ctime);
    }
    KindIsFirst(Line(e, ctime), caps);
  }

  lemma {:induction false} TabbedSplits(a: seq<string>, b: seq<string>)
    ensures Tabbed(a + b) == Tabbed(a) + Tabbed(b)
  {
    if a == [] {
      assert a + b == b;
    } else {
      assert (a + b)[1..] == a[1..] + b;
      TabbedSplits(a[1..], b);
    }
  }

  /** One legible line of a manifest: its key, if any, and the uses of the rest. */
  lemma LineUsed(dir: string, e: Entry, ctime: int, rest: string)
    requires Legible(e, ctime)
    ensures LineUses(dir, 2, Line(e, ctime) + rest) ==
            Joined(if e.kind.File? then [dir + "/" + e.kind.key] else [], LineUses(dir, 2, rest))
  {
    hide Mentioned, LineLength, Line;
    var text := Line(e, ctime) + rest;
    LineIsTaken(e, ctime, rest);
    LineMentions(e, ctime);
    assert text[..|Line(e, ctime)|] == Line(e, ctime) && text[|Line(e, ctime)|..] == rest;
  }

  /** Every line of the tree can be split, whatever its numbers and however long its links' targets. */
  predicate LegibleList(h: Hash, path: string, l: Listing)
    decreases l
  {
    match l
    case End => true
    case More(n, t, rest) => LegibleNode(h, path + "/" + n, t) && LegibleList(h, path, rest)
  }

  predicate LegibleNode(h: Hash, path: string, t: Tree)
    decreases t
  {
    !t.Special? && Legible(EntryFor(h, path, t), t.stat.ctime) && (t.Folder? ==> LegibleList(h, path, t.entries))
  }

  lemma {:induction false} StorableNodeIsLegible(h: Hash, path: string, t: Tree)
    requires StorableNode(h, path, t)
    ensures LegibleNode(h, path, t)
    decreases t
  {
    hide Legible;
    if t.Folder? { StorableIsLegible(h, path, t.entries); }
  }

  lemma {:induction false} StorableIsLegible(h: Hash, path: string, l: Listing)
    requires StorableList(h, path, l)
    ensures LegibleList(h, path, l)
    decreases l
  {
    if l.More? {
      StorableNodeIsLegible(h, path + "/" + l.name, l.node);
      StorableIsLegible(h, path, l.rest);
    }
  }

  lemma {:induction false} NodeUses(dir: string, h: Hash, path: string, t: Tree, rest: string)
    requires LegibleNode(h, path, t) && LineUses(dir, 2, rest).Some?
    ensures LineUses(dir, 2, NodeText(h, path, t) + rest).Some?
    ensures Includes(LineUses(dir, 2, rest).value, LineUses(dir, 2, NodeText(h, path, t) + rest).value)
    ensures CoversNode(dir, h, LineUses(dir, 2, NodeText(h, path, t) + rest).value, t)
    decreases t
  {
    hide LineUses, NodeText, ListText, Line, Legible, Key;
    NodeTextSplits(h, path, t, rest);
    var tail := if t.Folder? then ListText(h, path, t.entries) + rest else rest;
    if t.Folder? {
      ListUses(dir, h, path, t.entries, rest);
    }
    LineUsed(dir, EntryFor(h, path, t), t.stat.ctime, tail);
    if t.Folder? {
      CoversMore(dir, h, LineUses(dir, 2, tail).value, LineUses(dir, 2, NodeText(h, path, t) + rest).value, t.entries);
    }
  }

  /** Reading a tree's manifest succeeds and puts all its blobs into the used list. */
  lemma {:induction false} ListUses(dir: string, h: Hash, path: string, l: Listing, rest: string)
    requires LegibleList(h, path, l) && LineUses(dir, 2, rest).Some?
    ensures LineUses(dir, 2, ListText(h, path, l) + rest).Some?
    ensures Includes(LineUses(dir, 2, rest).value, LineUses(dir, 2, ListText(h, path, l) + rest).value)
    ensures Covers(dir, h, LineUses(dir, 2, ListText(h, path, l) + rest).value, l)
    decreases l
  {
    hide LineUses, NodeText, ListText, CoversNode, LegibleNode;
    ListTextSplits(h, path, l, rest);
    if l.More? {
      var tail := ListText(h, path, l.rest) + rest;
      ListUses(dir, h, path, l.rest, rest);
      NodeUses(dir, h, path + "/" + l.name, l.node, tail);
      CoversMore(dir, h, LineUses(dir, 2, tail).value, LineUses(dir, 2, ListText(h, path, l) + rest).value, l.rest);
    }
  }

  /** Every manifest before the first too new one has all its uses in the used list. */
  lemma {:induction false} UsesReach(dir: string, ms: seq<Option<string>>, k: nat)
    requires Uses(dir, ms).Found? && k < |ms| && forall i :: 0 <= i <= k ==> !TooNew(ms[i])
    ensures ms[k].Some?
    ensures var (version, body) := Opened(ms[k].value);
            LineUses(dir, version, body).Some? && Includes(LineUses(dir, version, body).value, Uses(dir, ms).used)
  {
    hide LineUses, Opened;
    assert !TooNew(ms[0]);
    if k > 0 {
      assert forall i :: 0 <= i <= k - 1 ==> ms[1..][i] == ms[i + 1];
      UsesReach(dir, ms[1..], k - 1);
    }
  }

  /** With a manifest of a newer version the used list is that of the manifests before it; the rest
      counts for nothing. */
  lemma {:induction false} UsesCut(dir: string, ms: seq<Option<string>>, k: nat)
    requires k < |ms| && TooNew(ms[k]) && Uses(dir, ms[..k]).Found?
    requires forall i :: 0 <= i < k ==> !TooNew(ms[i])
    ensures Uses(dir, ms) == Found(Uses(dir, ms[..k]).used, false)
  {
    hide LineUses, Opened;
    if k > 0 {
      assert !TooNew(ms[0]) && ms[..k][0] == ms[0];
      assert ms[..k][1..] == ms[1..][..k - 1];
      UsesCut(dir, ms[1..], k - 1);
    }
  }

  lemma {:induction false} HeldLeftNode(dir: string, h: Hash, blobs: Blobs, left: Blobs, used: seq<string>, t: Tree)
    requires HeldNode(dir, h, blobs, t) && CoversNode(dir, h, used, t)
    requires forall p :: p in blobs && p in used ==> p in left && left[p] == blobs[p]
    ensures HeldNode(dir, h, left, t)
    decreases t
  {
    if t.Folder? { HeldLeft(dir, h, blobs, left, used, t.entries); }
  }

  lemma {:induction false} HeldLeft(dir: string, h: Hash, blobs: Blobs, left: Blobs, used: seq<string>, l: Listing)
    requires Held(dir, h, blobs, l) && Covers(dir, h, used, l)
    requires forall p :: p in blobs && p in used ==> p in left && left[p] == blobs[p]
    ensures Held(dir, h, left, l)
    decreases l
  {
    if l.More? {
      HeldLeftNode(dir, h, blobs, left, used, l.node);
      HeldLeft(dir, h, blobs, left, used, l.rest);
    }
  }

  /** A collection that is given a tree's manifest, with no newer one before it, keeps all the tree's
      blobs. */
  lemma GcKeeps(dir: string, h: Hash, ms: seq<Option<string>>, k: nat, l: Listing, blobs: Blobs, left: Blobs)
    requires k < |ms| && ms[k] == Some(HEADER + ListText(h, ".", l)) && LegibleList(h, ".", l)
    requires forall i :: 0 <= i <= k ==> !TooNew(ms[i])
    requires Uses(dir, ms).Found? && Held(dir, h, blobs, l)
    requires forall p :: p in blobs && p in Uses(dir, ms).used ==> p in left && left[p] == blobs[p]
    ensures Held(dir, h, left, l)
  {
    hide *;
    UsesReach(dir, ms, k);
    OwnHeader(ListText(h, ".", l));
    assert ListText(h, ".", l) + "" == ListText(h, ".", l);
    NoUses(dir);
    ListUses(dir, h, ".", l, "");
    var own := LineUses(dir, 2, ListText(h, ".", l)).value;
    CoversMore(dir, h, own, Uses(dir, ms).used, l);
    HeldLeft(dir, h, blobs, left, Uses(dir, ms).used, l);
  }

  lemma NoUses(dir: string)
    ensures LineUses(dir, 2, "") == Some([])
  {}

  lemma {:induction false} CoveredNode(dir: string, h: Hash, left: Blobs, used: seq<string>, t: Tree)
    requires HeldNode(dir, h, left, t) && forall p :: p in left ==> p in used
    ensures CoversNode(dir, h, used, t)
    decreases t
  {
    if t.Folder? { CoveredList(dir, h, left, used, t.entries); }
  }

  lemma {:induction false} CoveredList(dir: string, h: Hash, left: Blobs, used: seq<string>, l: Listing)
    requires Held(dir, h, left, l) && forall p :: p in left ==> p in used
    ensures Covers(dir, h, used, l)
    decreases l
  {
    if l.More? {
      CoveredNode(dir, h, left, used, l.node);
      CoveredList(dir, h, left, used, l.rest);
    }
  }

  /** When the manifest at k is of a newer version, a full collection keeps the blobs of a tree exactly if
      the manifests before k use all of them; being listed later does not help. */
  lemma TooNewKeepsExactly(dir: string, h: Hash, ms: seq<Option<string>>, k: nat, l: Listing, blobs: Blobs, left: Blobs)
    requires k < |ms| && TooNew(ms[k]) && Uses(dir, ms[..k]).Found? && forall i :: 0 <= i < k ==> !TooNew(ms[i])
    requires Held(dir, h, blobs, l)
    requires forall p :: p in left <==> p in blobs && Uses(dir, ms).Found? && p in Uses(dir, ms).used
    requires forall p :: p in left ==> left[p] == blobs[p]
    ensures Held(dir, h, left, l) <==> Covers(dir, h, Uses(dir, ms[..k]).used, l)
  {
    hide *;
    UsesCut(dir, ms, k);
    var used := Uses(dir, ms[..k]).used;
    if Held(dir, h, left, l) {
      CoveredList(dir, h, left, used, l);
    }
    if Covers(dir, h, used, l) {
      HeldLeft(dir, h, blobs, left, used, l);
    }
  }

  /** A newer manifest listed first empties the used list, whatever follows: the collection then removes
      blobs that the other manifests need. */
  lemma TooNewFirst(dir: string, rest: seq<Option<string>>)
    ensures Uses(dir, [Some("dedupe\t3\n")] + rest) == Found([], false)
  {
    var m := "dedupe\t3\n";
    NextAfter("", "dedupe\t3", "", 0, '\n');
    assert m == "" + "dedupe\t3" + ['\n'] + "";
    assert LineLength(m) == 9 && m[..9] == m;
    assert m[6..] == "\t3\n" && "\t3\n"[1..] == "3\n" && "3\n"[1..] == "\n";
    assert SkipSpace("\t3\n") == "3\n";
    assert DigitsValue("3\n", 0) == 3;
    var ms := [Some(m)] + rest;
    assert ms[0] == Some(m);
  }
}
