/** The lines of a manifest: what print_stat, store_file and store_link write, and what the 'x' branch of
    dedupe_main reads back. The 'gc' branch reads less of a line (module Collect). */
module Entries {
  import opened Bytes
  import opened Manifest

  datatype Kind = File(key: string, size: string) | Dir | Link(to: string) | Unknown

  datatype Times = Times(atime: int, mtime: int)

  datatype Entry = Entry(kind: Kind, mode: int, uid: int, gid: int, selabel: string, times: Option<Times>, name: string)

  // ----- reading a line -----

  /** The sizes of the buffers that hold the type, the mode, the owner, the label, the times (from
      version 2 on) and the name. */
  function HeadCaps(version: int): seq<nat> {
    [4, 8, 32, 32, PATH_MAX] + (if version >= 2 then [32, 32, 32] else []) + [PATH_MAX]
  }

  /** The buffers for what follows the name. */
  function TailCaps(kind: string): seq<nat> {
    if kind == "f" then [128, 32] else if kind == "l" then [41] else []
  }

  function EntryOf(version: int, fs: seq<string>): Entry
    requires |fs| > 0 && |fs| == |HeadCaps(version) + TailCaps(fs[0])|
  {
    var n := |HeadCaps(version)|;
    Entry(
      if fs[0] == "f" then File(fs[n], fs[n + 1]) else if fs[0] == "l" then Link(fs[n])
      else if fs[0] == "d" then Dir else Unknown,
      AsOctal(Atoi(fs[1])), Atoi(fs[2]), Atoi(fs[3]), fs[4],
      if version >= 2 then Some(Times(Atoi(fs[5]), Atoi(fs[6]))) else None,
      fs[n - 1])
  }

  /** A line as an entry; None where the source would run into a null pointer or past a buffer, or, when only
      the last field lacks its tab, would go on with a buffer that it has not terminated. */
  function Parsed(version: int, line: string): (r: Option<Entry>) {
    var kind := Field(line, 0, 4);
    if kind == None then None
    else
      var fs := Fields(line, 0, HeadCaps(version) + TailCaps(kind.value));
      if fs == None then None
      else
        KindIsFirst(line, HeadCaps(version) + TailCaps(kind.value));
        Some(EntryOf(version, fs.value))
  }

  lemma KindIsFirst(line: string, caps: seq<nat>)
    requires caps != []
    ensures Fields(line, 0, caps).Some? ==> Field(line, 0, caps[0]) == Some(Fields(line, 0, caps).value[0])
  {}

  method ReadEntry(version: int, line: string) returns (r: Option<Entry>)
    ensures r == Parsed(version, line)
  {
    hide Field, Fields, AsOctal, Atoi, Next;
    var kind := Tokenize(line, 0, 4);
    if kind == None {
      return None;
    }
    var caps := HeadCaps(version) + TailCaps(kind.value);
    var rest, _ := ReadFields(line, |kind.value| + 1, caps[1..]);
    FieldsAre(line, kind.value, caps);
    if rest == None {
      return None;
    }
    KindIsFirst(line, caps);
    var fs := [kind.value] + rest.value;
    var mode := DecToOct(Atoi(fs[1]));
    r := Some(EntryOf(version, fs).(mode := mode));
  }

  lemma FieldsAre(line: string, kind: string, caps: seq<nat>)
    requires caps != [] && Field(line, 0, caps[0]) == Some(kind)
    ensures |kind| < |line| && Fields(line, 0, caps) == Prepend([kind], Fields(line, |kind| + 1, caps[1..]))
  {}

  // ----- writing a line -----

  /** What %lu shows of a long. */
  function Unsigned(n: int): nat {
    n % 0x1_0000_0000
  }

  function KindText(k: Kind): string {
    match k case File(_, _) => "f" case Dir => "d" case Link(_) => "l" case Unknown => ""
  }

  function HeadFields(e: Entry, ctime: int): seq<string>
    requires e.times.Some?
  {
    [KindText(e.kind), Digits(Unsigned(e.mode), 8), Digits(Unsigned(e.uid), 10), Digits(Unsigned(e.gid), 10), e.selabel,
     Digits(Unsigned(e.times.value.atime), 10), Digits(Unsigned(e.times.value.mtime), 10),
     Digits(Unsigned(ctime), 10), e.name]
  }

  function TailFields(k: Kind): seq<string> {
    match k case File(key, size) => [key, size] case Link(to) => [to] case _ => []
  }

  /** print_stat and the fprintf that completes its line. */
  function Line(e: Entry, ctime: int): string
    requires e.times.Some?
  {
    Tabbed(HeadFields(e, ctime) + TailFields(e.kind)) + "\n"
  }

  predicate Plain(s: string) {
    '\t' !in s && '\n' !in s
  }

  predicate Small(n: int) {
    0 <= n < 0x8000_0000
  }

  /** What splitting a line into its fields asks of it: plain texts that fit their buffers, and a line that
      fits its own. */
  predicate Legible(e: Entry, ctime: int) {
    e.kind != Unknown && e.times.Some? && 0 <= e.mode < 4096 &&
    Plain(e.selabel) && Plain(e.name) && LegibleKind(e.kind) && |Line(e, ctime)| < PATH_MAX
  }

  predicate LegibleKind(k: Kind) {
    match k
    case File(key, size) => Plain(key) && |key| < 128 && Plain(size) && |size| < 32
    case Link(to) => Plain(to)
    case _ => true
  }

  /** What a manifest line can carry: besides, numbers that fit an int, and a link target that fits its buffer
      of 41. */
  predicate Storable(e: Entry, ctime: int) {
    Legible(e, ctime) && Small(e.uid) && Small(e.gid) &&
    Small(e.times.value.atime) && Small(e.times.value.mtime) && Small(ctime) && (e.kind.Link? ==> |e.kind.to| <= 40)
  }

  lemma NumberIsClean(n: int, base: nat, cap: nat)
    requires (base == 10 && cap >= 11) || (base == 8 && 0 <= n < 4096 && cap >= 5)
    ensures Plain(Digits(Unsigned(n), base)) && |Digits(Unsigned(n), base)| < cap
  {
    hide Digits;
    DigitsFew(Unsigned(n));
    DigitsAreDigits(Unsigned(n), base);
  }

  lemma {:induction false} TabbedLonger(fs: seq<string>, k: nat)
    requires k < |fs|
    ensures |fs[k]| < |Tabbed(fs)|
  {
    if k > 0 {
      TabbedLonger(fs[1..], k - 1);
    }
  }

  lemma HeadIsClean(e: Entry, ctime: int)
    requires Legible(e, ctime)
    ensures Clean(HeadFields(e, ctime), HeadCaps(2))
  {
    hide Digits, Line, Tabbed, LegibleKind;
    NumberIsClean(e.mode, 8, 8);
    NumberIsClean(e.uid, 10, 32);
    NumberIsClean(e.gid, 10, 32);
    NumberIsClean(e.times.value.atime, 10, 32);
    NumberIsClean(e.times.value.mtime, 10, 32);
    NumberIsClean(ctime, 10, 32);
    TextsFit(e, ctime);
  }

  lemma TextsFit(e: Entry, ctime: int)
    requires e.times.Some? && |Line(e, ctime)| < PATH_MAX
    ensures |e.selabel| < PATH_MAX && |e.name| < PATH_MAX
  {
    hide Digits, Tabbed;
    var fs := HeadFields(e, ctime) + TailFields(e.kind);
    TabbedLonger(fs, 4);
    TabbedLonger(fs, 8);
  }

  /** Every line that can be stored reads back as the entry it was written for. */
  lemma LineReadsBack(e: Entry, ctime: int)
    requires Storable(e, ctime)
    ensures Parsed(2, Line(e, ctime)) == Some(e)
  {
    hide Fields, Field, Tabbed, Digits, AsOctal, Atoi;
    var fs := HeadFields(e, ctime) + TailFields(e.kind);
    var caps := HeadCaps(2) + TailCaps(fs[0]);
    HeadIsClean(e, ctime);
    assert Clean(fs, caps);
    FieldsOfTabbed("", fs, "\n", caps);
    assert "" + Tabbed(fs) + "\n" == Line(e, ctime);
    KindIsFirst(Line(e, ctime), caps);
    NumbersReadBack(e);
  }

  /** A link whose target does not fit its buffer is not read back. */
  lemma LongLinkLost(e: Entry, ctime: int)
    requires Legible(e, ctime) && e.kind.Link? && |e.kind.to| > 40
    ensures Parsed(2, Line(e, ctime)) == None
  {
    hide Fields, Field, Tabbed, Digits, AsOctal, Atoi;
    var head, to := HeadFields(e, ctime), e.kind.to;
    HeadIsClean(e, ctime);
    var caps := HeadCaps(2) + [41];
    assert head + TailFields(e.kind) == head + [to];
    TabbedLast(head, to);
    assert Line(e, ctime) == "" + Tabbed(head) + (to + "\t\n");
    FieldsOfTabbed("", head, to + "\t\n", HeadCaps(2));
    LastTooLong(Line(e, ctime), Tabbed(head), to);
    FieldsSplit(Line(e, ctime), 0, HeadCaps(2), [41]);
    KindIsFirst(Line(e, ctime), HeadCaps(2));
  }

  lemma LastTooLong(line: string, head: string, to: string)
    requires line == head + (to + "\t\n") && '\t' !in to && |to| > 40
    ensures Fields(line, |head|, [41]) == None
  {
    assert line == head + to + ['\t'] + "\n";
    NextAfter(head, to, "\n", |head|, '\t');
  }

  lemma {:induction false} TabbedLast(fs: seq<string>, f: string)
    ensures Tabbed(fs + [f]) == Tabbed(fs) + (f + "\t")
  {
    if fs == [] {
      assert fs + [f] == [f] && [f][1..] == [];
    } else {
      assert (fs + [f])[1..] == fs[1..] + [f];
      TabbedLast(fs[1..], f);
    }
  }

  /** Fields for more buffers are those for the first and then those for the rest. */
  lemma {:induction false} FieldsSplit(line: string, i: nat, a: seq<nat>, b: seq<nat>)
    requires i <= |line| && Fields(line, i, a).Some?
    ensures i + |Tabbed(Fields(line, i, a).value)| <= |line|
    ensures Fields(line, i, a + b).Some? ==> Fields(line, i + |Tabbed(Fields(line, i, a).value)|, b).Some?
    decreases |a|
  {
    hide Field;
    if a == [] {
      assert a + b == b;
    } else {
      assert (a + b)[1..] == a[1..] + b;
      var f := Field(line, i, a[0]).value;
      FieldBounds(line, i, a[0]);
      FieldsSplit(line, i + |f| + 1, a[1..], b);
      var rest := Fields(line, i + |f| + 1, a[1..]).value;
      assert Fields(line, i, a).value == [f] + rest && ([f] + rest)[1..] == rest;
    }
  }

  lemma FieldBounds(line: string, i: nat, cap: nat)
    requires i <= |line| && Field(line, i, cap).Some?
    ensures i + |Field(line, i, cap).value| < |line|
  {}

  /** A line of the first version, which has no times. */
  function OldLine(e: Entry): string
  {
    Tabbed([KindText(e.kind), Digits(Unsigned(e.mode), 8), Digits(Unsigned(e.uid), 10), Digits(Unsigned(e.gid), 10),
            e.selabel, e.name] + TailFields(e.kind)) + "\n"
  }

  /** Lines of the first version are read as entries without times. */
  lemma OldLineReads(e: Entry)
    requires e.kind != Unknown && e.times == None && 0 <= e.mode < 4096 && Small(e.uid) && Small(e.gid)
    requires Plain(e.selabel) && Plain(e.name) && |e.selabel| < PATH_MAX && |e.name| < PATH_MAX
    requires LegibleKind(e.kind) && (e.kind.Link? ==> |e.kind.to| <= 40)
    ensures Parsed(1, OldLine(e)) == Some(e)
  {
    hide Fields, Field, Tabbed, Digits, AsOctal, Atoi;
    var fs := [KindText(e.kind), Digits(Unsigned(e.mode), 8), Digits(Unsigned(e.uid), 10), Digits(Unsigned(e.gid), 10),
               e.selabel, e.name] + TailFields(e.kind);
    var caps := HeadCaps(1) + TailCaps(fs[0]);
    NumberIsClean(e.mode, 8, 8);
    NumberIsClean(e.uid, 10, 32);
    NumberIsClean(e.gid, 10, 32);
    assert Clean(fs, caps);
    FieldsOfTabbed("", fs, "\n", caps);
    assert "" + Tabbed(fs) + "\n" == OldLine(e);
    KindIsFirst(OldLine(e), caps);
    ModeReadsBack(e.mode);
    DecimalReadsBack(e.uid);
    DecimalReadsBack(e.gid);
  }

  lemma TabbedAt(fs: seq<string>, i: nat)
    requires i < |fs|
    ensures Tabbed(fs[i..]) == fs[i] + "\t" + Tabbed(fs[i + 1..])
  {
    assert fs[i..][1..] == fs[i + 1..];
  }

  /** A line as it stands in a manifest: type, mode in octal, owner, group, label, three times, name, and what
      the type adds. */
  lemma LineLayout(e: Entry, ctime: int)
    requires e.times.Some?
    ensures var t := e.times.value;
            Line(e, ctime) ==
            (match e.kind case File(_, _) => "f" case Dir => "d" case Link(_) => "l" case Unknown => "") + "\t" +
            (Digits(Unsigned(e.mode), 8) + "\t" + (Digits(Unsigned(e.uid), 10) + "\t" + (Digits(Unsigned(e.gid), 10) +
            "\t" + (e.selabel + "\t" + (Digits(Unsigned(t.atime), 10) + "\t" + (Digits(Unsigned(t.mtime), 10) + "\t" +
            (Digits(Unsigned(ctime), 10) + "\t" + (e.name + "\t" + Added(e.kind))))))))) + "\n"
  {
    hide Digits, Tabbed;
    var fs := HeadFields(e, ctime) + TailFields(e.kind);
    assert fs[0..] == fs && fs[9..] == TailFields(e.kind);
    TabbedAt(fs, 0);
    TabbedAt(fs, 1);
    TabbedAt(fs, 2);
    TabbedAt(fs, 3);
    TabbedAt(fs, 4);
    TabbedAt(fs, 5);
    TabbedAt(fs, 6);
    TabbedAt(fs, 7);
    TabbedAt(fs, 8);
    AddedIs(e.kind);
  }

  /** The key and size of a file, the target of a link. */
  function Added(k: Kind): string {
    match k case File(key, size) => key + "\t" + size + "\t" case Link(to) => to + "\t" case _ => ""
  }

  lemma AddedIs(k: Kind)
    ensures Tabbed(TailFields(k)) == Added(k)
  {
    if k.File? {
      assert TailFields(k)[1..] == [k.size] && [k.size][1..] == [];
      assert Tabbed([k.size]) == k.size + "\t" + "";
    } else if k.Link? {
      assert TailFields(k)[1..] == [];
    }
  }

  lemma NumbersReadBack(e: Entry)
    requires e.times.Some? && 0 <= e.mode < 4096 && Small(e.uid) && Small(e.gid)
    requires Small(e.times.value.atime) && Small(e.times.value.mtime)
    ensures AsOctal(Atoi(Digits(Unsigned(e.mode), 8))) == e.mode
    ensures Atoi(Digits(Unsigned(e.uid), 10)) == e.uid && Atoi(Digits(Unsigned(e.gid), 10)) == e.gid
    ensures Atoi(Digits(Unsigned(e.times.value.atime), 10)) == e.times.value.atime
    ensures Atoi(Digits(Unsigned(e.times.value.mtime), 10)) == e.times.value.mtime
  {
    hide Digits, AsOctal, Atoi;
    ModeReadsBack(e.mode);
    DecimalReadsBack(e.uid);
    DecimalReadsBack(e.gid);
    DecimalReadsBack(e.times.value.atime);
    DecimalReadsBack(e.times.value.mtime);
  }

  // ----- lines of a text -----

  /** How much fgets takes: through the first newline, at most PATH_MAX - 1 characters. */
  function LineLength(text: string): (n: nat)
    requires text != ""
    ensures 0 < n <= |text|
  {
    var k := Next(text, '\n', 0);
    var whole := if k < |text| then k + 1 else k;
    if whole < PATH_MAX then whole else PATH_MAX - 1
  }

  predicate NoNewline(fs: seq<string>) {
    forall k :: 0 <= k < |fs| ==> '\n' !in fs[k]
  }

  lemma {:induction false} TabbedPlain(fs: seq<string>)
    requires NoNewline(fs)
    ensures '\n' !in Tabbed(fs)
  {
    if fs != [] {
      assert forall k :: 0 <= k < |fs[1..]| ==> fs[1..][k] == fs[k + 1];
      TabbedPlain(fs[1..]);
    }
  }

  /** fgets takes exactly the line written. */
  lemma LineIsTaken(e: Entry, ctime: int, rest: string)
    requires Legible(e, ctime)
    ensures LineLength(Line(e, ctime) + rest) == |Line(e, ctime)|
  {
    hide Tabbed, Digits;
    var fs := HeadFields(e, ctime) + TailFields(e.kind);
    NumberIsClean(e.mode, 8, 8);
    NumberIsClean(e.uid, 10, 32);
    NumberIsClean(e.gid, 10, 32);
    NumberIsClean(e.times.value.atime, 10, 32);
    NumberIsClean(e.times.value.mtime, 10, 32);
    NumberIsClean(ctime, 10, 32);
    TabbedPlain(fs);
    NextAfter("", Tabbed(fs), rest, 0, '\n');
    assert "" + Tabbed(fs) + ['\n'] + rest == Line(e, ctime) + rest;
  }

  // ----- the version line -----

  const HEADER := "dedupe\t2\n"

  /** sscanf of the first line. */
  function HeaderVersion(line: string): Option<int> {
    if "dedupe" <= line then ScanInt(line[6..]) else None
  }

  /** The version of a manifest and the text after the version line; without such a line, version 1 and
      the whole text. */
  function Opened(text: string): (int, string) {
    if text == "" then (1, "")
    else
      var n := LineLength(text);
      var v := HeaderVersion(text[..n]);
      if v == None then (1, text) else (v.value, text[n..])
  }

  lemma OwnHeader(body: string)
    ensures Opened(HEADER + body) == (2, body)
  {
    var text := HEADER + body;
    NextAfter("", "dedupe\t2", body, 0, '\n');
    assert text == "" + "dedupe\t2" + ['\n'] + body;
    assert LineLength(text) == 9;
    assert text[..9] == HEADER && text[9..] == body;
    assert HEADER[6..] == "\t2\n";
    assert SkipSpace("\t2\n") == "2\n" by {
      assert "\t2\n"[1..] == "2\n";
    }
    assert DigitsValue("2\n", 0) == 2 by {
      assert "2\n"[1..] == "\n";
    }
  }
}
