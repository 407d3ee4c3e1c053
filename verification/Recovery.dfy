/** The arguments of recovery and the bootloader control block that keeps them across reboots
    (get_args and finish_recovery of recovery.c, bootloader.h). */
module Recovery {
  import opened Bytes
  import opened Manifest
  import Entries

  const RECOVERY_SIZE := 1024
  const MAX_ARGS := 100

  /** The control block, as the strings its buffers hold. */
  datatype Block = Block(command: string, recovery: string)

  const BOOT_RECOVERY := "boot-recovery"

  // ----- text -----

  /** strlcat into a buffer of size characters. */
  function Strlcat(dst: string, src: string, size: nat): (r: string)
    requires |dst| < size
    ensures |r| < size
  {
    if |dst| + |src| < size then dst + src else (dst + src)[..size - 1]
  }

  /** The arguments, each followed by a newline. */
  function Joined(args: seq<string>): string {
    if args == [] then "" else args[0] + "\n" + Joined(args[1..])
  }

  function Full(args: seq<string>): string {
    "recovery\n" + Joined(args)
  }

  function Cut(s: string, size: nat): string
    requires size > 0
  {
    if |s| < size then s else s[..size - 1]
  }

  /** What follows the first newline. */
  function After(s: string): (r: string)
    requires s != ""
    ensures |r| < |s|
  {
    var k := Next(s, '\n', 0);
    if k < |s| then s[k + 1..] else ""
  }

  /** The pieces between newlines, empty ones left out, as strtok finds them. */
  function Tokens(s: string): seq<string>
    decreases |s|
  {
    if s == "" then []
    else
      var k := Next(s, '\n', 0);
      (if k == 0 then [] else [s[..k]]) + Tokens(After(s))
  }

  /** The arguments in a control block: those after the word recovery, at most 99 of them. */
  function Parsed(s: string): seq<string> {
    var ts := Tokens(s);
    if ts == [] || ts[0] != "recovery" then []
    else if |ts| <= MAX_ARGS then ts[1..] else ts[1..MAX_ARGS]
  }

  predicate NormalArg(a: string) {
    a != "" && '\n' !in a
  }

  ghost predicate Normal(args: seq<string>) {
    forall i :: 0 <= i < |args| ==> NormalArg(args[i])
  }

  // ----- writing and reading the block -----

  /** The loop that fills the recovery field. */
  method WriteArgs(args: seq<string>) returns (s: string)
    ensures s == Cut(Full(args), RECOVERY_SIZE)
  {
    s := "recovery\n";
    assert args[0..] == args;
    for i := 0 to |args|
      invariant |s| < RECOVERY_SIZE && Cut(Full(args), RECOVERY_SIZE) == Cut(s + Joined(args[i..]), RECOVERY_SIZE)
    {
      ghost var rest := Joined(args[i + 1..]);
      assert args[i..][1..] == args[i + 1..];
      CutStep(s, args[i], "\n" + rest, RECOVERY_SIZE);
      assert s + Joined(args[i..]) == s + args[i] + ("\n" + rest);
      s := Strlcat(s, args[i], RECOVERY_SIZE);
      CutStep(s, "\n", rest, RECOVERY_SIZE);
      assert s + ("\n" + rest) == s + "\n" + rest;
      s := Strlcat(s, "\n", RECOVERY_SIZE);
    }
    assert s + "" == s;
  }

  lemma CutStep(s: string, t: string, rest: string, size: nat)
    requires |s| < size
    ensures Cut(s + t + rest, size) == Cut(Strlcat(s, t, size) + rest, size)
  {
    if |s| + |t| >= size {
      assert (s + t + rest)[..size - 1] == (s + t)[..size - 1];
      assert ((s + t)[..size - 1] + rest)[..size - 1] == (s + t)[..size - 1];
    }
  }

  lemma TokensUnfold(s: string, ts: seq<string>)
    ensures s == "" ==> ts + Tokens(s) == ts
    ensures s != "" ==>
              var k := Next(s, '\n', 0);
              ts + Tokens(s) == (if k == 0 then ts else ts + [s[..k]]) + Tokens(After(s))
  {
    hide Next, After;
    if s != "" {
      var k := Next(s, '\n', 0);
      if k > 0 {
        assert ts + ([s[..k]] + Tokens(After(s))) == ts + [s[..k]] + Tokens(After(s));
      } else {
        assert ts + ([] + Tokens(After(s))) == ts + Tokens(After(s));
      }
    }
  }

  /** The strtok loop. */
  method ReadArgs(s: string) returns (args: seq<string>)
    ensures args == Parsed(s)
  {
    hide Tokens, Next;
    var ts, rest := [], s;
    assert [] + Tokens(s) == Tokens(s);
    while rest != "" && |ts| < MAX_ARGS
      invariant |ts| <= MAX_ARGS && ts + Tokens(rest) == Tokens(s)
      decreases |rest|
    {
      TokensUnfold(rest, ts);
      var k := Next(rest, '\n', 0);
      if k > 0 {
        ts := ts + [rest[..k]];
      }
      rest := After(rest);
    }
    TokensUnfold(rest, ts);
    assert Tokens(s)[..|ts|] == ts;
    if ts == [] || ts[0] != "recovery" {
      return [];
    }
    args := ts[1..];
    assert |ts| == MAX_ARGS ==> args == Tokens(s)[1..MAX_ARGS];
  }

  // ----- round trip -----

  lemma TokensStep(a: string, rest: string)
    requires NormalArg(a)
    ensures Tokens(a + "\n" + rest) == [a] + Tokens(rest)
  {
    var s := a + "\n" + rest;
    NextAfter("", a, rest, 0, '\n');
    assert s == "" + a + ['\n'] + rest;
    hide Tokens, Next;
    TokensUnfold(s, []);
    assert s[..|a|] == a && After(s) == rest;
    assert [] + Tokens(s) == Tokens(s) && [] + [a] == [a];
  }

  lemma TokensLast(a: string)
    requires NormalArg(a)
    ensures Tokens(a) == [a]
  {
    NextAbsent(a, '\n', 0);
    assert a[..|a|] == a;
  }

  lemma JoinedStep(args: seq<string>)
    ensures args == [] ==> Joined(args) == ""
    ensures args != [] ==> args == [args[0]] + args[1..] && Joined(args) == args[0] + "\n" + Joined(args[1..])
  {}

  lemma {:induction false} TokensOfJoined(args: seq<string>)
    requires Normal(args)
    ensures Tokens(Joined(args)) == args
  {
    hide Tokens, Joined, Next;
    JoinedStep(args);
    if args == [] {
      TokensUnfold("", []);
      assert [] + Tokens("") == Tokens("");
    } else {
      assert NormalArg(args[0]) && Normal(args[1..]);
      TokensOfJoined(args[1..]);
      TokensStep(args[0], Joined(args[1..]));
    }
  }

  /** The last newline is not needed. */
  lemma {:induction false} TokensOfCut(args: seq<string>)
    requires Normal(args) && args != []
    ensures Joined(args) != "" && Tokens(Joined(args)[..|Joined(args)| - 1]) == args
  {
    hide Tokens, Joined, Next;
    JoinedStep(args);
    var a, rest, j := args[0], args[1..], Joined(args);
    assert NormalArg(a) && Normal(rest);
    if rest == [] {
      JoinedStep(rest);
      assert j[..|j| - 1] == a;
      TokensLast(a);
    } else {
      TokensOfCut(rest);
      var cut := Joined(rest)[..|Joined(rest)| - 1];
      assert j[..|j| - 1] == a + "\n" + cut;
      TokensStep(a, cut);
    }
  }

  /** Tokens are normal, and joined again they are at most one character longer. */
  lemma {:induction false} TokensAreNormal(s: string)
    ensures Normal(Tokens(s)) && |Joined(Tokens(s))| <= |s| + 1
    decreases |s|
  {
    hide Tokens, Joined, Next;
    TokensUnfold(s, []);
    JoinedStep(Tokens(s));
    assert [] + Tokens(s) == Tokens(s);
    if s != "" {
      var k := Next(s, '\n', 0);
      NextFound(s, '\n', 0);
      AfterIs(s);
      TokensAreNormal(After(s));
      if k > 0 {
        assert Tokens(s) == [s[..k]] + Tokens(After(s));
        assert s[0..k] == s[..k] && NormalArg(s[..k]);
      } else {
        assert Tokens(s) == Tokens(After(s));
      }
      if After(s) == "" {
        TokensUnfold("", []);
        JoinedStep([]);
      }
    }
  }

  lemma AfterIs(s: string)
    requires s != ""
    ensures var k := Next(s, '\n', 0); |After(s)| == if k < |s| then |s| - k - 1 else 0
  {}

  function Kept(args: seq<string>): string {
    Cut(Full(args), RECOVERY_SIZE)
  }

  lemma FullIsJoined(args: seq<string>)
    ensures Full(args) == Joined(["recovery"] + args)
  {
    assert (["recovery"] + args)[1..] == args;
  }

  /** A list that fits, up to its last newline, is found again. */
  lemma KeptTokens(args: seq<string>)
    requires Normal(args) && |Full(args)| <= RECOVERY_SIZE
    ensures Tokens(Kept(args)) == ["recovery"] + args
  {
    hide Tokens, Joined;
    var all := ["recovery"] + args;
    assert Normal(all);
    FullIsJoined(args);
    TokensOfJoined(all);
    TokensOfCut(all);
  }

  lemma {:induction false} JoinedPrefix(args: seq<string>, n: nat)
    requires n <= |args|
    ensures |Joined(args[..n])| <= |Joined(args)|
  {
    if n > 0 {
      JoinedPrefix(args[1..], n - 1);
      assert args[..n][1..] == args[1..][..n - 1];
    }
  }

  /** The arguments in any block are normal and few, and storing them gives a block with the same ones. */
  lemma ParsedIsFixed(s: string)
    requires |s| < RECOVERY_SIZE
    ensures var a := Parsed(s);
            Normal(a) && |a| < MAX_ARGS && |Full(a)| <= RECOVERY_SIZE && Parsed(Kept(a)) == a
  {
    hide Tokens, Joined, Cut, Full;
    var a, ts := Parsed(s), Tokens(s);
    TokensAreNormal(s);
    FullLength(a);
    if ts == [] || ts[0] != "recovery" {
      JoinedStep([]);
    } else {
      var n := if |ts| < MAX_ARGS then |ts| else MAX_ARGS;
      assert ts[..n] == ["recovery"] + a;
      JoinedPrefix(ts, n);
      FullIsJoined(a);
    }
    KeptTokens(a);
    assert (["recovery"] + a)[1..] == a;
  }

  /** Whatever was stored, the list read back is from then on unchanged by storing and reading: when the
      arguments overflow the block, the cut list is a fixed point. */
  lemma CutListIsFixed(args: seq<string>)
    ensures var a := Parsed(Kept(args));
            Normal(a) && |a| < MAX_ARGS && |Full(a)| <= RECOVERY_SIZE && Parsed(Kept(a)) == a
  {
    assert |Kept(args)| < RECOVERY_SIZE;
    ParsedIsFixed(Kept(args));
  }

  lemma FullLength(args: seq<string>)
    ensures |Full(args)| == 9 + |Joined(args)|
  {}

  /** The arguments come back exactly when they are normal, at most 99, and fit the block up to the last
      newline. */
  lemma KeptExactly(args: seq<string>)
    ensures Parsed(Kept(args)) == args <==> Normal(args) && |args| <= 99 && |Full(args)| <= 1024
  {
    CutListIsFixed(args);
    hide Tokens, Joined, Cut, Full;
    if Normal(args) && |args| < MAX_ARGS && |Full(args)| <= RECOVERY_SIZE {
      KeptTokens(args);
      assert (["recovery"] + args)[1..] == args;
    }
  }

  // ----- get_args -----

  predicate LineEnd(c: char) {
    c == '\r' || c == '\n'
  }

  /** strtok of one line. */
  function FirstToken(line: string): string {
    if line == "" then ""
    else if LineEnd(line[0]) then FirstToken(line[1..])
    else UpToLineEnd(line)
  }

  function UpToLineEnd(line: string): string {
    if line == "" || LineEnd(line[0]) then "" else [line[0]] + UpToLineEnd(line[1..])
  }

  /** The arguments in the command file, at most n of them. */
  function FileArgs(text: string, n: nat): (r: seq<string>)
    ensures |r| <= n
    decreases |text|
  {
    if n == 0 || text == "" then []
    else
      var k := Entries.LineLength(text);
      var token := FirstToken(text[..k]);
      if token == "" then FileArgs(text[k..], n) else [token] + FileArgs(text[k..], n - 1)
  }

  /** The lines of a command file, each with the same line end. */
  function Lined(args: seq<string>, end: string): string {
    if args == [] then "" else args[0] + end + Lined(args[1..], end)
  }

  /** An argument that a line of the command file can hold. */
  predicate Linear(a: string) {
    a != "" && '\n' !in a && '\r' !in a && |a| + 2 < 4096
  }

  ghost predicate AllLinear(args: seq<string>) {
    forall i :: 0 <= i < |args| ==> Linear(args[i])
  }

  lemma {:induction false} UpToEnd(a: string, end: string)
    requires '\n' !in a && '\r' !in a && end != "" && LineEnd(end[0])
    ensures UpToLineEnd(a + end) == a
  {
    if a == "" {
      assert a + end == end;
    } else {
      assert (a + end)[1..] == a[1..] + end;
      UpToEnd(a[1..], end);
    }
  }

  /** One line is taken for its argument. */
  lemma LineTaken(a: string, end: string, rest: string)
    requires Linear(a) && (end == "\n" || end == "\r\n")
    ensures var text := a + end + rest;
            Entries.LineLength(text) == |a + end| && text[..|a + end|] == a + end && text[|a + end|..] == rest &&
            FirstToken(a + end) == a
  {
    var body := a + end[..|end| - 1];
    assert a + end == body + "\n";
    assert '\n' !in body;
    NextAfter("", body, rest, 0, '\n');
    assert a + end + rest == "" + body + ['\n'] + rest;
    UpToEnd(a, end);
    assert (a + end)[0] == a[0];
  }

  /** A command file gives the arguments of its lines, as many as there is room for. */
  lemma {:induction false} FileGives(args: seq<string>, end: string, n: nat)
    requires AllLinear(args) && (end == "\n" || end == "\r\n")
    ensures FileArgs(Lined(args, end), n) == if |args| <= n then args else args[..n]
    decreases |args|
  {
    if args != [] && n > 0 {
      hide FirstToken, Entries.LineLength, Linear;
      LinearMeans(args[0]);
      LineTaken(args[0], end, Lined(args[1..], end));
      FileGives(args[1..], end, n - 1);
      assert args == [args[0]] + args[1..];
    }
  }

  lemma LinearMeans(a: string)
    requires Linear(a)
    ensures a != ""
  {}

  method ReadFile(text: string) returns (args: seq<string>)
    ensures args == FileArgs(text, MAX_ARGS - 1)
  {
    args := [];
    var rest := text;
    while |args| < MAX_ARGS - 1 && rest != ""
      invariant |args| < MAX_ARGS && args + FileArgs(rest, MAX_ARGS - 1 - |args|) == FileArgs(text, MAX_ARGS - 1)
      decreases |rest|
    {
      var k := Entries.LineLength(rest);
      var token := FirstToken(rest[..k]);
      if token != "" {
        assert args + ([token] + FileArgs(rest[k..], MAX_ARGS - 2 - |args|)) ==
               args + [token] + FileArgs(rest[k..], MAX_ARGS - 2 - |args|);
        args := args + [token];
      }
      rest := rest[k..];
    }
  }

  /** Where the arguments come from: the command line, else the control block unless it is to be ignored,
      else the command file. A block that could not be read is empty. */
  function ArgsFor(line: seq<string>, ignore: bool, block: Block, file: Option<string>): seq<string> {
    if line != [] then line
    else if !ignore && Parsed(block.recovery) != [] then Parsed(block.recovery)
    else if file.Some? then FileArgs(file.value, MAX_ARGS - 1)
    else []
  }

  /** get_args: finds the arguments and writes them back, with the command to boot recovery again. */
  method GetArgs(line: seq<string>, ignore: bool, block: Block, file: Option<string>)
      returns (args: seq<string>, out: Block)
    ensures args == ArgsFor(line, ignore, block, file)
    ensures line != [] ==> args == line
    ensures line == [] && !ignore && Parsed(block.recovery) != [] ==> args == Parsed(block.recovery)
    ensures line == [] && (ignore || Parsed(block.recovery) == []) ==>
              args == if file.Some? then FileArgs(file.value, MAX_ARGS - 1) else []
    ensures out == Block(BOOT_RECOVERY, Kept(args))
  {
    hide Parsed, FileArgs, Cut, Full;
    args := line;
    if args == [] && !ignore {
      args := ReadArgs(block.recovery);
    }
    if args == [] && file.Some? {
      args := ReadFile(file.value);
    }
    var s := WriteArgs(args);
    out := Block(BOOT_RECOVERY, s);
  }

  lemma {:induction false} UpToLineEndIsNormal(line: string)
    ensures '\n' !in UpToLineEnd(line)
  {
    if line != "" && !LineEnd(line[0]) {
      UpToLineEndIsNormal(line[1..]);
    }
  }

  lemma {:induction false} FirstTokenIsNormal(line: string)
    ensures FirstToken(line) != "" ==> NormalArg(FirstToken(line))
  {
    if line != "" && LineEnd(line[0]) {
      FirstTokenIsNormal(line[1..]);
    } else {
      UpToLineEndIsNormal(line);
    }
  }

  lemma {:induction false} FileArgsAreNormal(text: string, n: nat)
    ensures Normal(FileArgs(text, n))
    decreases |text|
  {
    hide FirstToken, Entries.LineLength;
    if n > 0 && text != "" {
      var k := Entries.LineLength(text);
      FirstTokenIsNormal(text[..k]);
      FileArgsAreNormal(text[k..], n);
      FileArgsAreNormal(text[k..], n - 1);
    }
  }

  /** What get_args finds in a control block or a command file is normal, and few enough to be read back. */
  lemma FoundIsNormal(ignore: bool, block: Block, file: Option<string>)
    requires |block.recovery| < RECOVERY_SIZE
    ensures Normal(ArgsFor([], ignore, block, file)) && |ArgsFor([], ignore, block, file)| < MAX_ARGS
  {
    hide Parsed, FileArgs;
    ParsedIsFixed(block.recovery);
    if file.Some? {
      FileArgsAreNormal(file.value, MAX_ARGS - 1);
    }
  }

  // ----- restarts -----

  /** The control block after get_args has run in a number of boots, with these command files. */
  function BlockAfter(block: Block, files: seq<Option<string>>): Block {
    if files == [] then block
    else
      var before := BlockAfter(block, files[..|files| - 1]);
      Block(BOOT_RECOVERY, Kept(ArgsFor([], false, before, files[|files| - 1])))
  }

  /** There is nothing but newlines in s. */
  predicate Blank(s: string) {
    forall i :: 0 <= i < |s| ==> s[i] == '\n'
  }

  /** Once get_args has stored a list that is not blank in the block, every later boot is into recovery and
      finds the same arguments, whatever has become of the command file. */
  lemma {:induction false} EveryBootRestarts(args: seq<string>, files: seq<Option<string>>, file: Option<string>)
    requires !Blank(Kept(args)[9..])
    ensures var block := BlockAfter(Block(BOOT_RECOVERY, Kept(args)), files);
            block.command == BOOT_RECOVERY && Parsed(Kept(args)) != [] &&
            ArgsFor([], false, block, file) == Parsed(Kept(args))
    ensures var block := BlockAfter(Block(BOOT_RECOVERY, Kept(args)), files);
            block.recovery == Kept(args) || block.recovery == Kept(Parsed(Kept(args)))
  {
    hide Parsed, FileArgs, Cut, Full;
    NothingKeptExactly(args);
    CutListIsFixed(args);
    if files != [] {
      EveryBootRestarts(args, files[..|files| - 1], files[|files| - 1]);
    }
  }

  /** Nothing is found in the block exactly when it is blank after its first word, as for no arguments or
      only empty ones. */
  lemma NothingKeptExactly(args: seq<string>)
    ensures Parsed(Kept(args)) == [] <==> Blank(Kept(args)[9..])
  {
    hide Tokens, Joined, Cut, Full, Blank;
    var rest := RestOfKept(args);
    TokensStep("recovery", rest);
    NoTokens(rest);
  }

  lemma RestOfKept(args: seq<string>) returns (rest: string)
    ensures rest == Kept(args)[9..] && Kept(args) == "recovery" + "\n" + rest
  {
    hide Joined;
    rest := Kept(args)[9..];
    assert Kept(args) == "recovery" + "\n" + rest;
  }

  lemma {:induction false} NoTokens(s: string)
    ensures Tokens(s) == [] <==> Blank(s)
    decreases |s|
  {
    hide Tokens, Next;
    TokensUnfold(s, []);
    assert [] + Tokens(s) == Tokens(s);
    if s != "" {
      NextFound(s, '\n', 0);
      AfterFirst(s);
      NoTokens(After(s));
    }
  }

  lemma AfterFirst(s: string)
    requires s != ""
    ensures Next(s, '\n', 0) == 0 <==> s[0] == '\n'
    ensures s[0] == '\n' ==> s == ['\n'] + After(s)
  {}

  /** Arguments that are normal do not leave the block blank. */
  lemma NormalIsKept(args: seq<string>)
    requires Normal(args) && args != []
    ensures !Blank(Kept(args)[9..])
  {
    assert NormalArg(args[0]);
    JoinedStep(args);
    hide Joined;
    assert Kept(args)[9..][0] == Full(args)[9] == Joined(args)[0] == args[0][0];
  }
}
