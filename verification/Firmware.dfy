/** Firmware updates passed to the bootloader through the raw cache partition (firmware.c and the end of
    main in recovery.c), as a machine over what survives a reboot. Every step may be followed by a crash. */
module Firmware {
  import opened Bytes
  import opened Recovery

  datatype Image = Radio | Hboot

  /** What a recovery session does next. */
  datatype Stage = Starting | Working | Deciding | Writing | Written | Arming | Formatting | Rebooting | Finishing

  datatype Place = Off | MainSystem | Session(stage: Stage, args: seq<string>, image: Option<Image>)

  /** What is on the cache partition: a file system, or an image for the bootloader, in part or whole. */
  datatype Cache = Clear | Torn(image: Option<Image>) | Whole(image: Option<Image>)

  /** The control block, the cache partition, and who is running. */
  datatype State = State(block: Block, cache: Cache, place: Place)
  {
    /** There is a raw image on the cache partition. */
    predicate Raw() { !cache.Clear? }
  }

  function UpdateCommand(i: Image): string {
    if i.Radio? then "update-radio" else "update-hboot"
  }

  predicate IsUpdate(command: string) {
    command == UpdateCommand(Radio) || command == UpdateCommand(Hboot)
  }

  /** The arguments make recovery erase the cache. */
  predicate Erases(args: seq<string>) {
    (forall i :: 0 <= i < |args| ==> !("--update_package" <= args[i])) &&
    ("--wipe_cache" in args || "--wipe_data" in args)
  }

  /** The recovery field that maybe_install_firmware_update writes. */
  function FirmwareText(intent: Option<string>): string {
    var s := "recovery\n--wipe_cache\n";
    if intent == None then s
    else Strlcat(Strlcat(Strlcat(s, "--send_intent=", RECOVERY_SIZE), intent.value, RECOVERY_SIZE), "\n", RECOVERY_SIZE)
  }

  /** Outcomes the steps depend on: whether a write or install succeeds, what the main system writes, what
      the command file holds, which image is to be installed, and the intent to pass on. */
  datatype Choice = Choice(ok: bool, block: Block, file: Option<string>, image: Option<Image>, intent: Option<string>)

  datatype Step = Go(choice: Choice) | Crash

  predicate CanTake(s: State, step: Step) {
    step.Go? ==> |step.choice.block.recovery| < RECOVERY_SIZE &&
                 (step.choice.intent.Some? ==> '\n' !in step.choice.intent.value)
  }

  function Taken(s: State, step: Step): State {
    if step.Crash? then s.(place := Off)
    else
      var c := step.choice;
      match s.place
      case Off =>
        if s.block.command == BOOT_RECOVERY then s.(place := Session(Starting, [], None))
        else if IsUpdate(s.block.command) then s.(block := s.block.(command := BOOT_RECOVERY))
        else s.(place := MainSystem)
      case MainSystem => s.(block := c.block, place := Off)
      case Session(stage, args, image) => InSession(s, stage, args, image, c)
  }

  function InSession(s: State, stage: Stage, args: seq<string>, image: Option<Image>, c: Choice): State {
    match stage
    case Starting =>
      var found := ArgsFor([], false, s.block, c.file);
      State(if c.ok then Block(BOOT_RECOVERY, Kept(found)) else s.block, s.cache, Session(Working, found, None))
    case Working => State(s.block, if Erases(args) then Clear else s.cache, Session(Deciding, args, c.image))
    case Deciding =>
      if image == None then s.(place := Session(Finishing, args, None))
      else if c.ok then State(Block(BOOT_RECOVERY, FirmwareText(c.intent)), s.cache, Session(Writing, args, image))
      else s.(place := Session(Finishing, args, image))
    case Writing => State(s.block, Torn(image), Session(Written, args, image))
    case Written =>
      if c.ok then State(s.block, Whole(image), Session(Arming, args, image))
      else s.(place := Session(Formatting, args, image))
    case Arming =>
      if c.ok && image.Some? then
        State(s.block.(command := UpdateCommand(image.value)), s.cache, Session(Rebooting, args, image))
      else s.(place := Session(Formatting, args, image))
    case Formatting => State(s.block, Clear, Session(Finishing, args, image))
    case Rebooting => s.(place := Off)
    case Finishing => State(if c.ok then Block("", "") else s.block, s.cache, Off)
  }

  /** The block makes the next recovery session erase the cache. */
  predicate Cleans(b: Block) {
    |b.recovery| < RECOVERY_SIZE && Erases(Parsed(b.recovery))
  }

  predicate Inv(s: State) {
    |s.block.recovery| < RECOVERY_SIZE &&
    (s.Raw() ==>
      Cleans(s.block) && (s.block.command == BOOT_RECOVERY || IsUpdate(s.block.command)) && !s.place.MainSystem?) &&
    (s.place.Session? ==>
       match s.place.stage
       case Starting => true
       case Working => s.Raw() ==> Erases(s.place.args)
       case Deciding => !s.Raw()
       case Writing => !s.Raw() && Cleans(s.block) && s.block.command == BOOT_RECOVERY
       case Written => Cleans(s.block) && s.block.command == BOOT_RECOVERY
       case Arming => Cleans(s.block) && s.block.command == BOOT_RECOVERY
       case Formatting => true
       case Rebooting => true
       case Finishing => !s.Raw())
  }

  // ----- the text asks for the cache to be erased -----

  /** Appending piece by piece and cutting each time is cutting the whole. */
  lemma Chain(s: string, a: string, b: string)
    requires |s| < RECOVERY_SIZE
    ensures Cut(s + a + b + "\n", RECOVERY_SIZE) ==
            Strlcat(Strlcat(Strlcat(s, a, RECOVERY_SIZE), b, RECOVERY_SIZE), "\n", RECOVERY_SIZE)
  {
    hide Strlcat, Cut;
    var t := Strlcat(s, a, RECOVERY_SIZE);
    StrlcatShort(s, a);
    CutStep(s, a, b + "\n", RECOVERY_SIZE);
    assert s + a + (b + "\n") == s + a + b + "\n" && t + (b + "\n") == t + b + "\n";
    var u := Strlcat(t, b, RECOVERY_SIZE);
    StrlcatShort(t, b);
    CutStep(t, b, "\n", RECOVERY_SIZE);
    StrlcatIsCut(u, "\n");
  }

  lemma StrlcatShort(s: string, t: string)
    requires |s| < RECOVERY_SIZE
    ensures |Strlcat(s, t, RECOVERY_SIZE)| < RECOVERY_SIZE
  {}

  lemma StrlcatIsCut(s: string, t: string)
    requires |s| < RECOVERY_SIZE
    ensures Cut(s + t, RECOVERY_SIZE) == Strlcat(s, t, RECOVERY_SIZE)
  {}

  /** The intent, cut or whole, is one more argument; it is no update package. */
  lemma FirmwareCleans(intent: Option<string>)
    requires intent.Some? ==> '\n' !in intent.value
    ensures |FirmwareText(intent)| < RECOVERY_SIZE && Erases(Parsed(FirmwareText(intent)))
  {
    FirmwareIsShort(intent);
    hide Tokens, Joined, Strlcat, FirmwareText;
    if intent == None {
      TextAlone();
      Wipes("", []);
    } else {
      var p, rest := SplitText(intent.value);
      LastToken(p, rest);
      NoPackage(p, intent.value);
      Wipes(rest, [p]);
    }
  }

  lemma FirmwareIsShort(intent: Option<string>)
    ensures |FirmwareText(intent)| < RECOVERY_SIZE
  {}

  lemma TextAlone()
    ensures FirmwareText(None) == "recovery" + "\n" + ("--wipe_cache" + "\n" + "") && Tokens("") == []
  {}

  lemma LastToken(p: string, rest: string)
    requires NormalArg(p) && (rest == p || rest == p + "\n" + "")
    ensures Tokens(rest) == [p]
  {
    if rest == p {
      TokensLast(p);
    } else {
      hide Tokens;
      TokensStep(p, "");
      TokensUnfold("", [p]);
    }
  }

  lemma NoPackage(p: string, intent: string)
    requires p <= "--send_intent=" + intent
    ensures !("--update_package" <= p)
  {
    var w := "--send_intent=" + intent;
    assert |p| > 2 ==> p[2] == w[2] == 's';
  }

  /** The first argument asks for the cache to be erased, and no other asks for an update. */
  lemma Wipes(rest: string, more: seq<string>)
    requires Tokens(rest) == more && |more| <= 1 && forall i :: 0 <= i < |more| ==> !("--update_package" <= more[i])
    ensures Erases(Parsed("recovery" + "\n" + ("--wipe_cache" + "\n" + rest)))
  {
    hide Tokens;
    TokensStep("recovery", "--wipe_cache" + "\n" + rest);
    TokensStep("--wipe_cache", rest);
    var ts := ["recovery"] + (["--wipe_cache"] + more);
    assert ts[1..] == ["--wipe_cache"] + more && ts[1] == "--wipe_cache";
    assert "--wipe_cache"[2] == 'w' && "--update_package"[2] == 'u';
  }

  /** Cutting two lines and a third leaves the two and a piece of the third. */
  lemma CutThird(a: string, b: string, w: string, size: nat) returns (p: string, rest: string)
    requires |a| + |b| + 3 < size && w != "" && '\n' !in w
    ensures Cut(a + "\n" + b + "\n" + w + "\n", size) == a + "\n" + (b + "\n" + rest)
    ensures p <= w && NormalArg(p) && (rest == p || rest == p + "\n" + "")
  {
    var s := a + "\n" + b + "\n";
    var all := s + w + "\n";
    if |all| < size {
      p, rest := w, w + "\n";
      assert all == a + "\n" + (b + "\n" + rest);
    } else {
      p := w[..size - 1 - |s|];
      rest := p;
      assert all[..size - 1] == s + p;
      assert s + p == a + "\n" + (b + "\n" + p);
    }
  }

  lemma SplitText(intent: string) returns (p: string, rest: string)
    requires '\n' !in intent
    ensures FirmwareText(Some(intent)) == "recovery" + "\n" + ("--wipe_cache" + "\n" + rest)
    ensures p <= "--send_intent=" + intent && NormalArg(p) && (rest == p || rest == p + "\n" + "")
  {
    hide Cut, Strlcat;
    var s, w := "recovery\n--wipe_cache\n", "--send_intent=" + intent;
    Chain(s, "--send_intent=", intent);
    assert s == "recovery" + "\n" + "--wipe_cache" + "\n";
    assert s + "--send_intent=" + intent + "\n" == s + w + "\n";
    p, rest := CutThird("recovery", "--wipe_cache", w, RECOVERY_SIZE);
  }

  // ----- the invariant -----

  lemma CleansIsKept(b: Block, file: Option<string>)
    requires Cleans(b)
    ensures var a := ArgsFor([], false, b, file); Erases(a) && Cleans(Block(BOOT_RECOVERY, Kept(a)))
  {
    hide Tokens, FileArgs, Cut, Full;
    assert Parsed(b.recovery) != [];
    ParsedIsFixed(b.recovery);
    KeptIsShort(Parsed(b.recovery));
  }

  lemma KeptIsShort(args: seq<string>)
    ensures |Kept(args)| < RECOVERY_SIZE
  {}

  lemma InvKept(s: State, step: Step)
    requires Inv(s) && CanTake(s, step)
    ensures Inv(Taken(s, step))
  {
    hide Parsed, Kept, Erases, FirmwareText, ArgsFor;
    if step.Go? && s.place.Session? {
      match s.place.stage {
        case Starting =>
          KeptIsShort(ArgsFor([], false, s.block, step.choice.file));
          if s.Raw() {
            CleansIsKept(s.block, step.choice.file);
          }
        case Deciding => FirmwareCleans(step.choice.intent);
        case _ =>
      }
    }
  }

  ghost predicate Run(states: seq<State>, steps: seq<Step>) {
    |states| == |steps| + 1 && states[0].place == Off && !states[0].Raw() &&
    |states[0].block.recovery| < RECOVERY_SIZE &&
    forall i :: 0 <= i < |steps| ==> CanTake(states[i], steps[i]) && states[i + 1] == Taken(states[i], steps[i])
  }

  lemma {:induction false} RunInv(states: seq<State>, steps: seq<Step>, i: nat)
    requires Run(states, steps) && i < |states|
    ensures Inv(states[i])
  {
    hide Taken, CanTake;
    if i > 0 {
      RunInv(states, steps, i - 1);
      InvKept(states[i - 1], steps[i - 1]);
    }
  }

  /** Over every run, with crashes anywhere: the main system never boots with a raw image on the cache
      partition; while there is one, the next boot leads to recovery, with arguments that erase it. */
  lemma MainNeverSeesRawImage(states: seq<State>, steps: seq<Step>, i: nat, file: Option<string>)
    requires Run(states, steps) && i < |states|
    ensures states[i].place.MainSystem? ==> !states[i].Raw()
    ensures states[i].Raw() && states[i].place.Off? ==>
              (states[i].block.command == BOOT_RECOVERY || IsUpdate(states[i].block.command)) &&
              Erases(ArgsFor([], false, states[i].block, file))
  {
    RunInv(states, steps, i);
    hide Run, Parsed, Kept, Erases, ArgsFor;
    if states[i].Raw() {
      CleansIsKept(states[i].block, file);
    }
  }

  // ----- what the bootloader is told -----

  /** Recovery runs under the command to boot it; a command to install names the image that is on the cache
      partition as a whole. */
  predicate Told(s: State) {
    (s.block.command == "update-radio" ==> s.cache == Whole(Some(Radio))) &&
    (s.block.command == "update-hboot" ==> s.cache == Whole(Some(Hboot))) &&
    (IsUpdate(s.block.command) ==> s.place.Off? || (s.place.Session? && s.place.stage.Rebooting?)) &&
    (s.place.Session? ==>
       match s.place.stage
       case Rebooting => IsUpdate(s.block.command)
       case Written => s.block.command == BOOT_RECOVERY && s.cache == Torn(s.place.image)
       case Arming => s.block.command == BOOT_RECOVERY && s.cache == Whole(s.place.image)
       case _ => s.block.command == BOOT_RECOVERY)
  }

  /** The main system asks for no installation itself. */
  predicate Tame(s: State, step: Step) {
    s.place.MainSystem? && step.Go? ==> !IsUpdate(step.choice.block.command)
  }

  lemma ToldKept(s: State, step: Step)
    requires Told(s) && CanTake(s, step) && Tame(s, step)
    ensures Told(Taken(s, step))
  {
    hide Parsed, Kept, Erases, FirmwareText, ArgsFor;
  }

  /** Over every run, with crashes anywhere: the bootloader is told to install an image only while that image, and
      no other, is on the cache partition as a whole. */
  lemma {:induction false} InstallsWholeImages(states: seq<State>, steps: seq<Step>, i: nat)
    requires Run(states, steps) && i < |states| && !IsUpdate(states[0].block.command)
    requires forall k :: 0 <= k < |steps| ==> Tame(states[k], steps[k])
    ensures Told(states[i])
  {
    hide Taken, CanTake, Told, Tame;
    if i == 0 {
      ToldStarts(states[0]);
    } else {
      InstallsWholeImages(states, steps, i - 1);
      ToldKept(states[i - 1], steps[i - 1]);
    }
  }

  lemma ToldStarts(s: State)
    requires s.place == Off && !IsUpdate(s.block.command)
    ensures Told(s)
  {}

  // ----- the way back -----

  function Repeated(s: State, step: Step, n: nat): State
    decreases n
  {
    if n == 0 then s else Repeated(Taken(s, step), step, n - 1)
  }

  /** From any state that a run leaves behind, a start with nothing failing and nothing to install leads back to
      the main system: at once, or with the block and the cache partition cleared. */
  lemma BackToMain(s: State, c: Choice)
    requires Inv(s) && s.place.Off? && c.ok && c.image == None
    ensures if s.block.command == BOOT_RECOVERY then Restarted(Repeated(s, Go(c), 6))
            else if s.block.command == "update-radio" || s.block.command == "update-hboot"
            then Restarted(Repeated(s, Go(c), 7))
            else Repeated(s, Go(c), 1) == s.(place := MainSystem) && s.cache == Clear
  {
    if s.block.command == BOOT_RECOVERY {
      RecoveryEnds(s, c);
    } else if IsUpdate(s.block.command) {
      hide Parsed, Kept, Erases, ArgsFor;
      RecoveryEnds(Taken(s, Go(c)), c);
    }
  }

  predicate Restarted(s: State) {
    s == State(Block("", ""), Clear, MainSystem)
  }

  lemma RecoveryEnds(s: State, c: Choice)
    requires |s.block.recovery| < RECOVERY_SIZE && (s.Raw() ==> Cleans(s.block)) && s.place.Off?
    requires s.block.command == BOOT_RECOVERY && c.ok && c.image == None
    ensures Restarted(Repeated(s, Go(c), 6))
  {
    var found := ArgsFor([], false, s.block, c.file);
    if s.Raw() {
      CleansIsKept(s.block, c.file);
    }
    hide Parsed, Kept, Erases, ArgsFor;
    var s1 := Taken(s, Go(c));
    var s2 := Taken(s1, Go(c));
    assert s2 == State(Block(BOOT_RECOVERY, Kept(found)), s.cache, Session(Working, found, None));
    var s3 := Taken(s2, Go(c));
    assert s3 == State(Block(BOOT_RECOVERY, Kept(found)), Clear, Session(Deciding, found, None));
    var s4 := Taken(s3, Go(c));
    var s5 := Taken(s4, Go(c));
    assert s5 == State(Block("", ""), Clear, Off);
    assert Restarted(Taken(s5, Go(c)));
    SixTimes(s, Go(c));
  }

  lemma SixTimes(s: State, step: Step)
    ensures Repeated(s, step, 6) == Taken(Taken(Taken(Taken(Taken(Taken(s, step), step), step), step), step), step)
  {
    hide Taken;
    var s3 := Taken(Taken(Taken(s, step), step), step);
    assert Repeated(s, step, 6) == Repeated(s3, step, 3);
    assert Repeated(s3, step, 3) == Taken(Taken(Taken(s3, step), step), step);
  }
}
