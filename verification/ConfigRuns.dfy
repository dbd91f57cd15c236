/**
 Whole runs over the options of a start (src/config.c): when a run survives, what it leaves in the
 settings that are neither the stream nor the inputs, and what nested files come to.
 */
module ConfigRuns {
  import opened Config
  import opened Folding
  import opened NestedFiles
  import opened Options
  import opened Text

  predicate IsGiven(opt: Opt, d: Directive) {
    d.Given? && d.opt == opt
  }

  ghost predicate Gives(opt: Opt, ds: seq<Directive>) {
    exists k :: 0 <= k < |ds| && IsGiven(opt, ds[k])
  }

  /** The value of the last directive that gives an option, if any does. */
  function LastGiven(opt: Opt, ds: seq<Directive>): Option<string> {
    LastWrite(d => if IsGiven(opt, d) then Some(Some(d.value)) else None, None, ds)
  }

  function NamedAddress(ds: seq<Directive>): Option<string> {
    LastWrite((d: Directive) => if d.Address? then Some(Some(d.name)) else None, None, ds)
  }

  function NamedAction(ds: seq<Directive>): Option<string> {
    LastWrite((d: Directive) => if d.Action? then Some(Some(d.name)) else None, None, ds)
  }

  function ValueOr(o: Option<string>, initial: string): string {
    match o case Some(v) => v case None => initial
  }

  /** The arguments without a name, in order. */
  function Positionals(ds: seq<Directive>): seq<string> {
    if ds == [] then []
    else
      var last := ds[|ds| - 1];
      Positionals(ds[..|ds| - 1]) + if IsGiven(Positional, last) then [last.value] else []
  }

  lemma GivesExtend(opt: Opt, front: seq<Directive>, last: Directive)
    ensures Gives(opt, front + [last]) <==> Gives(opt, front) || IsGiven(opt, last)
  {
    var ds := front + [last];
    assert ds[|front|] == last;
    if Gives(opt, front) {
      var k :| 0 <= k < |front| && IsGiven(opt, front[k]);
      assert IsGiven(opt, ds[k]);
    }
  }

  // ---- the settings beside the stream and the inputs ----

  /** What an option with a value does to them: it writes its own. */
  lemma OptionOnValues(r: Rest, opt: Opt, value: string)
    requires RestStep(r, opt, value).Some?
    ensures var now := RestStep(r, opt, value).value;
      && now.platform == (if opt == Platform then value else r.platform)
      && now.keyDir == (if opt == KeyDir then value else r.keyDir)
      && now.saveTo == (if opt == Save then Some(value) else r.saveTo)
      && now.audioDevice == (if opt == Audio then Some(value) else r.audioDevice)
  {
  }

  lemma OptionOnSwitches(r: Rest, opt: Opt, value: string)
    requires RestStep(r, opt, value).Some?
    ensures var now := RestStep(r, opt, value).value;
      && now.fullscreen == (r.fullscreen && opt != Windowed)
      && now.forcehw == (r.forcehw || opt == ForceHw)
      && now.unsupported == (r.unsupported || opt == Unsupported)
  {
  }

  lemma StepOnValues(env: Env, s: Settings, d: Directive)
    requires DirectiveStep(env, s, d).Some?
    ensures var was, now := s.rest, DirectiveStep(env, s, d).value.rest;
      && now.platform == (if IsGiven(Platform, d) then d.value else was.platform)
      && now.keyDir == (if IsGiven(KeyDir, d) then d.value else was.keyDir)
      && now.saveTo == (if IsGiven(Save, d) then Some(d.value) else was.saveTo)
      && now.audioDevice == (if IsGiven(Audio, d) then Some(d.value) else was.audioDevice)
  {
    if d.Given? { OptionOnValues(s.rest, d.opt, d.value); }
  }

  lemma StepOnSwitches(env: Env, s: Settings, d: Directive)
    requires DirectiveStep(env, s, d).Some?
    ensures var was, now := s.rest, DirectiveStep(env, s, d).value.rest;
      && now.fullscreen == (was.fullscreen && !IsGiven(Windowed, d))
      && now.forcehw == (was.forcehw || IsGiven(ForceHw, d))
      && now.unsupported == (was.unsupported || IsGiven(Unsupported, d))
  {
    if d.Given? { OptionOnSwitches(s.rest, d.opt, d.value); }
  }

  /** After a run, a setting with a value holds the last one given. */
  lemma {:induction false} ValuesOverRun(env: Env, ds: seq<Directive>)
    requires Run(env, Defaults(env), ds).Some?
    ensures var r := Run(env, Defaults(env), ds).value.rest;
      && r.platform == ValueOr(LastGiven(Platform, ds), "default")
      && r.keyDir == ValueOr(LastGiven(KeyDir, ds), "")
      && r.saveTo == LastGiven(Save, ds) && r.audioDevice == LastGiven(Audio, ds)
  {
    if ds != [] {
      var front, last := ds[..|ds| - 1], ds[|ds| - 1];
      ValuesOverRun(env, front);
      StepOnValues(env, Run(env, Defaults(env), front).value, last);
    }
  }

  /** And a switch is thrown exactly when it was given at all. */
  lemma {:induction false} SwitchesOverRun(env: Env, ds: seq<Directive>)
    requires Run(env, Defaults(env), ds).Some?
    ensures var r := Run(env, Defaults(env), ds).value.rest;
      && (r.fullscreen <==> !Gives(Windowed, ds))
      && (r.forcehw <==> Gives(ForceHw, ds))
      && (r.unsupported <==> Gives(Unsupported, ds))
  {
    if ds != [] {
      var front, last := ds[..|ds| - 1], ds[|ds| - 1];
      SwitchesOverRun(env, front);
      StepOnSwitches(env, Run(env, Defaults(env), front).value, last);
      assert ds == front + [last];
      GivesExtend(Windowed, front, last);
      GivesExtend(ForceHw, front, last);
      GivesExtend(Unsupported, front, last);
    }
  }

  // ---- the stream ----

  /** What a directive sets the size of the picture to: a named format, or a number for one side of it. */
  function WidthWrite(d: Directive): Option<int> {
    if IsGiven(Res720, d) then Some(1280)
    else if IsGiven(Res1080, d) then Some(1920)
    else if IsGiven(Width, d) then Some(Atoi(d.value))
    else None
  }

  function HeightWrite(d: Directive): Option<int> {
    if IsGiven(Res720, d) then Some(720)
    else if IsGiven(Res1080, d) then Some(1080)
    else if IsGiven(Height, d) then Some(Atoi(d.value))
    else None
  }

  function FpsWrite(d: Directive): Option<int> {
    if IsGiven(Fps30, d) then Some(30)
    else if IsGiven(Fps60, d) then Some(60)
    else if IsGiven(Fps, d) then Some(Atoi(d.value))
    else None
  }

  function NumberWrite(opt: Opt, d: Directive): Option<int> {
    if IsGiven(opt, d) then Some(Atoi(d.value)) else None
  }

  function Written<V>(w: Option<V>, was: V): V {
    match w case Some(v) => v case None => was
  }

  lemma OptionOnWidth(s: Stream, opt: Opt, value: string)
    ensures StreamStep(s, opt, value).width == Written(WidthWrite(Given(opt, value)), s.width)
  {
  }

  lemma OptionOnHeight(s: Stream, opt: Opt, value: string)
    ensures StreamStep(s, opt, value).height == Written(HeightWrite(Given(opt, value)), s.height)
  {
  }

  lemma OptionOnRates(s: Stream, opt: Opt, value: string)
    ensures StreamStep(s, opt, value).fps == Written(FpsWrite(Given(opt, value)), s.fps)
    ensures StreamStep(s, opt, value).bitrate == Written(NumberWrite(Bitrate, Given(opt, value)), s.bitrate)
    ensures StreamStep(s, opt, value).packetSize == Written(NumberWrite(PacketSize, Given(opt, value)), s.packetSize)
  {
  }

  lemma StepOnStream(env: Env, s: Settings, d: Directive)
    requires DirectiveStep(env, s, d).Some?
    ensures var was, now := s.stream, DirectiveStep(env, s, d).value.stream;
      && now.width == Written(WidthWrite(d), was.width)
      && now.height == Written(HeightWrite(d), was.height)
      && now.fps == Written(FpsWrite(d), was.fps)
      && now.bitrate == Written(NumberWrite(Bitrate, d), was.bitrate)
      && now.packetSize == Written(NumberWrite(PacketSize, d), was.packetSize)
  {
    if d.Given? {
      OptionOnWidth(s.stream, d.opt, d.value);
      OptionOnHeight(s.stream, d.opt, d.value);
      OptionOnRates(s.stream, d.opt, d.value);
    }
  }

  /** After a run, the numbers of the stream are the last ones given, directly or by a named format. */
  lemma {:induction false} StreamOverRun(env: Env, ds: seq<Directive>)
    requires Run(env, Defaults(env), ds).Some?
    ensures var s := Run(env, Defaults(env), ds).value.stream;
      && s.width == LastWrite(WidthWrite, 1280, ds)
      && s.height == LastWrite(HeightWrite, 720, ds)
      && s.fps == LastWrite(FpsWrite, 60, ds)
      && s.bitrate == LastWrite(d => NumberWrite(Bitrate, d), -1, ds)
      && s.packetSize == LastWrite(d => NumberWrite(PacketSize, d), 1024, ds)
  {
    if ds != [] {
      var front, last := ds[..|ds| - 1], ds[|ds| - 1];
      StreamOverRun(env, front);
      StepOnStream(env, Run(env, Defaults(env), front).value, last);
    }
  }

  lemma OptionOnStreamSwitches(s: Stream, opt: Opt, value: string)
    ensures var now := StreamStep(s, opt, value);
      && now.remote == (s.remote || opt == Remote)
      && now.surround == (s.surround || opt == Surround)
      && now.hevc == (s.hevc || opt == ForceHevc)
  {
  }

  lemma StepOnStreamSwitches(env: Env, s: Settings, d: Directive)
    requires DirectiveStep(env, s, d).Some?
    ensures var was, now := s.stream, DirectiveStep(env, s, d).value.stream;
      && now.remote == (was.remote || IsGiven(Remote, d))
      && now.surround == (was.surround || IsGiven(Surround, d))
      && now.hevc == (was.hevc || IsGiven(ForceHevc, d))
  {
    if d.Given? { OptionOnStreamSwitches(s.stream, d.opt, d.value); }
  }

  /** And the switches of the stream are thrown exactly when they were given. */
  lemma {:induction false} StreamSwitchesOverRun(env: Env, ds: seq<Directive>)
    requires Run(env, Defaults(env), ds).Some?
    ensures var s := Run(env, Defaults(env), ds).value.stream;
      && (s.remote <==> Gives(Remote, ds))
      && (s.surround <==> Gives(Surround, ds))
      && (s.hevc <==> Gives(ForceHevc, ds))
  {
    if ds != [] {
      var front, last := ds[..|ds| - 1], ds[|ds| - 1];
      StreamSwitchesOverRun(env, front);
      StepOnStreamSwitches(env, Run(env, Defaults(env), front).value, last);
      assert ds == front + [last];
      GivesExtend(Remote, front, last);
      GivesExtend(Surround, front, last);
      GivesExtend(ForceHevc, front, last);
    }
  }

  /** Optimal settings: a file turns them on or off, an option turns them off. */
  function SopsWrite(d: Directive): Option<bool> {
    if d.Sops? then Some(d.on) else if IsGiven(NoSops, d) then Some(false) else None
  }

  /** Audio on the host: a file turns it on or off, an option turns it on. */
  function LocalAudioWrite(d: Directive): Option<bool> {
    if d.LocalAudioOnHost? then Some(d.on) else if IsGiven(LocalAudio, d) then Some(true) else None
  }

  lemma StepOnApp(env: Env, s: Settings, d: Directive)
    requires DirectiveStep(env, s, d).Some?
    ensures var now := DirectiveStep(env, s, d).value;
      && now.app == (if IsGiven(AppName, d) then d.value else s.app)
      && now.sops == Written(SopsWrite(d), s.sops)
      && now.localaudio == Written(LocalAudioWrite(d), s.localaudio)
  {
  }

  /** The application is the last one given; the two audio and game settings are what was last asked for. */
  lemma {:induction false} AppOverRun(env: Env, ds: seq<Directive>)
    requires Run(env, Defaults(env), ds).Some?
    ensures var s := Run(env, Defaults(env), ds).value;
      && s.app == ValueOr(LastGiven(AppName, ds), "Steam")
      && s.sops == LastWrite(SopsWrite, true, ds)
      && s.localaudio == LastWrite(LocalAudioWrite, false, ds)
  {
    if ds != [] {
      var front, last := ds[..|ds| - 1], ds[|ds| - 1];
      AppOverRun(env, front);
      StepOnApp(env, Run(env, Defaults(env), front).value, last);
    }
  }

  /**
   The bitrate that a start ends up with: the last one given, unless that is -1 or none was; then 20000 for
   a high and fast picture, 5000 for one that is neither, and 10000 for one that is either.
   */
  lemma BitrateExactly(env: Env, ds: seq<Directive>)
    requires Run(env, Defaults(env), ds).Some? && Finish(env, Run(env, Defaults(env), ds).value).Some?
    ensures var s := Finish(env, Run(env, Defaults(env), ds).value).value.stream;
      var given := LastWrite(d => NumberWrite(Bitrate, d), -1, ds);
      var high, fast := LastWrite(HeightWrite, 720, ds) >= 1080, LastWrite(FpsWrite, 60, ds) >= 60;
      s.bitrate == if given != -1 then given
                   else if high && fast then 20000
                   else if !high && !fast then 5000
                   else 10000
  {
    StreamOverRun(env, ds);
  }

  // ---- action and address ----

  lemma StepOnHost(env: Env, s: Settings, d: Directive)
    requires DirectiveStep(env, s, d).Some?
    ensures var was, now := s.rest, DirectiveStep(env, s, d).value.rest;
      if d.Action? then now.action == Some(d.name) && now.address == was.address
      else if d.Address? then now.address == Some(d.name) && now.action == was.action
      else if !IsGiven(Positional, d) then now.action == was.action && now.address == was.address
      else if was.action.None? then now.action == Some(d.value) && now.address == was.address
      else was.address.None? && now.address == Some(d.value) && now.action == was.action
  {
  }

  ghost predicate NoAction(ds: seq<Directive>) {
    forall d :: d in ds ==> !d.Action?
  }

  /**
   Without an action of its own, a run takes the first argument without a name as its action and the
   second, if there is one, as its address; an address in a file overrides that.
   */
  lemma {:induction false} HostOverRun(env: Env, ds: seq<Directive>)
    requires NoAction(ds) && Run(env, Defaults(env), ds).Some?
    ensures var r, ps := Run(env, Defaults(env), ds).value.rest, Positionals(ds);
      && |ps| <= 2
      && r.action == (if ps == [] then None else Some(ps[0]))
      && r.address == (if NamedAddress(ds).Some? then NamedAddress(ds) else if |ps| == 2 then Some(ps[1]) else None)
  {
    if ds != [] {
      var front, last := ds[..|ds| - 1], ds[|ds| - 1];
      HostOverRun(env, front);
      StepOnHost(env, Run(env, Defaults(env), front).value, last);
      assert last in ds;
    }
  }

  /** Without arguments of that kind, action and address are those named last. */
  lemma {:induction false} NamedOverRun(env: Env, ds: seq<Directive>)
    requires Positionals(ds) == [] && Run(env, Defaults(env), ds).Some?
    ensures var r := Run(env, Defaults(env), ds).value.rest;
      r.action == NamedAction(ds) && r.address == NamedAddress(ds)
  {
    if ds != [] {
      var front, last := ds[..|ds| - 1], ds[|ds| - 1];
      NamedOverRun(env, front);
      StepOnHost(env, Run(env, Defaults(env), front).value, last);
    }
  }

  // ---- when a run survives ----

  /** There is an action: one that was named, or the first argument without a name. */
  predicate ActionTaken(ds: seq<Directive>) {
    NamedAction(ds).Some? || Positionals(ds) != []
  }

  /** There is an address: one that was named, or an argument without a name that found the action taken. */
  predicate AddressTaken(ds: seq<Directive>) {
    NamedAddress(ds).Some? || Spare(ds)
  }

  /** An argument without a name stands where there is an action already. */
  predicate Spare(ds: seq<Directive>) {
    ds != [] &&
    (Spare(ds[..|ds| - 1]) || (IsGiven(Positional, ds[|ds| - 1]) && ActionTaken(ds[..|ds| - 1])))
  }

  lemma {:induction false} TakenOverRun(env: Env, ds: seq<Directive>)
    requires Run(env, Defaults(env), ds).Some?
    ensures var r := Run(env, Defaults(env), ds).value.rest;
      (r.action.Some? <==> ActionTaken(ds)) && (r.address.Some? <==> AddressTaken(ds))
  {
    if ds != [] {
      var front, last := ds[..|ds| - 1], ds[|ds| - 1];
      TakenOverRun(env, front);
      StepOnHost(env, Run(env, Defaults(env), front).value, last);
    }
  }

  /** What a directive needs of those before it, and of the surroundings. */
  predicate Allowed(env: Env, before: seq<Directive>, d: Directive) {
    match d
    case Exit => false
    case Given(opt, value) =>
      if opt == Input then |InputsOf(env, None, before)| < 6
      else if opt == MappingFile then value in env.paths
      else if opt == Positional then !ActionTaken(before) || !AddressTaken(before)
      else true
    case _ => true
  }

  lemma {:induction false} InputCount(env: Env, a: Option<string>, b: Option<string>, ds: seq<Directive>)
    ensures |InputsOf(env, a, ds)| == |InputsOf(env, b, ds)|
  {
    if ds != [] {
      InputCount(env, a, b, ds[..|ds| - 1]);
    }
  }

  lemma StepSurvivesExactly(env: Env, s: Settings, before: seq<Directive>, d: Directive)
    requires Run(env, Defaults(env), before) == Some(s)
    ensures DirectiveStep(env, s, d).Some? <==> Allowed(env, before, d)
  {
    match d
    case Given(opt, value) =>
      if opt == Input {
        InputsOverRun(env, before);
        InputCount(env, None, FindPath(env, "mappings/default.conf"), before);
      } else if opt == Positional {
        TakenOverRun(env, before);
      }
    case _ =>
  }

  /** A run goes through exactly when each of its directives is allowed where it stands. */
  lemma {:induction false} SurvivesExactly(env: Env, ds: seq<Directive>)
    ensures Run(env, Defaults(env), ds).Some? <==> forall k :: 0 <= k < |ds| ==> Allowed(env, ds[..k], ds[k])
  {
    if ds != [] {
      var front, last := ds[..|ds| - 1], ds[|ds| - 1];
      SurvivesExactly(env, front);
      forall k | 0 <= k < |front| ensures Allowed(env, front[..k], front[k]) == Allowed(env, ds[..k], ds[k]) {
        assert front[..k] == ds[..k];
      }
      var before := Run(env, Defaults(env), front);
      if before.Some? {
        StepSurvivesExactly(env, before.value, front, last);
      }
    }
  }

  // ---- starts of the program ----

  predicate FromFile(d: Directive) {
    !d.Action? && !IsGiven(Positional, d)
  }

  lemma {:induction false} FilesNameNoPositionals(lines: seq<string>)
    ensures forall d :: d in FileDirectives(lines) ==> FromFile(d)
  {
    if lines != [] {
      FilesNameNoPositionals(lines[..|lines| - 1]);
      LineNamesNoPositionals(lines[|lines| - 1]);
    }
  }

  lemma LineNamesNoPositionals(line: string)
    ensures forall d :: d in LineDirectives(line) ==> FromFile(d)
  {
    var scanned := ScanToEnd(line);
    if scanned.Some? {
      FileOptionsAreNamed();
      OptionIsNamed(scanned.value.0, FILE_OPTIONS);
    }
  }

  lemma FileOptionsAreNamed()
    ensures forall k :: 0 <= k < |FILE_OPTIONS| ==> FILE_OPTIONS[k].1 != Positional
  {
  }

  lemma {:induction false} OptionIsNamed(key: string, table: seq<(string, Opt)>)
    requires forall k :: 0 <= k < |table| ==> table[k].1 != Positional
    ensures OptionNamed(key, table) != Some(Positional)
  {
    if table != [] {
      OptionIsNamed(key, table[1..]);
    }
  }

  lemma {:induction false} NoPositionals(ds: seq<Directive>)
    requires forall d :: d in ds ==> !IsGiven(Positional, d)
    ensures Positionals(ds) == []
  {
    if ds != [] {
      NoPositionals(ds[..|ds| - 1]);
      assert ds[|ds| - 1] in ds;
    }
  }

  lemma {:induction false} PositionalsAppend(a: seq<Directive>, b: seq<Directive>)
    ensures Positionals(a + b) == Positionals(a) + Positionals(b)
  {
    if b == [] {
      assert a + b == a;
    } else {
      assert (a + b)[..|a + b| - 1] == a + b[..|b| - 1];
      PositionalsAppend(a, b[..|b| - 1]);
    }
  }

  lemma PositionalsExpanded(env: Env, stack: nat, d: Directive)
    ensures Positionals(Expanded(env, stack, d)) == if IsGiven(Positional, d) then [d.value] else []
  {
    if IsFlat(d) {
      ExpandFlat(env, stack, d);
      assert [d][..0] == [];
    } else {
      forall lines, e | e in FileDirectives(lines) ensures !IsGiven(Positional, e) { FilesNameNoPositionals(lines); }
      ExpandSingle(env, stack, [d]);
      ExpandKeeps((e: Directive) => !IsGiven(Positional, e), env, stack, [d]);
      NoPositionals(Expanded(env, stack, d));
    }
  }

  /** Expansion neither adds nor takes away arguments without a name: a file cannot give any. */
  lemma {:induction false} PositionalsExpand(env: Env, stack: nat, ds: seq<Directive>)
    ensures Positionals(Expand(env, stack, ds)) == Positionals(ds)
  {
    if ds != [] {
      var front, last := ds[..|ds| - 1], ds[|ds| - 1];
      PositionalsExpand(env, stack, front);
      PositionalsExpanded(env, stack, last);
      PositionalsAppend(Expand(env, stack, front), Expanded(env, stack, last));
    }
  }

  lemma {:induction false} ArgumentsNameNoAction(args: seq<(Opt, string)>)
    ensures NoAction(ArgumentDirectives(args))
  {
    if args != [] {
      ArgumentsNameNoAction(args[..|args| - 1]);
    }
  }

  /** The options of a command line, expanded, name no action of their own. */
  lemma ExpandedNameNoAction(env: Env, stack: nat, args: seq<(Opt, string)>)
    ensures NoAction(AllDirectives(env, stack, Arguments(args)))
  {
    var ds := DefaultFile(env) + ArgumentDirectives(args);
    ArgumentsNameNoAction(args);
    forall lines, d | d in FileDirectives(lines) ensures !d.Action? { FilesNameNoPositionals(lines); }
    ExpandKeeps((d: Directive) => !d.Action?, env, stack, ds);
  }

  /** The action of a start from a file alone is to stream. */
  lemma SingleFileStreams(env: Env, stack: nat, name: string)
    ensures var ds := AllDirectives(env, stack, SingleFile(name));
      NamedAction(ds) == Some("stream") && Positionals(ds) == []
  {
    var given := DefaultFile(env) + [Action("stream"), Given(ConfigFile, name)];
    assert AllDirectives(env, stack, SingleFile(name)) == Expand(env, stack, given);
    assert forall d :: d in given ==> d == Action("stream") || (d.Given? && d.opt == ConfigFile);
    PositionalsExpand(env, stack, given);
    NoPositionals(given);
    ExpandedNamesAction(env, stack, given, "stream");
  }

  lemma ExpandedNamesAction(env: Env, stack: nat, given: seq<Directive>, action: string)
    requires Action(action) in given
    requires forall d :: d in given && d.Action? ==> d.name == action
    ensures NamedAction(Expand(env, stack, given)) == Some(action)
  {
    var ds := Expand(env, stack, given);
    forall lines, d | d in FileDirectives(lines) ensures !d.Action? { FilesNameNoPositionals(lines); }
    ExpandKeeps((d: Directive) => d.Action? ==> d.name == action, env, stack, given);
    ExpansionHolds(Files(env), stack, given, Action(action));
    OnlyAction(ds, action);
  }

  lemma OnlyAction(ds: seq<Directive>, action: string)
    requires Action(action) in ds
    requires forall d :: d in ds && d.Action? ==> d.name == action
    ensures NamedAction(ds) == Some(action)
  {
    var writes := (d: Directive) => if d.Action? then Some(Some(d.name)) else None;
    var k :| 0 <= k < |ds| && ds[k] == Action(action);
    assert writes(ds[k]).Some?;
    LastWriteAgreed(writes, None, ds, Some(action));
  }

  /**
   What every surviving start is to do, and with which host. From a file alone it streams; otherwise the
   first argument without a name is the action and the second the host, and there is no third. A host
   named in a file, the last one named, counts before one named by an argument.
   */
  lemma ActionAndAddress(env: Env, stack: nat, cmd: CommandLine)
    requires Run(env, Defaults(env), AllDirectives(env, stack, cmd)).Some?
    ensures var ds := AllDirectives(env, stack, cmd);
      var r := Run(env, Defaults(env), ds).value.rest;
      match cmd
      case SingleFile(_) => r.action == Some("stream") && r.address == NamedAddress(ds)
      case Arguments(args) =>
        var ps := Positionals(ArgumentDirectives(args));
        && |ps| <= 2
        && r.action == (if ps == [] then None else Some(ps[0]))
        && r.address == (if NamedAddress(ds).Some? then NamedAddress(ds) else if |ps| == 2 then Some(ps[1]) else None)
  {
    var ds := AllDirectives(env, stack, cmd);
    match cmd
    case SingleFile(name) =>
      SingleFileStreams(env, stack, name);
      NamedOverRun(env, ds);
    case Arguments(args) =>
      ExpandedNameNoAction(env, stack, args);
      HostOverRun(env, ds);
      PositionalsExpand(env, stack, DefaultFile(env) + ArgumentDirectives(args));
      PositionalsAppend(DefaultFile(env), ArgumentDirectives(args));
      NoPositionals(DefaultFile(env));
  }

  /** Exactly these starts get through their options. */
  lemma StartsSurviveExactly(env: Env, stack: nat, cmd: CommandLine)
    ensures var ds := AllDirectives(env, stack, cmd);
      Run(env, Defaults(env), ds).Some? <==> forall k :: 0 <= k < |ds| ==> Allowed(env, ds[..k], ds[k])
  {
    SurvivesExactly(env, AllDirectives(env, stack, cmd));
  }

  /** The options of a command line, in order. */
  lemma {:induction false} ArgumentsAreGiven(args: seq<(Opt, string)>, k: nat)
    requires k < |args|
    ensures |ArgumentDirectives(args)| == |args| && ArgumentDirectives(args)[k] == Given(args[k].0, args[k].1)
  {
    var front := args[..|args| - 1];
    ArgumentCount(front);
    if k < |front| { ArgumentsAreGiven(front, k); }
  }

  lemma {:induction false} ArgumentCount(args: seq<(Opt, string)>)
    ensures |ArgumentDirectives(args)| == |args|
  {
    if args != [] { ArgumentCount(args[..|args| - 1]); }
  }

  /** The default file comes before the command line, if it can be read; a start without it just goes on. */
  lemma DefaultFileComesFirst(env: Env, stack: nat, left: nat, cmd: CommandLine)
    requires stack == left + 1
    ensures AllDirectives(env, stack, cmd)
         == (if env.defaultFile.Some? && env.defaultFile.value in env.files
             then Expand(env, left, FileDirectives(Lines(env.files[env.defaultFile.value]))) else [])
          + Expand(env, stack, CommandDirectives(cmd))
  {
    ExpandAppend(env, stack, DefaultFile(env), CommandDirectives(cmd));
    ExpandSingle(env, stack, DefaultFile(env));
    if env.defaultFile.Some? && env.defaultFile.value in env.files {
      OfReadable(Files(env), stack, left, Given(ConfigFile, env.defaultFile.value));
    }
  }

  /** The key directory is the last one given, or the cache directory if none was. */
  lemma KeyDirOfStart(env: Env, ds: seq<Directive>)
    requires Run(env, Defaults(env), ds).Some? && Finish(env, Run(env, Defaults(env), ds).value).Some?
    ensures var given := ValueOr(LastGiven(KeyDir, ds), "");
      Finish(env, Run(env, Defaults(env), ds).value).value.rest.keyDir == if given == "" then env.cacheDir else given
  {
    ValuesOverRun(env, ds);
  }

  // ---- nested files ----

  lemma {:induction false} ExitEndsRun(env: Env, s: Settings, ds: seq<Directive>)
    requires Run(env, s, ds).Some?
    ensures Exit !in ds
  {
    if ds != [] {
      ExitEndsRun(env, s, ds[..|ds| - 1]);
    }
  }

  /** What a command line and the default file give before files are expanded. */
  function GivenDirectives(env: Env, cmd: CommandLine): seq<Directive> {
    DefaultFile(env) + CommandDirectives(cmd)
  }

  /** A start that survives with some stack is the same with any deeper one. */
  lemma SurvivorsNeedNoDeeperStack(env: Env, stack: nat, deeper: nat, cmd: CommandLine)
    requires stack <= deeper && Run(env, Defaults(env), AllDirectives(env, stack, cmd)).Some?
    ensures AllDirectives(env, deeper, cmd) == AllDirectives(env, stack, cmd)
  {
    ExitEndsRun(env, Defaults(env), AllDirectives(env, stack, cmd));
    ExpansionSettles(Files(env), stack, deeper, GivenDirectives(env, cmd));
  }

  /**
   With as many levels of nested calls as there are files, the options of a start no longer depend on the
   stack, unless they lead into a cycle of files; then the program ends with every stack.
   */
  lemma StartsSettleOrEnd(env: Env, stack: nat, cmd: CommandLine)
    ensures var cycle := LeadsInto(Files(env), CyclicFiles(Files(env), env.files.Keys), GivenDirectives(env, cmd));
      && (cycle ==> Run(env, Defaults(env), AllDirectives(env, stack, cmd)).None?)
      && (!cycle && stack >= |env.files| ==>
          AllDirectives(env, stack, cmd) == AllDirectives(env, |env.files|, cmd))
  {
    assert |env.files.Keys| == |env.files|;
    SettlesOrCycles(Files(env), env.files.Keys, stack, GivenDirectives(env, cmd));
    if Run(env, Defaults(env), AllDirectives(env, stack, cmd)).Some? {
      ExitEndsRun(env, Defaults(env), AllDirectives(env, stack, cmd));
    }
  }

  /** Among files of which none includes itself, directly or through others, there is no such cycle. */
  lemma AcyclicStartsSettle(env: Env, rank: string -> nat, stack: nat, cmd: CommandLine)
    requires Acyclic(Files(env), rank) && stack >= |env.files|
    ensures AllDirectives(env, stack, cmd) == AllDirectives(env, |env.files|, cmd)
  {
    CyclicFilesAreCyclic(Files(env), env.files.Keys);
    AcyclicHasNoCycle(Files(env), rank, CyclicFiles(Files(env), env.files.Keys), GivenDirectives(env, cmd));
    StartsSettleOrEnd(env, stack, cmd);
  }

  /** A start that leads into files which include one another ends the program with every stack. */
  lemma CyclicStartsEnd(env: Env, files: set<string>, stack: nat, cmd: CommandLine)
    requires Cyclic(Files(env), files) && LeadsInto(Files(env), files, GivenDirectives(env, cmd))
    ensures Run(env, Defaults(env), AllDirectives(env, stack, cmd)).None?
  {
    CycleNeverSettles(Files(env), files, stack, GivenDirectives(env, cmd));
    if Run(env, Defaults(env), AllDirectives(env, stack, cmd)).Some? {
      ExitEndsRun(env, Defaults(env), AllDirectives(env, stack, cmd));
    }
  }
}
