/**
 The configuration (src/config.c): options given on the command line and in nested configuration files,
 the file that `config_save` writes, and the checks and derived values at the end of `config_parse`.
 */
module Config {
  import opened CTypes
  import opened Folding
  import opened NestedFiles
  import opened Options
  import opened Text

  const MAX_INPUTS := 6

  /** The options of the command line; `Positional` is an argument without a name. */
  datatype Opt =
    | Res720 | Res1080 | Width | Height | Fps30 | Fps60 | Bitrate | PacketSize | AppName | Input | MappingFile
    | NoSops | Audio | LocalAudio | ConfigFile | Platform | Save | KeyDir | Remote | Windowed | Surround | Fps
    | ForceHw | ForceHevc | Unsupported | Positional | Unknown

  datatype Stream = Stream(
    width: int32, height: int32, fps: int32, bitrate: int32, packetSize: int32,
    remote: bool, surround: bool, hevc: bool)

  datatype InputConfig = InputConfig(path: string, mapping: Option<string>)

  /** The inputs, the mapping in force, and the flags that are kept about them. */
  datatype Devices = Devices(inputs: seq<InputConfig>, mapping: Option<string>, inputAdded: bool, mapped: bool)

  datatype Rest = Rest(
    action: Option<string>, address: Option<string>, platform: string, saveTo: Option<string>, keyDir: string,
    fullscreen: bool, forcehw: bool, unsupported: bool, audioDevice: Option<string>)

  datatype Settings = Settings(
    stream: Stream, app: string, sops: bool, localaudio: bool, devices: Devices, rest: Rest)

  /** The surroundings: readable files by name, and what the search for a mapping file finds for a name. */
  datatype Env = Env(
    files: map<string, string>, paths: map<string, string>, defaultFile: Option<string>, cacheDir: string)

  const DEFAULT_STREAM := Stream(1280, 720, 60, -1, 1024, false, false, false)

  function Defaults(env: Env): Settings {
    Settings(
      DEFAULT_STREAM, "Steam", true, false,
      Devices([], FindPath(env, "mappings/default.conf"), false, true),
      Rest(None, None, "default", None, "", true, false, false, None))
  }

  function FindPath(env: Env, name: string): Option<string> {
    if name in env.paths then Some(env.paths[name]) else None
  }

  // ---- one directive ----

  /** What a line of a file or an argument asks for, nested files being expanded in place; `Exit` ends the program. */
  datatype Directive =
    | Address(name: string)
    | Sops(on: bool)
    | LocalAudioOnHost(on: bool)
    | Action(name: string)
    | Given(opt: Opt, value: string)
    | Exit

  function StreamStep(s: Stream, opt: Opt, value: string): Stream {
    match opt
    case Res720 => s.(width := 1280, height := 720)
    case Res1080 => s.(width := 1920, height := 1080)
    case Width => s.(width := Atoi(value))
    case Height => s.(height := Atoi(value))
    case Fps30 => s.(fps := 30)
    case Fps60 => s.(fps := 60)
    case Bitrate => s.(bitrate := Atoi(value))
    case PacketSize => s.(packetSize := Atoi(value))
    case Remote => s.(remote := true)
    case Surround => s.(surround := true)
    case Fps => s.(fps := Atoi(value))
    case ForceHevc => s.(hevc := true)
    case _ => s
  }

  function DeviceStep(env: Env, d: Devices, opt: Opt, value: string): Option<Devices> {
    if opt == Input then
      if |d.inputs| >= MAX_INPUTS then None
      else Some(Devices(d.inputs + [InputConfig(value, d.mapping)], d.mapping, true, true))
    else if opt == MappingFile then
      if value in env.paths then Some(Devices(d.inputs, Some(env.paths[value]), d.inputAdded, false)) else None
    else Some(d)
  }

  function RestStep(r: Rest, opt: Opt, value: string): Option<Rest> {
    match opt
    case Audio => Some(r.(audioDevice := Some(value)))
    case Platform => Some(r.(platform := value))
    case Save => Some(r.(saveTo := Some(value)))
    case KeyDir => Some(r.(keyDir := value))
    case Windowed => Some(r.(fullscreen := false))
    case ForceHw => Some(r.(forcehw := true))
    case Unsupported => Some(r.(unsupported := true))
    case Positional =>
      if r.action.None? then Some(r.(action := Some(value)))
      else if r.address.None? then Some(r.(address := Some(value)))
      else None
    case _ => Some(r)
  }

  /** The options other than a nested file; `None` ends the program. */
  function OptStep(env: Env, s: Settings, opt: Opt, value: string): Option<Settings> {
    var devices, rest := DeviceStep(env, s.devices, opt, value), RestStep(s.rest, opt, value);
    if devices.None? || rest.None? then None
    else Some(Settings(
      StreamStep(s.stream, opt, value),
      if opt == AppName then value else s.app,
      s.sops && opt != NoSops,
      s.localaudio || opt == LocalAudio,
      devices.value,
      rest.value))
  }

  function DirectiveStep(env: Env, s: Settings, d: Directive): Option<Settings> {
    match d
    case Address(name) => Some(s.(rest := s.rest.(address := Some(name))))
    case Sops(on) => Some(s.(sops := on))
    case LocalAudioOnHost(on) => Some(s.(localaudio := on))
    case Action(name) => Some(s.(rest := s.rest.(action := Some(name))))
    case Given(opt, value) => OptStep(env, s, opt, value)
    case Exit => None
  }

  function Next(env: Env): (Option<Settings>, Directive) -> Option<Settings> {
    (r: Option<Settings>, d: Directive) => if r.None? then None else DirectiveStep(env, r.value, d)
  }

  /** The settings after some directives; `None` if one of them ended the program. */
  function Run(env: Env, s: Settings, ds: seq<Directive>): Option<Settings> {
    Fold(Next(env), Some(s), ds)
  }

  // ---- configuration files ----

  /** The options that a file can give: those that take an argument. */
  const FILE_OPTIONS: seq<(string, Opt)> := [
    ("width", Width), ("height", Height), ("bitrate", Bitrate), ("packetsize", PacketSize), ("app", AppName),
    ("input", Input), ("mapping", MappingFile), ("audio", Audio), ("config", ConfigFile), ("platform", Platform),
    ("save", Save), ("keydir", KeyDir), ("fps", Fps)]

  function OptionNamed(key: string, table: seq<(string, Opt)>): Option<Opt> {
    if table == [] then None
    else if table[0].0 == key then Some(table[0].1)
    else OptionNamed(key, table[1..])
  }

  /** One line of a file, with a nested file not yet expanded. */
  function LineDirectives(line: string): seq<Directive> {
    match ScanToEnd(line)
    case None => []
    case Some((key, value)) =>
      if key == "address" then [Address(value)]
      else if key == "sops" then [Sops(value == "true")]
      else if key == "localaudio" then [LocalAudioOnHost(value == "true")]
      else
        match OptionNamed(key, FILE_OPTIONS)
        case None => []
        case Some(opt) => [Given(opt, value)]
  }

  /** An option can name a file, which holds directives if it can be read, and otherwise ends the program. */
  function Files(env: Env): Nesting<Directive> {
    Nesting(
      (d: Directive) => if d.Given? && d.opt == ConfigFile then Some(d.value) else None,
      (name: string) => if name in env.files then Some(FileDirectives(Lines(env.files[name]))) else None,
      Exit)
  }

  /** Directives with nested files expanded in place, as far as the stack allows. */
  function Expand(env: Env, stack: nat, ds: seq<Directive>): seq<Directive> {
    Expansion(Files(env), stack, ds)
  }

  function Expanded(env: Env, stack: nat, d: Directive): seq<Directive> {
    Of(Files(env), stack, d)
  }

  function FileDirectives(lines: seq<string>): seq<Directive> {
    if lines == [] then []
    else FileDirectives(lines[..|lines| - 1]) + LineDirectives(lines[|lines| - 1])
  }

  /** The configuration that the parsers update. */
  class Configuration {
    var config: Settings

    constructor (env: Env)
      ensures config == Defaults(env)
    {
      config := Defaults(env);
    }

    /** One option; the result is false if the program ends. */
    method ParseArgument(env: Env, stack: nat, opt: Opt, value: string) returns (alive: bool)
      modifies this
      ensures alive <==> Run(env, old(config), Expanded(env, stack, Given(opt, value))).Some?
      ensures alive ==> Some(config) == Run(env, old(config), Expanded(env, stack, Given(opt, value)))
      decreases stack, 0
    {
      if opt == ConfigFile {
        if stack == 0 || value !in env.files {
          RunMissing(env, stack, config, value);
          return false;
        }
        alive := ConfigFileParse(env, stack - 1, env.files[value]);
      } else {
        RunPlain(env, stack, config, opt, value);
        alive := SetOption(env, opt, value);
      }
    }

    /** The options other than a nested file. */
    method SetOption(env: Env, opt: Opt, value: string) returns (alive: bool)
      modifies this
      ensures alive <==> OptStep(env, old(config), opt, value).Some?
      ensures alive ==> Some(config) == OptStep(env, old(config), opt, value)
    {
      alive := true;
      OthersStay(env, config, opt, value);
      match opt {
        case AppName => config := config.(app := value);
        case Input | MappingFile =>
          var devices;
          devices, alive := SetDevices(env, config.devices, opt, value);
          config := config.(devices := devices);
        case NoSops => config := config.(sops := false);
        case LocalAudio => config := config.(localaudio := true);
        case Audio | Platform | Save | KeyDir | Windowed | ForceHw | Unsupported | Positional =>
          var rest;
          rest, alive := SetRest(config.rest, opt, value);
          config := config.(rest := rest);
        case _ =>
          var stream := SetStream(config.stream, opt, value);
          config := config.(stream := stream);
      }
    }

    /** An input, which takes the mapping in force, or a mapping. */
    method SetDevices(env: Env, start: Devices, opt: Opt, value: string) returns (devices: Devices, alive: bool)
      ensures alive <==> DeviceStep(env, start, opt, value).Some?
      ensures alive ==> Some(devices) == DeviceStep(env, start, opt, value)
    {
      devices, alive := start, true;
      if opt == Input {
        if |devices.inputs| >= MAX_INPUTS { return start, false; }
        devices := devices.(inputs := devices.inputs + [InputConfig(value, devices.mapping)]);
        devices := devices.(inputAdded := true);
        devices := devices.(mapped := true);
      } else if opt == MappingFile {
        if value !in env.paths { return start, false; }
        devices := devices.(mapping := Some(env.paths[value]));
        devices := devices.(mapped := false);
      }
    }

    /** The options of the stream. */
    method SetStream(start: Stream, opt: Opt, value: string) returns (stream: Stream)
      ensures stream == StreamStep(start, opt, value)
    {
      stream := start;
      match opt {
        case Res720 =>
          stream := stream.(width := 1280);
          stream := stream.(height := 720);
        case Res1080 =>
          stream := stream.(width := 1920);
          stream := stream.(height := 1080);
        case Width => stream := stream.(width := Atoi(value));
        case Height => stream := stream.(height := Atoi(value));
        case Fps30 => stream := stream.(fps := 30);
        case Fps60 => stream := stream.(fps := 60);
        case Bitrate => stream := stream.(bitrate := Atoi(value));
        case PacketSize => stream := stream.(packetSize := Atoi(value));
        case Remote => stream := stream.(remote := true);
        case Surround => stream := stream.(surround := true);
        case Fps => stream := stream.(fps := Atoi(value));
        case ForceHevc => stream := stream.(hevc := true);
        case _ =>
      }
    }

    method SetRest(start: Rest, opt: Opt, value: string) returns (rest: Rest, alive: bool)
      ensures alive <==> RestStep(start, opt, value).Some?
      ensures alive ==> Some(rest) == RestStep(start, opt, value)
    {
      rest, alive := start, true;
      match opt {
        case Audio => rest := rest.(audioDevice := Some(value));
        case Platform => rest := rest.(platform := value);
        case Save => rest := rest.(saveTo := Some(value));
        case KeyDir => rest := rest.(keyDir := value);
        case Windowed => rest := rest.(fullscreen := false);
        case ForceHw => rest := rest.(forcehw := true);
        case Unsupported => rest := rest.(unsupported := true);
        case Positional =>
          if rest.action.None? {
            rest := rest.(action := Some(value));
          } else if rest.address.None? {
            rest := rest.(address := Some(value));
          } else {
            alive := false;
          }
        case _ =>
      }
    }

    /** The lines of a file, one after another. */
    method ConfigFileParse(env: Env, stack: nat, text: string) returns (alive: bool)
      modifies this
      ensures alive <==> Run(env, old(config), Expand(env, stack, FileDirectives(Lines(text)))).Some?
      ensures alive ==> Some(config) == Run(env, old(config), Expand(env, stack, FileDirectives(Lines(text))))
      decreases stack, 2
    {
      alive := true;
      var lines := Lines(text);
      for i := 0 to |lines|
        invariant Some(config) == Run(env, old(config), Expand(env, stack, FileDirectives(lines[..i])))
      {
        RunLine(env, stack, old(config), lines, i);
        alive := ParseLine(env, stack, lines[i]);
        if !alive {
          RunStaysDead(env, stack, old(config), lines, i + 1);
          return;
        }
      }
      assert lines[..|lines|] == lines;
    }

    method ParseLine(env: Env, stack: nat, line: string) returns (alive: bool)
      modifies this
      ensures alive <==> Run(env, old(config), Expand(env, stack, LineDirectives(line))).Some?
      ensures alive ==> Some(config) == Run(env, old(config), Expand(env, stack, LineDirectives(line)))
      decreases stack, 1
    {
      alive := true;
      var scanned := ScanToEnd(line);
      if scanned.None? {
        ExpandSingle(env, stack, LineDirectives(line));
      } else {
        var (key, value) := scanned.value;
        if key == "address" {
          RunLineOf(env, stack, config, line, Address(value));
          config := config.(rest := config.rest.(address := Some(value)));
        } else if key == "sops" {
          RunLineOf(env, stack, config, line, Sops(value == "true"));
          config := config.(sops := value == "true");
        } else if key == "localaudio" {
          RunLineOf(env, stack, config, line, LocalAudioOnHost(value == "true"));
          config := config.(localaudio := value == "true");
        } else {
          var opt := OptionNamed(key, FILE_OPTIONS);
          ExpandSingle(env, stack, LineDirectives(line));
          if opt.Some? {
            alive := ParseArgument(env, stack, opt.value, value);
          }
        }
      }
    }
  }

  /** The options that set a value of their own, beside the stream and the inputs. */
  predicate IsOwn(opt: Opt) {
    opt in {Audio, Platform, Save, KeyDir, Windowed, ForceHw, Unsupported, Positional}
  }

  /** An option leaves the parts of the settings alone that it is not about. */
  lemma OthersStay(env: Env, s: Settings, opt: Opt, value: string)
    ensures !IsOwn(opt) ==> RestStep(s.rest, opt, value) == Some(s.rest)
    ensures opt != Input && opt != MappingFile ==> DeviceStep(env, s.devices, opt, value) == Some(s.devices)
    ensures IsOwn(opt) || opt in {Input, MappingFile, AppName, NoSops, LocalAudio} ==>
      StreamStep(s.stream, opt, value) == s.stream
  {
  }

  lemma RunOne(env: Env, s: Settings, d: Directive)
    ensures Run(env, s, [d]) == DirectiveStep(env, s, d)
  {
    assert [d][..0] == [];
    assert Fold(Next(env), Some(s), []) == Some(s);
  }

  /** A directive that names no file. */
  predicate IsFlat(d: Directive) {
    !d.Given? || d.opt != ConfigFile
  }

  lemma ExpandFlat(env: Env, stack: nat, d: Directive)
    requires IsFlat(d)
    ensures Expanded(env, stack, d) == [d] && Expand(env, stack, [d]) == [d]
  {
    ExpandSingle(env, stack, [d]);
  }

  lemma RunPlain(env: Env, stack: nat, s: Settings, opt: Opt, value: string)
    requires opt != ConfigFile
    ensures Run(env, s, Expanded(env, stack, Given(opt, value))) == OptStep(env, s, opt, value)
  {
    ExpandFlat(env, stack, Given(opt, value));
    RunOne(env, s, Given(opt, value));
  }

  lemma RunLineOf(env: Env, stack: nat, s: Settings, line: string, d: Directive)
    requires LineDirectives(line) == [d] && IsFlat(d)
    ensures Run(env, s, Expand(env, stack, LineDirectives(line))) == DirectiveStep(env, s, d)
  {
    ExpandFlat(env, stack, d);
    RunOne(env, s, d);
  }

  /** A nested file that cannot be read, or for which there is no room on the stack. */
  lemma RunMissing(env: Env, stack: nat, s: Settings, value: string)
    requires stack == 0 || value !in env.files
    ensures Run(env, s, Expanded(env, stack, Given(ConfigFile, value))).None?
  {
    RunOne(env, s, Exit);
  }

  lemma ExpandSingle(env: Env, stack: nat, ds: seq<Directive>)
    requires |ds| <= 1
    ensures Expand(env, stack, ds) == if ds == [] then [] else Expanded(env, stack, ds[0])
  {
    ExpansionSingle(Files(env), stack, ds);
  }

  lemma ExpandAppend(env: Env, stack: nat, a: seq<Directive>, b: seq<Directive>)
    ensures Expand(env, stack, a + b) == Expand(env, stack, a) + Expand(env, stack, b)
  {
    ExpansionAppend(Files(env), stack, a, b);
  }

  /** A property that all lines of files have, and the end of the program, is kept by expansion. */
  lemma ExpandKeeps(p: Directive -> bool, env: Env, stack: nat, ds: seq<Directive>)
    requires p(Exit) && forall lines, d :: d in FileDirectives(lines) ==> p(d)
    requires forall d :: d in ds ==> p(d)
    ensures forall d :: d in Expand(env, stack, ds) ==> p(d)
  {
    ExpansionKeeps(p, Files(env), stack, ds);
  }

  lemma {:induction false} RunAppend(env: Env, s: Settings, a: seq<Directive>, b: seq<Directive>)
    ensures Run(env, s, a + b) == if Run(env, s, a).None? then None else Run(env, Run(env, s, a).value, b)
  {
    FoldAppend(Next(env), Some(s), a, b);
    if Run(env, s, a).None? {
      FoldKeeps((r: Option<Settings>) => r.None?, Next(env), None, b);
    }
  }

  lemma RunExpanded(env: Env, stack: nat, s: Settings, a: seq<Directive>, b: seq<Directive>)
    ensures Run(env, s, Expand(env, stack, a + b))
         == if Run(env, s, Expand(env, stack, a)).None? then None
            else Run(env, Run(env, s, Expand(env, stack, a)).value, Expand(env, stack, b))
  {
    ExpandAppend(env, stack, a, b);
    RunAppend(env, s, Expand(env, stack, a), Expand(env, stack, b));
  }

  lemma RunLine(env: Env, stack: nat, s: Settings, lines: seq<string>, i: nat)
    requires i < |lines|
    ensures var before := Run(env, s, Expand(env, stack, FileDirectives(lines[..i])));
      Run(env, s, Expand(env, stack, FileDirectives(lines[..i + 1])))
      == if before.None? then None else Run(env, before.value, Expand(env, stack, LineDirectives(lines[i])))
  {
    assert lines[..i + 1][..i] == lines[..i];
    assert FileDirectives(lines[..i + 1]) == FileDirectives(lines[..i]) + LineDirectives(lines[i]);
    RunExpanded(env, stack, s, FileDirectives(lines[..i]), LineDirectives(lines[i]));
  }

  lemma {:induction false} RunStaysDead(env: Env, stack: nat, s: Settings, lines: seq<string>, i: nat)
    requires i <= |lines| && Run(env, s, Expand(env, stack, FileDirectives(lines[..i]))).None?
    ensures Run(env, s, Expand(env, stack, FileDirectives(lines))).None?
    decreases |lines| - i
  {
    if i == |lines| {
      assert lines[..i] == lines;
    } else {
      RunLine(env, stack, s, lines, i);
      RunStaysDead(env, stack, s, lines, i + 1);
    }
  }

  // ---- saving ----

  /** A setting that is saved if it differs from its default, and the directive that its line gives when read. */
  datatype Item = Item(differs: bool, key: string, value: string, directive: Directive)

  function Flag(b: bool): string {
    if b then "true" else "false"
  }

  function Number(key: string, n: int32, initial: int32, opt: Opt): Item {
    Item(n != initial, key, PrintInt(n), Given(opt, PrintInt(n)))
  }

  const ITEMS := 8

  /** The settings that a file keeps, in the order in which they are written. */
  function ItemAt(s: Settings, k: nat): Item
    requires k < ITEMS
  {
    if k == 0 then Number("width", s.stream.width, 1280, Width)
    else if k == 1 then Number("height", s.stream.height, 720, Height)
    else if k == 2 then Number("fps", s.stream.fps, 60, Fps)
    else if k == 3 then Number("bitrate", s.stream.bitrate, -1, Bitrate)
    else if k == 4 then Number("packetsize", s.stream.packetSize, 1024, PacketSize)
    else if k == 5 then Item(!s.sops, "sops", Flag(s.sops), Sops(s.sops))
    else if k == 6 then Item(s.localaudio, "localaudio", Flag(s.localaudio), LocalAudioOnHost(s.localaudio))
    else Item(s.app != "Steam", "app", s.app, Given(AppName, s.app))
  }

  function Items(s: Settings): seq<Item> {
    seq(ITEMS, k requires 0 <= k < ITEMS => ItemAt(s, k))
  }

  function ItemLines(items: seq<Item>): seq<string> {
    if items == [] then []
    else
      var last := items[|items| - 1];
      ItemLines(items[..|items| - 1]) + if last.differs then [SettingLine(last.key, last.value)] else []
  }

  function ItemDirectives(items: seq<Item>): seq<Directive> {
    if items == [] then []
    else
      var last := items[|items| - 1];
      ItemDirectives(items[..|items| - 1]) + if last.differs then [last.directive] else []
  }

  function SaveText(s: Settings): string {
    Join(ItemLines(Items(s)))
  }

  /** The writes of `config_save`, each behind its own comparison with the default. */
  method ConfigSave(s: Settings) returns (text: string)
    ensures text == SaveText(s)
  {
    text := "";
    var items := Items(s);
    for i := 0 to |items|
      invariant text == Join(ItemLines(items[..i]))
    {
      text := WriteItem(text, items, i);
    }
    assert items[..|items|] == items;
  }

  method WriteItem(text: string, items: seq<Item>, k: nat) returns (r: string)
    requires k < |items| && text == Join(ItemLines(items[..k]))
    ensures r == Join(ItemLines(items[..k + 1]))
  {
    assert items[..k + 1][..k] == items[..k];
    r := text;
    if items[k].differs {
      r := r + SettingLine(items[k].key, items[k].value);
      JoinAppend(ItemLines(items[..k]), [SettingLine(items[k].key, items[k].value)]);
      assert Join([SettingLine(items[k].key, items[k].value)]) == SettingLine(items[k].key, items[k].value);
    } else {
      assert ItemLines(items[..k]) + [] == ItemLines(items[..k]);
    }
  }

  // ---- inputs and mappings ----

  function MappingWrite(env: Env, d: Directive): Option<Option<string>> {
    if d.Given? && d.opt == MappingFile then Some(FindPath(env, d.value)) else None
  }

  /** The mapping in force after some directives: that of the last mapping option, or the initial one. */
  function MappingInForce(env: Env, initial: Option<string>, ds: seq<Directive>): Option<string> {
    LastWrite(d => MappingWrite(env, d), initial, ds)
  }

  predicate IsInput(d: Directive) {
    d.Given? && d.opt == Input
  }

  predicate IsMappingOption(d: Directive) {
    d.Given? && d.opt == MappingFile
  }

  /** The inputs that the directives name, each with the mapping in force where it is named. */
  function InputsOf(env: Env, initial: Option<string>, ds: seq<Directive>): seq<InputConfig> {
    if ds == [] then []
    else
      var front, last := ds[..|ds| - 1], ds[|ds| - 1];
      InputsOf(env, initial, front)
      + if IsInput(last) then [InputConfig(last.value, MappingInForce(env, initial, front))] else []
  }

  /** The last mapping option has no input after it. */
  ghost predicate UnusedMapping(ds: seq<Directive>) {
    exists k :: 0 <= k < |ds| && IsMappingOption(ds[k]) && forall j :: k < j < |ds| ==> !IsInput(ds[j])
  }

  /** What one directive does to the inputs, the mapping and the two flags. */
  lemma StepOnInputs(env: Env, s: Settings, d: Directive)
    requires DirectiveStep(env, s, d).Some?
    ensures var was, now := s.devices, DirectiveStep(env, s, d).value.devices;
      && now.inputs == (if IsInput(d) then was.inputs + [InputConfig(d.value, was.mapping)] else was.inputs)
      && (IsInput(d) ==> |was.inputs| < MAX_INPUTS)
      && now.mapping == (if IsMappingOption(d) then FindPath(env, d.value) else was.mapping)
      && now.inputAdded == (was.inputAdded || IsInput(d))
      && now.mapped == (if IsInput(d) then true else if IsMappingOption(d) then false else was.mapped)
  {
  }

  lemma {:induction false} InputsOverRun(env: Env, ds: seq<Directive>)
    requires Run(env, Defaults(env), ds).Some?
    ensures var d, initial := Run(env, Defaults(env), ds).value.devices, FindPath(env, "mappings/default.conf");
      && d.inputs == InputsOf(env, initial, ds) && |d.inputs| <= 6
      && d.mapping == MappingInForce(env, initial, ds)
  {
    if ds != [] {
      var front, last := ds[..|ds| - 1], ds[|ds| - 1];
      InputsOverRun(env, front);
      StepOnInputs(env, Run(env, Defaults(env), front).value, last);
    }
  }

  lemma {:induction false} FlagsOverRun(env: Env, ds: seq<Directive>)
    requires Run(env, Defaults(env), ds).Some?
    ensures var d := Run(env, Defaults(env), ds).value.devices;
      && (d.inputAdded <==> exists k :: 0 <= k < |ds| && IsInput(ds[k]))
      && (!d.mapped <==> UnusedMapping(ds))
  {
    if ds != [] {
      var front, last := ds[..|ds| - 1], ds[|ds| - 1];
      FlagsOverRun(env, front);
      StepOnInputs(env, Run(env, Defaults(env), front).value, last);
      UnusedExtend(front, last);
      assert ds == front + [last];
      assert IsInput(last) ==> IsInput(ds[|ds| - 1]);
      if k :| 0 <= k < |front| && IsInput(front[k]) {
        assert IsInput(ds[k]);
      }
    }
  }

  lemma UnusedExtend(front: seq<Directive>, last: Directive)
    ensures UnusedMapping(front + [last]) <==> !IsInput(last) && (IsMappingOption(last) || UnusedMapping(front))
  {
    var ds := front + [last];
    if IsMappingOption(last) {
      assert IsMappingOption(ds[|front|]);
    } else if !IsInput(last) && UnusedMapping(front) {
      var k :| 0 <= k < |front| && IsMappingOption(front[k]) && forall j :: k < j < |front| ==> !IsInput(front[j]);
      assert IsMappingOption(ds[k]);
    }
    if UnusedMapping(ds) {
      var k :| 0 <= k < |ds| && IsMappingOption(ds[k]) && forall j :: k < j < |ds| ==> !IsInput(ds[j]);
      if k < |front| {
        assert IsMappingOption(front[k]) && !IsInput(ds[|front|]);
        assert forall j :: k < j < |front| ==> front[j] == ds[j];
      }
    }
  }

  // ---- the end of parsing ----

  /** The bitrate that is used when none was set. */
  function Derived(s: Stream): Stream {
    if s.bitrate != -1 then s
    else s.(bitrate := if s.height >= 1080 && s.fps >= 60 then 20000
                       else if s.height >= 1080 || s.fps >= 60 then 10000
                       else 5000)
  }

  function Finish(env: Env, s: Settings): Option<Settings> {
    if s.devices.inputAdded && (!s.devices.mapped || s.devices.mapping.None?) then None
    else
      var keyDir := if s.rest.keyDir == "" then env.cacheDir else s.rest.keyDir;
      Some(s.(stream := Derived(s.stream), rest := s.rest.(keyDir := keyDir)))
  }

  datatype CommandLine = SingleFile(name: string) | Arguments(args: seq<(Opt, string)>)

  function ArgumentDirectives(args: seq<(Opt, string)>): seq<Directive> {
    if args == [] then []
    else ArgumentDirectives(args[..|args| - 1]) + [Given(args[|args| - 1].0, args[|args| - 1].1)]
  }

  function DefaultFile(env: Env): seq<Directive> {
    if env.defaultFile.Some? && env.defaultFile.value in env.files
    then [Given(ConfigFile, env.defaultFile.value)] else []
  }

  function CommandDirectives(cmd: CommandLine): seq<Directive> {
    match cmd
    case SingleFile(name) => [Action("stream"), Given(ConfigFile, name)]
    case Arguments(args) => ArgumentDirectives(args)
  }

  /** All directives of a start of the program: the default file's, and then the command line's. */
  function AllDirectives(env: Env, stack: nat, cmd: CommandLine): seq<Directive> {
    Expand(env, stack, DefaultFile(env) + CommandDirectives(cmd))
  }

  /** A start of the program: the settings it runs with, if it gets that far, and the file it saves. */
  method ConfigParse(env: Env, stack: nat, cmd: CommandLine) returns (result: Option<Settings>, saved: Option<string>)
    ensures var parsed := Run(env, Defaults(env), AllDirectives(env, stack, cmd));
      && result == (if parsed.None? then None else Finish(env, parsed.value))
      && saved == (if parsed.Some? && parsed.value.rest.saveTo.Some? then Some(SaveText(parsed.value)) else None)
  {
    var c := new Configuration(env);
    result, saved := None, None;
    var alive := ParseAll(env, stack, c, cmd);
    if !alive { return; }
    if c.config.rest.saveTo.Some? {
      var text := ConfigSave(c.config);
      saved := Some(text);
    }
    result := EndOfParsing(env, c.config);
  }

  /** What was left open is derived, and an input without a mapping of its own is turned away. */
  method EndOfParsing(env: Env, start: Settings) returns (result: Option<Settings>)
    ensures result == Finish(env, start)
  {
    var s := start;
    if s.rest.keyDir == "" {
      s := s.(rest := s.rest.(keyDir := env.cacheDir));
    }
    if s.stream.bitrate == -1 {
      if s.stream.height >= 1080 && s.stream.fps >= 60 {
        s := s.(stream := s.stream.(bitrate := 20000));
      } else if s.stream.height >= 1080 || s.stream.fps >= 60 {
        s := s.(stream := s.stream.(bitrate := 10000));
      } else {
        s := s.(stream := s.stream.(bitrate := 5000));
      }
    }
    if s.devices.inputAdded {
      if !s.devices.mapped { return None; }
      if s.devices.mapping.None? { return None; }
    }
    result := Some(s);
  }

  method ParseAll(env: Env, stack: nat, c: Configuration, cmd: CommandLine) returns (alive: bool)
    modifies c
    ensures alive <==> Run(env, old(c.config), AllDirectives(env, stack, cmd)).Some?
    ensures alive ==> Some(c.config) == Run(env, old(c.config), AllDirectives(env, stack, cmd))
  {
    RunExpanded(env, stack, c.config, DefaultFile(env), CommandDirectives(cmd));
    ExpandSingle(env, stack, DefaultFile(env));
    if env.defaultFile.Some? && env.defaultFile.value in env.files {
      alive := c.ParseArgument(env, stack, ConfigFile, env.defaultFile.value);
      if !alive { return; }
    }
    alive := ParseCommandLine(env, stack, c, cmd);
  }

  method ParseCommandLine(env: Env, stack: nat, c: Configuration, cmd: CommandLine) returns (alive: bool)
    modifies c
    ensures alive <==> Run(env, old(c.config), Expand(env, stack, CommandDirectives(cmd))).Some?
    ensures alive ==> Some(c.config) == Run(env, old(c.config), Expand(env, stack, CommandDirectives(cmd)))
  {
    match cmd {
      case SingleFile(name) =>
        alive := ParseSingleFile(env, stack, c, name);
      case Arguments(args) =>
        alive := ParseArguments(env, stack, c, args);
    }
  }

  /** A file as the only argument. */
  method ParseSingleFile(env: Env, stack: nat, c: Configuration, name: string) returns (alive: bool)
    modifies c
    ensures alive <==> Run(env, old(c.config), Expand(env, stack, CommandDirectives(SingleFile(name)))).Some?
    ensures alive ==> Some(c.config) == Run(env, old(c.config), Expand(env, stack, CommandDirectives(SingleFile(name))))
  {
    SingleFileRun(env, stack, c.config, name);
    c.config := c.config.(rest := c.config.rest.(action := Some("stream")));
    alive := c.ParseArgument(env, stack, ConfigFile, name);
  }

  lemma RunFirst(env: Env, stack: nat, s: Settings, d: Directive, e: Directive)
    requires IsFlat(d) && DirectiveStep(env, s, d).Some?
    ensures Run(env, s, Expand(env, stack, [d] + [e]))
         == Run(env, DirectiveStep(env, s, d).value, Expanded(env, stack, e))
  {
    RunExpanded(env, stack, s, [d], [e]);
    ExpandFlat(env, stack, d);
    ExpandSingle(env, stack, [e]);
    RunOne(env, s, d);
  }

  lemma RunTwo(env: Env, stack: nat, s: Settings, d: Directive, e: Directive)
    requires IsFlat(d) && IsFlat(e) && DirectiveStep(env, s, d).Some?
    ensures Run(env, s, Expand(env, stack, [d] + [e])) == DirectiveStep(env, DirectiveStep(env, s, d).value, e)
  {
    RunFirst(env, stack, s, d, e);
    ExpandFlat(env, stack, e);
    RunOne(env, DirectiveStep(env, s, d).value, e);
  }

  lemma SingleFileRun(env: Env, stack: nat, s: Settings, name: string)
    ensures Run(env, s, Expand(env, stack, CommandDirectives(SingleFile(name))))
         == Run(env, s.(rest := s.rest.(action := Some("stream"))), Expanded(env, stack, Given(ConfigFile, name)))
  {
    assert CommandDirectives(SingleFile(name)) == [Action("stream")] + [Given(ConfigFile, name)];
    RunFirst(env, stack, s, Action("stream"), Given(ConfigFile, name));
  }

  /** The loop over the options of the command line. */
  method ParseArguments(env: Env, stack: nat, c: Configuration, args: seq<(Opt, string)>) returns (alive: bool)
    modifies c
    ensures alive <==> Run(env, old(c.config), Expand(env, stack, ArgumentDirectives(args))).Some?
    ensures alive ==> Some(c.config) == Run(env, old(c.config), Expand(env, stack, ArgumentDirectives(args)))
  {
    alive := true;
    for i := 0 to |args|
      invariant Some(c.config) == Run(env, old(c.config), Expand(env, stack, ArgumentDirectives(args[..i])))
    {
      assert args[..i + 1][..i] == args[..i];
      var (opt, value) := args[i];
      ExpandSingle(env, stack, [Given(opt, value)]);
      RunExpanded(env, stack, old(c.config), ArgumentDirectives(args[..i]), [Given(opt, value)]);
      alive := c.ParseArgument(env, stack, opt, value);
      if !alive {
        ArgumentsStayDead(env, stack, old(c.config), args, i + 1);
        return;
      }
    }
    assert args[..|args|] == args;
  }

  lemma {:induction false} ArgumentsStayDead(env: Env, stack: nat, s: Settings, args: seq<(Opt, string)>, i: nat)
    requires i <= |args| && Run(env, s, Expand(env, stack, ArgumentDirectives(args[..i]))).None?
    ensures Run(env, s, Expand(env, stack, ArgumentDirectives(args))).None?
    decreases |args| - i
  {
    if i == |args| {
      assert args[..i] == args;
    } else {
      assert args[..i + 1][..i] == args[..i];
      assert ArgumentDirectives(args[..i + 1]) == ArgumentDirectives(args[..i]) + [Given(args[i].0, args[i].1)];
      RunExpanded(env, stack, s, ArgumentDirectives(args[..i]), [Given(args[i].0, args[i].1)]);
      ArgumentsStayDead(env, stack, s, args, i + 1);
    }
  }

  /**
   For every start of the program that survives its options, nested files expanded in place: the inputs
   are those named, in order and at most six, each with the mapping that was in force where it was named;
   and the program is turned away exactly when an input was named and the last mapping option has no
   input after it, or there is no mapping at all.
   */
  lemma InputsCarryMapping(env: Env, stack: nat, cmd: CommandLine)
    requires Run(env, Defaults(env), AllDirectives(env, stack, cmd)).Some?
    ensures var ds, initial := AllDirectives(env, stack, cmd), FindPath(env, "mappings/default.conf");
      var s := Run(env, Defaults(env), ds).value;
      && s.devices.inputs == InputsOf(env, initial, ds) && |s.devices.inputs| <= 6
      && (Finish(env, s).None? <==>
          && (exists k :: 0 <= k < |ds| && IsInput(ds[k]))
          && (UnusedMapping(ds) || MappingInForce(env, initial, ds).None?))
      && (Finish(env, s).Some? ==> Finish(env, s).value.devices == s.devices)
  {
    InputsOverRun(env, AllDirectives(env, stack, cmd));
    FlagsOverRun(env, AllDirectives(env, stack, cmd));
  }
}
