/**
 The keys of a configuration file (src/config.c), written out, and what a line with each of them asks for.
 */
module ConfigKeys {
  import opened Config
  import opened Options
  import opened Text

  /** A line with this key gives this option, with the rest of the line as its value. */
  ghost predicate NamesOption(key: string, opt: Opt) {
    forall v :: LineValue(v) ==> LineDirectives(SettingLine(key, v)) == [Given(opt, v)]
  }

  lemma {:induction false} OptionNamedAt(table: seq<(string, Opt)>, i: nat)
    requires i < |table| && forall k :: 0 <= k < i ==> table[k].0 != table[i].0
    ensures OptionNamed(table[i].0, table) == Some(table[i].1)
  {
    if i > 0 {
      assert table[0].0 != table[i].0;
      OptionNamedAt(table[1..], i - 1);
    }
  }

  /** The keys that are not options of the command line. */
  predicate IsSpecial(key: string) {
    key == "address" || key == "sops" || key == "localaudio"
  }

  lemma OptionLine(key: string, opt: Opt)
    requires IsToken(key) && !IsSpecial(key) && OptionNamed(key, FILE_OPTIONS) == Some(opt)
    ensures NamesOption(key, opt)
  {
    forall v | LineValue(v) ensures LineDirectives(SettingLine(key, v)) == [Given(opt, v)] {
      ScanToEndOfSetting(key, v);
    }
  }

  lemma KeyAt(key: string, opt: Opt, i: nat)
    requires i < |FILE_OPTIONS| && FILE_OPTIONS[i] == (key, opt)
    requires forall k :: 0 <= k < i ==> FILE_OPTIONS[k].0 != key
    requires IsToken(key) && !IsSpecial(key)
    ensures NamesOption(key, opt)
  {
    OptionNamedAt(FILE_OPTIONS, i);
    OptionLine(key, opt);
  }

  /** The keys of the stream. */
  lemma StreamKeys()
    ensures NamesOption("width", Width) && NamesOption("height", Height) && NamesOption("bitrate", Bitrate)
    ensures NamesOption("packetsize", PacketSize) && NamesOption("fps", Fps)
  {
    KeyAt("width", Width, 0);
    KeyAt("height", Height, 1);
    KeyAt("bitrate", Bitrate, 2);
    KeyAt("packetsize", PacketSize, 3);
    KeyAt("fps", Fps, 12);
  }

  /** The keys of the application and the devices. */
  lemma DeviceKeys()
    ensures NamesOption("app", AppName) && NamesOption("input", Input) && NamesOption("mapping", MappingFile)
    ensures NamesOption("audio", Audio)
  {
    KeyAt("app", AppName, 4);
    KeyAt("input", Input, 5);
    KeyAt("mapping", MappingFile, 6);
    KeyAt("audio", Audio, 7);
  }

  /** The keys of other files, and of the platform. */
  lemma FileKeys()
    ensures NamesOption("config", ConfigFile) && NamesOption("platform", Platform)
    ensures NamesOption("save", Save) && NamesOption("keydir", KeyDir)
  {
    KeyAt("config", ConfigFile, 8);
    KeyAt("platform", Platform, 9);
    KeyAt("save", Save, 10);
    KeyAt("keydir", KeyDir, 11);
  }

  /** The keys that are read as they are: the host, and two switches, which only the word "true" turns on. */
  lemma SpecialKeys(v: string)
    requires LineValue(v)
    ensures LineDirectives(SettingLine("address", v)) == [Address(v)]
    ensures LineDirectives(SettingLine("sops", v)) == [Sops(v == "true")]
    ensures LineDirectives(SettingLine("localaudio", v)) == [LocalAudioOnHost(v == "true")]
  {
    SpecialAreTokens();
    ScanToEndOfSetting("address", v);
    ScanToEndOfSetting("sops", v);
    ScanToEndOfSetting("localaudio", v);
  }

  lemma SpecialAreTokens()
    ensures IsToken("address") && IsToken("sops") && IsToken("localaudio")
  {
  }

  const OPTION_KEYS := {
    "width", "height", "bitrate", "packetsize", "fps", "app", "input", "mapping", "audio", "config", "platform",
    "save", "keydir"}

  lemma {:induction false} OtherIsNotNamed(key: string, table: seq<(string, Opt)>)
    requires forall k :: 0 <= k < |table| ==> table[k].0 != key
    ensures OptionNamed(key, table).None?
  {
    if table != [] {
      assert table[0].0 != key;
      OtherIsNotNamed(key, table[1..]);
    }
  }

  lemma OptionKeysAreAll()
    ensures forall k :: 0 <= k < |FILE_OPTIONS| ==> FILE_OPTIONS[k].0 in OPTION_KEYS
  {
  }

  /** A line without a key and a value, or with any other key, asks for nothing. */
  lemma OtherLines(line: string)
    requires ScanToEnd(line).Some? ==>
      !IsSpecial(ScanToEnd(line).value.0) && ScanToEnd(line).value.0 !in OPTION_KEYS
    ensures LineDirectives(line) == []
  {
    if ScanToEnd(line).Some? {
      OptionKeysAreAll();
      OtherIsNotNamed(ScanToEnd(line).value.0, FILE_OPTIONS);
    }
  }

  /** A file with a line for a mapping and then one for an input. */
  function MappingThenInput(mapping: string, input: string): string {
    SettingLine("mapping", mapping) + SettingLine("input", input)
  }

  /** The settings with one more input, and the mapping both in force and given to that input. */
  function WithMappedInput(s: Settings, path: string, input: string): Settings {
    s.(devices := Devices(s.devices.inputs + [InputConfig(input, Some(path))], Some(path), true, true))
  }

  /** The input of such a file carries the mapping of the line before it. */
  lemma InputCarriesMapping(env: Env, stack: nat, s: Settings, mapping: string, input: string)
    requires LineValue(mapping) && LineValue(input)
    requires mapping in env.paths && |s.devices.inputs| < 6
    ensures Run(env, s, Expand(env, stack, FileDirectives(Lines(MappingThenInput(mapping, input)))))
         == Some(WithMappedInput(s, env.paths[mapping], input))
  {
    MappingThenInputDirectives(mapping, input);
    RunMappingThenInput(env, stack, s, mapping, input);
  }

  lemma RunMappingThenInput(env: Env, stack: nat, s: Settings, mapping: string, input: string)
    requires mapping in env.paths && |s.devices.inputs| < 6
    ensures Run(env, s, Expand(env, stack, [Given(MappingFile, mapping)] + [Given(Input, input)]))
         == Some(WithMappedInput(s, env.paths[mapping], input))
  {
    StepMappingThenInput(env, s, mapping, input);
    RunTwo(env, stack, s, Given(MappingFile, mapping), Given(Input, input));
  }

  lemma StepMappingThenInput(env: Env, s: Settings, mapping: string, input: string)
    requires mapping in env.paths && |s.devices.inputs| < 6
    ensures DirectiveStep(env, s, Given(MappingFile, mapping)).Some?
    ensures DirectiveStep(env, DirectiveStep(env, s, Given(MappingFile, mapping)).value, Given(Input, input))
         == Some(WithMappedInput(s, env.paths[mapping], input))
  {
  }

  lemma MappingThenInputDirectives(mapping: string, input: string)
    requires LineValue(mapping) && LineValue(input)
    ensures FileDirectives(Lines(MappingThenInput(mapping, input)))
         == [Given(MappingFile, mapping)] + [Given(Input, input)]
  {
    DeviceKeys();
    InputKeysAreTokens();
    TwoOptions("mapping", MappingFile, mapping, "input", Input, input);
  }

  lemma InputKeysAreTokens()
    ensures IsToken("mapping") && IsToken("input")
  {
  }

  lemma TwoOptions(k: string, opt: Opt, v: string, l: string, last: Opt, w: string)
    requires IsToken(k) && IsToken(l) && LineValue(v) && LineValue(w)
    requires NamesOption(k, opt) && NamesOption(l, last)
    ensures FileDirectives(Lines(SettingLine(k, v) + SettingLine(l, w))) == [Given(opt, v)] + [Given(last, w)]
  {
    TwoSettings(k, v, l, w);
  }

  lemma TwoSettings(k: string, v: string, l: string, w: string)
    requires IsToken(k) && IsToken(l) && LineValue(v) && LineValue(w)
    ensures FileDirectives(Lines(SettingLine(k, v) + SettingLine(l, w)))
         == LineDirectives(SettingLine(k, v)) + LineDirectives(SettingLine(l, w))
  {
    var a, b := SettingLine(k, v), SettingLine(l, w);
    SettingIsLine(k, v);
    SettingIsLine(l, w);
    TwoLines(a, b);
    TwoLineDirectives(a, b);
  }

  lemma TwoLines(a: string, b: string)
    requires IsLine(a) && IsLine(b)
    ensures Lines(a + b) == [a, b]
  {
    FirstLine(a, b);
    FirstLine(b, "");
    assert b + "" == b;
  }

  lemma TwoLineDirectives(a: string, b: string)
    ensures FileDirectives([a, b]) == LineDirectives(a) + LineDirectives(b)
  {
    assert [a, b][..1] == [a] && [a][..0] == [];
    assert FileDirectives([a]) == [] + LineDirectives(a);
  }
}
