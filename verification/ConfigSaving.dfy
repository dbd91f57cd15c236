/**
 Saving the configuration and reading it back (src/config.c). A file names the settings that differ from
 their defaults; reading it leaves all others as they were before.
 */
module ConfigSaving {
  import opened Config
  import opened CTypes
  import opened Folding
  import opened NestedFiles
  import opened Options
  import opened Text

  // ---- what reading a saved file gives ----

  /** What parsing a file over some settings gives. */
  function LoadedOver(env: Env, stack: nat, base: Settings, text: string): Option<Settings> {
    Run(env, base, Expand(env, stack, FileDirectives(Lines(text))))
  }

  /** A file names only what differs from its default; of all else the settings before it stay. */
  function Kept<T(==)>(x: T, initial: T, was: T): T {
    if x != initial then x else was
  }

  /** Some settings with those taken over that a file saved from `s` names. */
  function Merged(base: Settings, s: Settings): Settings {
    base.(
      stream := base.stream.(
        width := Kept(s.stream.width, 1280, base.stream.width),
        height := Kept(s.stream.height, 720, base.stream.height),
        fps := Kept(s.stream.fps, 60, base.stream.fps),
        bitrate := Kept(s.stream.bitrate, -1, base.stream.bitrate),
        packetSize := Kept(s.stream.packetSize, 1024, base.stream.packetSize)),
      sops := Kept(s.sops, true, base.sops),
      localaudio := Kept(s.localaudio, false, base.localaudio),
      app := Kept(s.app, "Steam", base.app))
  }

  /** A line of a file gives back the directive of its item. */
  predicate ItemReads(item: Item) {
    && IsLine(SettingLine(item.key, item.value))
    && LineDirectives(SettingLine(item.key, item.value)) == [item.directive]
  }

  lemma {:induction false} ItemsRead(items: seq<Item>)
    requires forall k :: 0 <= k < |items| && items[k].differs ==> ItemReads(items[k])
    ensures forall line :: line in ItemLines(items) ==> IsLine(line)
    ensures FileDirectives(ItemLines(items)) == ItemDirectives(items)
  {
    if items != [] {
      var front, last := items[..|items| - 1], items[|items| - 1];
      ItemsRead(front);
      if last.differs {
        assert ItemReads(items[|items| - 1]);
        assert ItemLines(items)[..|ItemLines(front)|] == ItemLines(front);
      } else {
        assert ItemLines(items) == ItemLines(front);
        assert ItemDirectives(items) == ItemDirectives(front);
      }
    }
  }

  lemma NumberReads(key: string, n: int32, initial: int32, opt: Opt)
    requires Names(key, opt)
    ensures ItemReads(Number(key, n, initial, opt))
  {
    PrintedIsToken(n);
    var value := PrintInt(n);
    forall i | 0 <= i < |value| ensures value[i] != '\n' {
      assert !IsSpace(value[i]);
    }
    assert LineValue(value);
    ScanToEndOfSetting(key, value);
    SettingIsLine(key, value);
  }

  /** A key of a file that stands for an option. */
  ghost predicate Names(key: string, opt: Opt) {
    && IsToken(key) && key != "address" && key != "sops" && key != "localaudio"
    && OptionNamed(key, FILE_OPTIONS) == Some(opt)
  }

  lemma OptionKeysAreTokens()
    ensures IsToken("width") && IsToken("height") && IsToken("fps")
    ensures IsToken("bitrate") && IsToken("packetsize") && IsToken("app")
  {
  }

  lemma OptionsAreFound()
    ensures OptionNamed("width", FILE_OPTIONS) == Some(Width) && OptionNamed("height", FILE_OPTIONS) == Some(Height)
    ensures OptionNamed("bitrate", FILE_OPTIONS) == Some(Bitrate)
    ensures OptionNamed("packetsize", FILE_OPTIONS) == Some(PacketSize)
    ensures OptionNamed("app", FILE_OPTIONS) == Some(AppName) && OptionNamed("fps", FILE_OPTIONS) == Some(Fps)
  {
    OptionFps();
  }

  lemma OptionFps()
    ensures OptionNamed("fps", FILE_OPTIONS) == Some(Fps)
  {
  }

  lemma OptionNames()
    ensures Names("width", Width) && Names("height", Height) && Names("fps", Fps)
    ensures Names("bitrate", Bitrate) && Names("packetsize", PacketSize) && Names("app", AppName)
  {
    OptionKeysAreTokens();
    OptionsAreFound();
  }

  lemma FlagsRead(s: Settings)
    ensures ItemReads(Item(!s.sops, "sops", Flag(s.sops), Sops(s.sops)))
    ensures ItemReads(Item(s.localaudio, "localaudio", Flag(s.localaudio), LocalAudioOnHost(s.localaudio)))
  {
    assert IsToken("sops") && IsToken("localaudio");
    assert LineValue("true") && LineValue("false");
    ScanToEndOfSetting("sops", Flag(s.sops));
    SettingIsLine("sops", Flag(s.sops));
    ScanToEndOfSetting("localaudio", Flag(s.localaudio));
    SettingIsLine("localaudio", Flag(s.localaudio));
  }

  lemma AppReads(app: string)
    requires LineValue(app)
    ensures ItemReads(Item(app != "Steam", "app", app, Given(AppName, app)))
  {
    OptionNames();
    ScanToEndOfSetting("app", app);
    SettingIsLine("app", app);
  }

  lemma SavedItemReads(s: Settings, k: nat)
    requires LineValue(s.app) && k < ITEMS
    ensures ItemReads(ItemAt(s, k))
  {
    if k < 5 {
      SavedNumberReads(s, k);
    } else if k < 7 {
      FlagsRead(s);
    } else {
      AppReads(s.app);
    }
  }

  lemma SavedNumberReads(s: Settings, k: nat)
    requires k < 5
    ensures ItemReads(ItemAt(s, k))
  {
    assert Names("width", Width) && Names("height", Height) && Names("fps", Fps)
        && Names("bitrate", Bitrate) && Names("packetsize", PacketSize) by { OptionNames(); }
    if k == 0 { NumberReads("width", s.stream.width, 1280, Width); }
    else if k == 1 { NumberReads("height", s.stream.height, 720, Height); }
    else if k == 2 { NumberReads("fps", s.stream.fps, 60, Fps); }
    else if k == 3 { NumberReads("bitrate", s.stream.bitrate, -1, Bitrate); }
    else { NumberReads("packetsize", s.stream.packetSize, 1024, PacketSize); }
  }

  lemma SavedItemsRead(s: Settings, items: seq<Item>)
    requires LineValue(s.app) && items == Items(s)
    ensures FileDirectives(Lines(Join(ItemLines(items)))) == ItemDirectives(items)
  {
    forall k | 0 <= k < |items| ensures ItemReads(items[k]) {
      SavedItemReads(s, k);
    }
    ItemsRead(items);
    LinesOfJoin(ItemLines(items));
  }

  lemma {:induction false} ItemsNeedNoExpansion(env: Env, stack: nat, items: seq<Item>)
    requires forall k :: 0 <= k < |items| ==> IsFlat(items[k].directive)
    ensures Expand(env, stack, ItemDirectives(items)) == ItemDirectives(items)
  {
    if items != [] {
      var front, last := items[..|items| - 1], items[|items| - 1];
      ItemsNeedNoExpansion(env, stack, front);
      var own := if last.differs then [last.directive] else [];
      ExpandAppend(env, stack, ItemDirectives(front), own);
      ExpandSingle(env, stack, own);
      assert IsFlat(items[|items| - 1].directive);
    }
  }

  lemma RunItem(env: Env, s: Settings, items: seq<Item>, item: Item)
    requires Run(env, s, ItemDirectives(items)).Some?
    ensures Run(env, s, ItemDirectives(items + [item]))
         == if item.differs then DirectiveStep(env, Run(env, s, ItemDirectives(items)).value, item.directive)
            else Run(env, s, ItemDirectives(items))
  {
    assert (items + [item])[..|items|] == items;
    if item.differs {
      RunAppend(env, s, ItemDirectives(items), [item.directive]);
      RunOne(env, Run(env, s, ItemDirectives(items)).value, item.directive);
    } else {
      assert ItemDirectives(items) + [] == ItemDirectives(items);
    }
  }

  /** A stream with the first `k` items taken over. */
  function StreamUpTo(base: Stream, s: Stream, k: nat): Stream {
    base.(
      width := if k > 0 then Kept(s.width, 1280, base.width) else base.width,
      height := if k > 1 then Kept(s.height, 720, base.height) else base.height,
      fps := if k > 2 then Kept(s.fps, 60, base.fps) else base.fps,
      bitrate := if k > 3 then Kept(s.bitrate, -1, base.bitrate) else base.bitrate,
      packetSize := if k > 4 then Kept(s.packetSize, 1024, base.packetSize) else base.packetSize)
  }

  function MergedUpTo(base: Settings, s: Settings, k: nat): Settings {
    base.(
      stream := StreamUpTo(base.stream, s.stream, k),
      sops := if k > 5 then Kept(s.sops, true, base.sops) else base.sops,
      localaudio := if k > 6 then Kept(s.localaudio, false, base.localaudio) else base.localaudio,
      app := if k > 7 then Kept(s.app, "Steam", base.app) else base.app)
  }

  lemma NumberMerges(base: Stream, s: Settings, k: nat)
    requires k < 5
    ensures var item, before, after := ItemAt(s, k), StreamUpTo(base, s.stream, k), StreamUpTo(base, s.stream, k + 1);
      if item.differs then StreamStep(before, NumberOpt(k), item.value) == after else before == after
  {
    var before := StreamUpTo(base, s.stream, k);
    if k == 0 { NumberOption(before, Width, s.stream.width); }
    else if k == 1 { NumberOption(before, Height, s.stream.height); }
    else if k == 2 { NumberOption(before, Fps, s.stream.fps); }
    else if k == 3 { NumberOption(before, Bitrate, s.stream.bitrate); }
    else { NumberOption(before, PacketSize, s.stream.packetSize); }
  }

  /** The options of the numbers among the items. */
  function NumberOpt(k: nat): (opt: Opt)
    requires k < 5
    ensures opt in {Width, Height, Fps, Bitrate, PacketSize}
  {
    if k == 0 then Width else if k == 1 then Height else if k == 2 then Fps else if k == 3 then Bitrate
    else PacketSize
  }

  lemma NumberItem(s: Settings, k: nat)
    requires k < 5
    ensures ItemAt(s, k).directive == Given(NumberOpt(k), ItemAt(s, k).value)
  {
  }

  lemma NumberOption(s: Stream, opt: Opt, n: int32)
    ensures opt == Width ==> StreamStep(s, opt, PrintInt(n)) == s.(width := n)
    ensures opt == Height ==> StreamStep(s, opt, PrintInt(n)) == s.(height := n)
    ensures opt == Fps ==> StreamStep(s, opt, PrintInt(n)) == s.(fps := n)
    ensures opt == Bitrate ==> StreamStep(s, opt, PrintInt(n)) == s.(bitrate := n)
    ensures opt == PacketSize ==> StreamStep(s, opt, PrintInt(n)) == s.(packetSize := n)
  {
    AtoiOfPrinted(n);
  }

  lemma StreamDirective(env: Env, s: Settings, opt: Opt, value: string)
    requires opt in {Width, Height, Fps, Bitrate, PacketSize}
    ensures DirectiveStep(env, s, Given(opt, value)) == Some(s.(stream := StreamStep(s.stream, opt, value)))
  {
  }

  lemma ItemMerges(env: Env, base: Settings, s: Settings, k: nat)
    requires k < ITEMS
    ensures if ItemAt(s, k).differs
      then DirectiveStep(env, MergedUpTo(base, s, k), ItemAt(s, k).directive) == Some(MergedUpTo(base, s, k + 1))
      else MergedUpTo(base, s, k) == MergedUpTo(base, s, k + 1)
  {
    if k < 5 {
      NumberMerges(base.stream, s, k);
      NumberItem(s, k);
      StreamDirective(env, MergedUpTo(base, s, k), NumberOpt(k), ItemAt(s, k).value);
    }
  }

  /** The items, one after another, turn the base into the merged settings. */
  lemma {:induction false} ItemsMerge(env: Env, base: Settings, s: Settings, items: seq<Item>, k: nat)
    requires items == Items(s) && k <= |items|
    ensures Run(env, base, ItemDirectives(items[..k])) == Some(MergedUpTo(base, s, k))
  {
    if k > 0 {
      ItemsMerge(env, base, s, items, k - 1);
      ItemMerges(env, base, s, k - 1);
      RunNextItem(env, base, items, k - 1, MergedUpTo(base, s, k - 1), MergedUpTo(base, s, k));
    } else {
      NoneAreMerged(base, s);
      assert items[..0] == [];
    }
  }

  lemma RunNextItem(env: Env, base: Settings, items: seq<Item>, k: nat, before: Settings, after: Settings)
    requires k < |items| && Run(env, base, ItemDirectives(items[..k])) == Some(before)
    requires if items[k].differs then DirectiveStep(env, before, items[k].directive) == Some(after) else before == after
    ensures Run(env, base, ItemDirectives(items[..k + 1])) == Some(after)
  {
    assert items[..k + 1] == items[..k] + [items[k]];
    RunItem(env, base, items[..k], items[k]);
  }

  lemma NoneAreMerged(base: Settings, s: Settings)
    ensures MergedUpTo(base, s, 0) == base
  {
  }

  lemma ItemsAreFlat(s: Settings)
    ensures forall k :: 0 <= k < ITEMS ==> IsFlat(Items(s)[k].directive)
  {
  }

  lemma AllAreMerged(base: Settings, s: Settings)
    ensures MergedUpTo(base, s, 8) == Merged(base, s)
  {
  }

  /** Parsing a saved file over any settings merges what it names into them. */
  lemma SavedIsMerged(env: Env, stack: nat, base: Settings, s: Settings)
    requires LineValue(s.app)
    ensures LoadedOver(env, stack, base, SaveText(s)) == Some(Merged(base, s))
  {
    var items := Items(s);
    SavedItemsRead(s, items);
    ItemsAreFlat(s);
    ItemsNeedNoExpansion(env, stack, items);
    ItemsMerge(env, base, s, items, 8);
    assert items[..8] == items;
    AllAreMerged(base, s);
  }

  // ---- what cannot be restored ----

  /** An app name as a file can give it. */
  ghost predicate AppFromFile(r: Option<Settings>) {
    r.Some? ==> LineValue(r.value.app)
  }

  predicate GivesLineValue(d: Directive) {
    d.Given? && d.opt == AppName ==> LineValue(d.value)
  }

  lemma {:induction false} FileGivesLineValues(lines: seq<string>)
    ensures forall d :: d in FileDirectives(lines) ==> GivesLineValue(d)
  {
    if lines != [] {
      var last := lines[|lines| - 1];
      FileGivesLineValues(lines[..|lines| - 1]);
      if ScanToEnd(last).Some? {
        ScannedIsLineValue(last);
      }
    }
  }

  lemma StepGivesLineValue(env: Env, s: Settings, d: Directive)
    requires LineValue(s.app) && GivesLineValue(d)
    ensures AppFromFile(DirectiveStep(env, s, d))
  {
  }

  lemma {:induction false} RunGivesLineValues(env: Env, s: Settings, ds: seq<Directive>)
    requires LineValue(s.app) && forall d :: d in ds ==> GivesLineValue(d)
    ensures AppFromFile(Run(env, s, ds))
  {
    if ds != [] {
      var before := Run(env, s, ds[..|ds| - 1]);
      RunGivesLineValues(env, s, ds[..|ds| - 1]);
      if before.Some? {
        StepGivesLineValue(env, before.value, ds[|ds| - 1]);
      }
    }
  }

  lemma LoadedAppIsLineValue(env: Env, stack: nat, base: Settings, text: string)
    requires LineValue(base.app)
    ensures AppFromFile(LoadedOver(env, stack, base, text))
  {
    FileGivesLineValues(Lines(text));
    FilesGiveLineValues(env, stack, FileDirectives(Lines(text)));
    RunGivesLineValues(env, base, Expand(env, stack, FileDirectives(Lines(text))));
  }

  lemma FilesGiveLineValues(env: Env, stack: nat, ds: seq<Directive>)
    requires forall d :: d in ds ==> GivesLineValue(d)
    ensures forall d :: d in Expand(env, stack, ds) ==> GivesLineValue(d)
  {
    forall lines, d | d in FileDirectives(lines) ensures GivesLineValue(d) {
      FileGivesLineValues(lines);
    }
    ExpandKeeps(GivesLineValue, env, stack, ds);
  }

  /** A line, if there is something to say. */
  function LineIf(differs: bool, key: string, value: string): string {
    if differs then key + " = " + value + "\n" else ""
  }

  lemma ItemLineJoins(items: seq<Item>, k: nat)
    requires k < |items|
    ensures Join(ItemLines(items[..k + 1]))
         == Join(ItemLines(items[..k])) + LineIf(items[k].differs, items[k].key, items[k].value)
  {
    assert items[..k + 1][..k] == items[..k];
    var line := SettingLine(items[k].key, items[k].value);
    if items[k].differs {
      JoinAppend(ItemLines(items[..k]), [line]);
      assert Join([line]) == line;
    } else {
      assert ItemLines(items[..k]) + [] == ItemLines(items[..k]);
    }
  }

  /** The eight lines of a saved file: a setting is named exactly if it differs from its default. */
  function LineAt(s: Settings, k: nat): string
    requires k < 8
  {
    if k == 0 then LineIf(s.stream.width != 1280, "width", PrintInt(s.stream.width))
    else if k == 1 then LineIf(s.stream.height != 720, "height", PrintInt(s.stream.height))
    else if k == 2 then LineIf(s.stream.fps != 60, "fps", PrintInt(s.stream.fps))
    else if k == 3 then LineIf(s.stream.bitrate != -1, "bitrate", PrintInt(s.stream.bitrate))
    else if k == 4 then LineIf(s.stream.packetSize != 1024, "packetsize", PrintInt(s.stream.packetSize))
    else if k == 5 then LineIf(!s.sops, "sops", "false")
    else if k == 6 then LineIf(s.localaudio, "localaudio", "true")
    else LineIf(s.app != "Steam", "app", s.app)
  }

  function LinesUpTo(s: Settings, k: nat): string
    requires k <= 8
  {
    if k == 0 then "" else LinesUpTo(s, k - 1) + LineAt(s, k - 1)
  }

  lemma ItemIsLine(s: Settings, k: nat)
    requires k < 8
    ensures LineIf(ItemAt(s, k).differs, ItemAt(s, k).key, ItemAt(s, k).value) == LineAt(s, k)
  {
  }

  lemma {:induction false} SavedUpTo(s: Settings, items: seq<Item>, k: nat)
    requires items == Items(s) && k <= 8
    ensures Join(ItemLines(items[..k])) == LinesUpTo(s, k)
  {
    if k == 0 {
      assert items[..0] == [];
    } else {
      SavedUpTo(s, items, k - 1);
      ItemLineJoins(items, k - 1);
      ItemIsLine(s, k - 1);
    }
  }

  /** The saved file, line by line. */
  lemma SavedText(s: Settings)
    ensures SaveText(s) == LinesUpTo(s, 8)
  {
    SavedUpTo(s, Items(s), 8);
    assert Items(s)[..8] == Items(s);
  }

  // ---- what comes back, and exactly when ----

  /** The settings that a file can name agree. */
  predicate SameKept(a: Settings, b: Settings) {
    && a.stream.width == b.stream.width && a.stream.height == b.stream.height && a.stream.fps == b.stream.fps
    && a.stream.bitrate == b.stream.bitrate && a.stream.packetSize == b.stream.packetSize
    && a.sops == b.sops && a.localaudio == b.localaudio && a.app == b.app
  }

  /** So do all others, but for the action, the address and the file to save to, which belong to one start. */
  predicate SameOthers(a: Settings, b: Settings) {
    && a.stream.remote == b.stream.remote && a.stream.surround == b.stream.surround && a.stream.hevc == b.stream.hevc
    && a.devices == b.devices
    && a.rest.platform == b.rest.platform && a.rest.keyDir == b.rest.keyDir
    && a.rest.fullscreen == b.rest.fullscreen && a.rest.forcehw == b.rest.forcehw
    && a.rest.unsupported == b.rest.unsupported && a.rest.audioDevice == b.rest.audioDevice
  }

  /** What the file does not name, because it is the default, is the default in the base as well. */
  predicate DefaultsShowThrough(base: Settings, s: Settings) {
    && (s.stream.width == 1280 ==> base.stream.width == 1280)
    && (s.stream.height == 720 ==> base.stream.height == 720)
    && (s.stream.fps == 60 ==> base.stream.fps == 60)
    && (s.stream.bitrate == -1 ==> base.stream.bitrate == -1)
    && (s.stream.packetSize == 1024 ==> base.stream.packetSize == 1024)
    && (s.sops ==> base.sops)
    && (base.localaudio ==> s.localaudio)
    && (s.app == "Steam" ==> base.app == "Steam")
  }

  lemma MergedKeepsExactly(base: Settings, s: Settings)
    ensures SameKept(Merged(base, s), s) <==> DefaultsShowThrough(base, s)
    ensures SameOthers(Merged(base, s), s) <==> SameOthers(base, s)
    ensures Merged(base, s).rest == base.rest
  {
  }

  /** What has come back: the settings that a file can name, and all of them. */
  datatype Survival = Survival(kept: bool, all: bool)

  function CameBack(back: Option<Settings>, s: Settings): Survival {
    var kept := back.Some? && SameKept(back.value, s);
    Survival(kept, kept && SameOthers(back.value, s))
  }

  /**
   What can come back: the settings that a file can name if the app name is non-empty, holds no newline
   and does not begin with white space, and the defaults that the file leaves out are not overridden in
   the base; and all settings if, besides, the base agrees on the others.
   */
  function Expected(base: Settings, s: Settings): Survival {
    var kept := LineValue(s.app) && DefaultsShowThrough(base, s);
    Survival(kept, kept && SameOthers(base, s))
  }

  /** Reading a saved file over a base brings back exactly that. */
  lemma ComesBackExactly(env: Env, stack: nat, base: Settings, s: Settings)
    requires LineValue(base.app)
    ensures CameBack(LoadedOver(env, stack, base, SaveText(s)), s) == Expected(base, s)
  {
    if LineValue(s.app) {
      SavedIsMerged(env, stack, base, s);
      MergedKeepsExactly(base, s);
    } else {
      LoadedAppIsLineValue(env, stack, base, SaveText(s));
    }
  }

  /** What parsing a file into the default settings gives. */
  function Loaded(env: Env, stack: nat, text: string): Option<Settings> {
    LoadedOver(env, stack, Defaults(env), text)
  }

  /** The default settings with those of `s` that a file keeps. */
  function Restored(env: Env, s: Settings): Settings {
    var stream := DEFAULT_STREAM.(
      width := s.stream.width, height := s.stream.height, fps := s.stream.fps,
      bitrate := s.stream.bitrate, packetSize := s.stream.packetSize);
    Defaults(env).(stream := stream, sops := s.sops, localaudio := s.localaudio, app := s.app)
  }

  /**
   Saving and then parsing into the default settings restores what the file keeps if and only if the app
   name is non-empty, holds no newline and does not begin with white space.
   */
  lemma SaveRestoresExactly(env: Env, stack: nat, s: Settings)
    ensures Loaded(env, stack, SaveText(s)) == Some(Restored(env, s)) <==> LineValue(s.app)
  {
    assert LineValue("Steam");
    if LineValue(s.app) {
      SavedIsMerged(env, stack, Defaults(env), s);
      assert Merged(Defaults(env), s) == Restored(env, s);
    } else {
      LoadedAppIsLineValue(env, stack, Defaults(env), SaveText(s));
    }
  }

  /** The configuration that a saved file restores is used with the same bitrate as the one it was saved from. */
  lemma SameDerivedBitrate(env: Env, stack: nat, s: Settings)
    requires LineValue(s.app)
    ensures Loaded(env, stack, SaveText(s)).Some?
    ensures Derived(Loaded(env, stack, SaveText(s)).value.stream).bitrate == Derived(s.stream).bitrate
  {
    SaveRestoresExactly(env, stack, s);
  }

  // ---- a start from the saved file ----

  /** The settings that a start has before it looks at its command line. */
  function BaseOf(env: Env, stack: nat): Option<Settings> {
    Run(env, Defaults(env), Expand(env, stack, DefaultFile(env)))
  }

  lemma BaseAppIsLineValue(env: Env, stack: nat)
    ensures AppFromFile(BaseOf(env, stack))
  {
    assert LineValue("Steam");
    FilesGiveLineValues(env, stack, DefaultFile(env));
    RunGivesLineValues(env, Defaults(env), Expand(env, stack, DefaultFile(env)));
  }

  /** The settings of a start from a file alone. */
  function StartOf(env: Env, stack: nat, name: string): Option<Settings> {
    Run(env, Defaults(env), AllDirectives(env, stack, SingleFile(name)))
  }

  /** What a start from a file alone gives: the base, told to stream, and the file over it. */
  lemma StartFromFile(env: Env, stack: nat, left: nat, name: string)
    requires stack == left + 1 && name in env.files && BaseOf(env, stack).Some?
    ensures StartOf(env, stack, name)
         == LoadedOver(env, left, Streaming(BaseOf(env, stack).value), env.files[name])
  {
    RunExpanded(env, stack, Defaults(env), DefaultFile(env), CommandDirectives(SingleFile(name)));
    SingleFileRun(env, stack, BaseOf(env, stack).value, name);
    RunNested(env, stack, left, Streaming(BaseOf(env, stack).value), name);
  }

  lemma RunNested(env: Env, stack: nat, left: nat, s: Settings, name: string)
    requires stack == left + 1 && name in env.files
    ensures Run(env, s, Expanded(env, stack, Given(ConfigFile, name))) == LoadedOver(env, left, s, env.files[name])
  {
    NestedIsContent(env, stack, left, name);
  }

  lemma NestedIsContent(env: Env, stack: nat, left: nat, name: string)
    requires stack == left + 1 && name in env.files
    ensures Expanded(env, stack, Given(ConfigFile, name)) == Expand(env, left, FileDirectives(Lines(env.files[name])))
  {
    OfReadable(Files(env), stack, left, Given(ConfigFile, name));
  }

  function Streaming(s: Settings): Settings {
    s.(rest := s.rest.(action := Some("stream")))
  }

  /**
   A start has saved its settings, and a later one, perhaps in other surroundings, starts from that file
   alone, over the base that its default file gives. Exactly as much comes back; the action, the address
   and the file to save to belong to one start and are set aside.
   */
  lemma SavedStartComesBackExactly(s: Settings, later: Env, deep: nat, name: string)
    requires deep > 0 && name in later.files && later.files[name] == SaveText(s)
    requires BaseOf(later, deep).Some?
    ensures CameBack(StartOf(later, deep, name), s) == Expected(BaseOf(later, deep).value, s)
  {
    var left: nat := deep - 1;
    SavedStartLoads(s, later, deep, left, name);
    ComesBackStreaming(s, later, left, BaseOf(later, deep).value);
  }

  lemma ComesBackStreaming(s: Settings, env: Env, stack: nat, base: Settings)
    requires LineValue(base.app)
    ensures CameBack(LoadedOver(env, stack, Streaming(base), SaveText(s)), s) == Expected(base, s)
  {
    StreamingIsAside(base, s);
    ComesBackExactly(env, stack, Streaming(base), s);
  }

  /** A start from a saved file streams, and names a host, or a file to save to, only if the base does. */
  lemma SavedStartStreams(s: Settings, env: Env, stack: nat, base: Settings)
    requires LineValue(s.app)
    ensures var back := LoadedOver(env, stack, Streaming(base), SaveText(s));
      back.Some? && back.value.rest == base.rest.(action := Some("stream"))
  {
    SavedIsMerged(env, stack, Streaming(base), s);
    MergedKeepsExactly(Streaming(base), s);
  }

  lemma SavedStartLoads(s: Settings, later: Env, deep: nat, left: nat, name: string)
    requires deep == left + 1 && name in later.files && later.files[name] == SaveText(s)
    requires BaseOf(later, deep).Some?
    ensures StartOf(later, deep, name)
         == LoadedOver(later, left, Streaming(BaseOf(later, deep).value), SaveText(s))
    ensures LineValue(BaseOf(later, deep).value.app)
  {
    StartFromFile(later, deep, left, name);
    BaseAppIsLineValue(later, deep);
  }

  lemma StreamingIsAside(base: Settings, s: Settings)
    ensures Streaming(base).app == base.app
    ensures DefaultsShowThrough(Streaming(base), s) <==> DefaultsShowThrough(base, s)
    ensures SameOthers(Streaming(base), s) <==> SameOthers(base, s)
  {
  }

  /** Without a default file only the other settings can be lost: those that are not at their defaults. */
  lemma SavedStartWithoutDefaultFile(later: Env, deep: nat, s: Settings)
    requires DefaultFile(later) == []
    ensures BaseOf(later, deep) == Some(Defaults(later)) && DefaultsShowThrough(Defaults(later), s)
  {
  }

  /** The settings after optimal settings are switched off, and a file to save to is given. */
  function SomeSettings(env: Env, file: string): Settings {
    Defaults(env).(sops := false, rest := Defaults(env).rest.(saveTo := Some(file)))
  }

  /** They come back from the file. */
  lemma SomeSettingsComeBack(env: Env, file: string)
    ensures var s := SomeSettings(env, file);
      s.rest.saveTo.Some? && LineValue(s.app) && DefaultsShowThrough(Defaults(env), s) && SameOthers(Defaults(env), s)
  {
    assert LineValue("Steam");
  }

  /** And there is such a start. */
  lemma SomeStartSaves(env: Env, stack: nat, file: string)
    requires DefaultFile(env) == []
    ensures Run(env, Defaults(env), AllDirectives(env, stack, Arguments([(NoSops, ""), (Save, file)])))
         == Some(SomeSettings(env, file))
  {
    TwoAreExpanded(env, stack, (NoSops, ""), (Save, file));
    SomeSteps(env, file);
    RunTwo(env, stack, Defaults(env), Given(NoSops, ""), Given(Save, file));
  }

  lemma SomeSteps(env: Env, file: string)
    ensures DirectiveStep(env, Defaults(env), Given(NoSops, "")) == Some(Defaults(env).(sops := false))
    ensures DirectiveStep(env, Defaults(env).(sops := false), Given(Save, file)) == Some(SomeSettings(env, file))
  {
  }

  lemma TwoAreExpanded(env: Env, stack: nat, x: (Opt, string), y: (Opt, string))
    requires DefaultFile(env) == []
    ensures AllDirectives(env, stack, Arguments([x, y])) == Expand(env, stack, [Given(x.0, x.1)] + [Given(y.0, y.1)])
  {
    TwoArguments(x, y);
    assert DefaultFile(env) + CommandDirectives(Arguments([x, y])) == [Given(x.0, x.1)] + [Given(y.0, y.1)];
  }

  lemma TwoArguments(x: (Opt, string), y: (Opt, string))
    ensures ArgumentDirectives([x, y]) == [Given(x.0, x.1)] + [Given(y.0, y.1)]
  {
    var args := [x, y];
    assert args[..|args| - 1] == [x];
    assert [x][..|[x]| - 1] == [];
    assert ArgumentDirectives([]) == [];
    assert ArgumentDirectives([x]) == [] + [Given(x.0, x.1)];
    assert ArgumentDirectives([x]) == [Given(x.0, x.1)];
  }
}
