/**
 From the names in a mapping file (src/input/mapping.c) to the controls of the pad (src/input/evdev.c):
 what a device does whose mapping was loaded from a file with these lines.
 */
module NamedControls {
  import opened AxisScaling
  import opened CTypes
  import opened Evdev
  import opened Folding
  import opened GamepadMapping
  import opened HandlerLaws
  import opened Limelight
  import opened MappingNames
  import opened Options
  import opened SettingsFile
  import opened Text

  /** No member of the mapping has this code yet. */
  ghost predicate Free(m: Mapping, n: short) {
    forall f :: !IsFlag(f) ==> m[f].n != n
  }

  /** A mapping, loaded over another from a few lines. */
  ghost function Loaded(m: Mapping, lines: seq<string>): (loaded: Mapping)
    ensures loaded == LoadLines(FORMAT, m, lines)
  {
    LoadedIsMapping(m, lines);
    LoadLines(FORMAT, m, lines)
  }

  // ---- buttons ----

  /** A code under this name sets this button when pressed and clears it when released, after any events. */
  ghost predicate Plays(key: string, b: Button) {
    forall m: Mapping, n: short, cal, log, value: int :: n >= 0 && IsPadKey(n) && Free(m, n) ==>
      (b in After(Loaded(m, [SettingLine(key, PrintInt(n))]), cal, log + [Event.Key(n, value)]).pad.buttons
       <==> value != 0)
  }

  lemma NamePlays(key: string, f: Field, b: Button)
    requires !IsFlag(f) && SetsNumber(key, f) && ButtonField(b) == f
    ensures Plays(key, b)
  {
    forall m: Mapping, n: short, cal, log, value: int | n >= 0 && IsPadKey(n) && Free(m, n)
      ensures b in After(Loaded(m, [SettingLine(key, PrintInt(n))]), cal, log + [Event.Key(n, value)]).pad.buttons
         <==> value != 0
    {
      var loaded := Loaded(m, [SettingLine(key, PrintInt(n))]);
      assert loaded == m[f := Num(n)];
      ButtonHasField(loaded, b, n);
      KeyPlays(loaded, b, n, cal, log, value);
    }
  }

  lemma KeyPlays(m: Mapping, b: Button, n: nat, cal: Calibration, log: seq<Event>, value: int)
    requires IsPadKey(n) && ButtonOf(m, n) == Some(b)
    ensures b in After(m, cal, log + [Event.Key(n, value)]).pad.buttons <==> value != 0
  {
    ButtonIsHistory(m, cal, log + [Event.Key(n, value)], b);
    assert (log + [Event.Key(n, value)])[|log|] == Event.Key(n, value);
  }

  lemma ButtonHasField(m: Mapping, b: Button, n: nat)
    requires m[ButtonField(b)].n == n && forall f :: !IsFlag(f) && f != ButtonField(b) ==> m[f].n != n
    ensures ButtonOf(m, n) == Some(b)
  {
    forall c | PlaceOf(c) < PlaceOf(b) ensures Number(m, ButtonField(c)) != n {
      FieldsDiffer(b, c);
    }
    UnclaimedButton(m, n, b, 0);
  }

  lemma FieldsDiffer(b: Button, c: Button)
    ensures ButtonField(b) == ButtonField(c) ==> b == c
  {
  }

  /** The names of the buttons, as a player knows them. */
  lemma FaceButtonsPlay()
    ensures Plays("btn_south", A) && Plays("btn_east", B) && Plays("btn_west", X) && Plays("btn_north", Y)
  {
    FaceButtonNames();
    NamePlays("btn_south", BtnSouth, A);
    NamePlays("btn_east", BtnEast, B);
    NamePlays("btn_west", BtnWest, X);
    NamePlays("btn_north", BtnNorth, Y);
  }

  lemma MiddleButtonsPlay()
    ensures Plays("btn_select", Back) && Plays("btn_start", Play) && Plays("btn_mode", Special)
  {
    MiddleButtonNames();
    NamePlays("btn_select", BtnSelect, Back);
    NamePlays("btn_start", BtnStart, Play);
    NamePlays("btn_mode", BtnMode, Special);
  }

  lemma StickButtonsPlay()
    ensures Plays("btn_thumbl", LeftStick) && Plays("btn_thumbr", RightStick)
  {
    StickButtonNames();
    NamePlays("btn_thumbl", BtnThumbl, LeftStick);
    NamePlays("btn_thumbr", BtnThumbr, RightStick);
  }

  lemma ShouldersPlay()
    ensures Plays("btn_tl", LeftShoulder) && Plays("btn_tr", RightShoulder)
  {
    ShoulderNames();
    NamePlays("btn_tl", BtnTl, LeftShoulder);
    NamePlays("btn_tr", BtnTr, RightShoulder);
  }

  lemma DpadPlays()
    ensures Plays("btn_dpad_up", Up) && Plays("btn_dpad_down", Down)
    ensures Plays("btn_dpad_left", Left) && Plays("btn_dpad_right", Right)
  {
    DpadNames();
    NamePlays("btn_dpad_up", BtnDpadUp, Up);
    NamePlays("btn_dpad_down", BtnDpadDown, Down);
    NamePlays("btn_dpad_left", BtnDpadLeft, Left);
    NamePlays("btn_dpad_right", BtnDpadRight, Right);
  }

  // ---- trigger keys ----

  /** A code under this name pulls a trigger all the way when pressed and lets it go when released. */
  ghost predicate Pulls(key: string, left: bool) {
    forall m: Mapping, n: short, cal, log, value: int :: n >= 0 && IsPadKey(n) && Free(m, n) ==>
      var pad := After(Loaded(m, [SettingLine(key, PrintInt(n))]), cal, log + [Event.Key(n, value)]).pad;
      (if left then pad.leftTrigger else pad.rightTrigger) == if value != 0 then 255 else 0
  }

  lemma NamePulls(key: string, f: Field, left: bool)
    requires SetsNumber(key, f) && f == if left then BtnTl2 else BtnTr2
    ensures Pulls(key, left)
  {
    forall m: Mapping, n: short, cal, log, value: int | n >= 0 && IsPadKey(n) && Free(m, n)
      ensures var pad := After(Loaded(m, [SettingLine(key, PrintInt(n))]), cal, log + [Event.Key(n, value)]).pad;
        (if left then pad.leftTrigger else pad.rightTrigger) == if value != 0 then 255 else 0
    {
      var loaded := Loaded(m, [SettingLine(key, PrintInt(n))]);
      assert loaded == m[f := Num(n)];
      KeyPulls(loaded, n, left, cal, log, value);
    }
  }

  /** The code is that of a trigger and of nothing else. */
  ghost predicate OnlyFor(m: Mapping, f: Field, n: nat)
    requires !IsFlag(f)
  {
    m[f].n == n && forall g :: !IsFlag(g) && g != f ==> m[g].n != n
  }

  lemma KeyPulls(m: Mapping, n: nat, left: bool, cal: Calibration, log: seq<Event>, value: int)
    requires IsPadKey(n) && OnlyFor(m, if left then BtnTl2 else BtnTr2, n)
    ensures var pad := After(m, cal, log + [Event.Key(n, value)]).pad;
      (if left then pad.leftTrigger else pad.rightTrigger) == if value != 0 then 255 else 0
  {
    forall b ensures Number(m, ButtonField(b)) != n { TriggerIsNoButton(b); }
    MatchedButton(m, n, 0);
    TriggerHoldsKey(m, cal, log, n, value);
  }

  lemma TriggerIsNoButton(b: Button)
    ensures ButtonField(b) != BtnTl2 && ButtonField(b) != BtnTr2
  {
  }

  lemma TriggersPull()
    ensures Pulls("btn_tl2", true) && Pulls("btn_tr2", false)
  {
    ShoulderNames();
    NamePulls("btn_tl2", BtnTl2, true);
    NamePulls("btn_tr2", BtnTr2, false);
  }

  // ---- axes ----

  lemma AxisHasField(m: Mapping, axis: Control, n: nat)
    requires m[AxisField(axis)].n == n && forall f :: !IsFlag(f) && f != AxisField(axis) ==> m[f].n != n
    ensures AxisOf(m, n) == Some(axis)
  {
    forall c | AxisPlace(c) < AxisPlace(axis) ensures Number(m, AxisField(c)) != n {
      AxesDiffer(axis, c);
    }
    UnclaimedAxis(m, n, axis, 0);
  }

  lemma AxesDiffer(a: Control, b: Control)
    ensures AxisField(a) == AxisField(b) ==> a == b
  {
  }

  /** The lines that name an axis and its reversal. */
  function AxisLines(key: string, n: short, reversal: string, word: string): seq<string> {
    [SettingLine(key, PrintInt(n))] + [SettingLine(reversal, word)]
  }

  lemma AxisLinesSet(m: Mapping, key: string, f: Field, n: short, reversal: string, g: Field, word: string)
    requires !IsFlag(f) && IsFlag(g) && SetsNumber(key, f) && SetsFlag(reversal, g) && IsToken(word)
    ensures LoadLines(FORMAT, m, AxisLines(key, n, reversal, word)) == m[f := Num(n)][g := Flag(word == "true")]
  {
    var first, second := [SettingLine(key, PrintInt(n))], [SettingLine(reversal, word)];
    LoadMore(m, first, second);
    var between: Mapping := m[f := Num(n)];
    assert LoadLines(FORMAT, m, first) == between;
    assert LoadLines(FORMAT, between, second) == between[g := Flag(word == "true")];
  }

  lemma LoadMore(m: Mapping, a: seq<string>, b: seq<string>)
    ensures LoadLines(FORMAT, m, a + b) == LoadLines(FORMAT, LoadLines(FORMAT, m, a), b)
  {
    FoldAppend((t, line) => LoadLine(FORMAT, t, line), m, a, b);
  }

  /** A code under this name moves this stick axis: by the calibration that the device reports for the code. */
  ghost predicate Moves(key: string, reversal: string, axis: Control)
    requires IsStick(axis)
  {
    forall m: Mapping, n: short, word: string, info, log, v: int :: n >= 0 && Free(m, n) && IsToken(word) ==>
      var loaded := Loaded(m, AxisLines(key, n, reversal, word));
      var r := ConvertValue(v, ParmsFor(info, n), word == "true");
      r.Some? ==> StickOf(After(loaded, CalibrationFor(loaded, info), log + [Abs(n, v)]).pad, axis) == r.value
  }

  lemma NameMoves(key: string, f: Field, reversal: string, g: Field, axis: Control)
    requires !IsFlag(f) && IsFlag(g) && SetsNumber(key, f) && SetsFlag(reversal, g)
    requires IsStick(axis) && AxisField(axis) == f && StickReversal(axis) == g
    ensures Moves(key, reversal, axis)
  {
    forall m: Mapping, n: short, word: string, info, log, v: int | n >= 0 && Free(m, n) && IsToken(word)
      ensures var loaded := Loaded(m, AxisLines(key, n, reversal, word));
        var r := ConvertValue(v, ParmsFor(info, n), word == "true");
        r.Some? ==> StickOf(After(loaded, CalibrationFor(loaded, info), log + [Abs(n, v)]).pad, axis) == r.value
    {
      var loaded := Loaded(m, AxisLines(key, n, reversal, word));
      AxisLinesSet(m, key, f, n, reversal, g, word);
      AxisHasField(loaded, axis, n);
      StickIsCalibrated(loaded, info, axis);
      StickHoldsReading(loaded, CalibrationFor(loaded, info), log, axis, n, v);
    }
  }

  lemma StickIsCalibrated(m: Mapping, info: AxisInfo, axis: Control)
    requires IsStick(axis)
    ensures StickParms(CalibrationFor(m, info), axis) == ParmsFor(info, m[AxisField(axis)].n)
  {
  }

  lemma SticksMove()
    ensures Moves("abs_x", "reverse_x", LeftX) && Moves("abs_y", "reverse_y", LeftY)
    ensures Moves("abs_rx", "reverse_rx", RightX) && Moves("abs_ry", "reverse_ry", RightY)
  {
    StickNames();
    ReverseNames();
    NameMoves("abs_x", AbsX, "reverse_x", ReverseX, LeftX);
    NameMoves("abs_y", AbsY, "reverse_y", ReverseY, LeftY);
    NameMoves("abs_rx", AbsRx, "reverse_rx", ReverseRx, RightX);
    NameMoves("abs_ry", AbsRy, "reverse_ry", ReverseRy, RightY);
  }

  /** The members of the pad that the stick axes are. */
  lemma StickMembers(pad: Pad)
    ensures StickOf(pad, LeftX) == pad.leftStickX && StickOf(pad, LeftY) == pad.leftStickY
    ensures StickOf(pad, RightX) == pad.rightStickX && StickOf(pad, RightY) == pad.rightStickY
  {
  }

  /** A code under this name pulls a trigger, by its own calibration. */
  ghost predicate PullsByAxis(key: string, left: bool) {
    forall m: Mapping, n: short, info, log, v: int :: n >= 0 && Free(m, n) ==>
      var loaded := Loaded(m, [SettingLine(key, PrintInt(n))]);
      var pad := After(loaded, CalibrationFor(loaded, info), log + [Abs(n, v)]).pad;
      var r := ConvertByte(v, ParmsFor(info, n));
      r.Some? ==> (if left then pad.leftTrigger else pad.rightTrigger) == r.value
  }

  lemma NamePullsByAxis(key: string, f: Field, left: bool)
    requires SetsNumber(key, f) && f == if left then AbsZ else AbsRz
    ensures PullsByAxis(key, left)
  {
    forall m: Mapping, n: short, info, log, v: int | n >= 0 && Free(m, n)
      ensures var loaded := Loaded(m, [SettingLine(key, PrintInt(n))]);
        var pad := After(loaded, CalibrationFor(loaded, info), log + [Abs(n, v)]).pad;
        var r := ConvertByte(v, ParmsFor(info, n));
        r.Some? ==> (if left then pad.leftTrigger else pad.rightTrigger) == r.value
    {
      var loaded := Loaded(m, [SettingLine(key, PrintInt(n))]);
      assert loaded == m[f := Num(n)];
      AxisPulls(loaded, n, left, info, log, v);
    }
  }

  lemma AxisPulls(m: Mapping, n: nat, left: bool, info: AxisInfo, log: seq<Event>, v: int)
    requires OnlyFor(m, if left then AbsZ else AbsRz, n)
    ensures var pad := After(m, CalibrationFor(m, info), log + [Abs(n, v)]).pad;
      var r := ConvertByte(v, ParmsFor(info, n));
      r.Some? ==> (if left then pad.leftTrigger else pad.rightTrigger) == r.value
  {
    var cal := CalibrationFor(m, info);
    TriggerAxes(m, info);
    if left {
      AxisHasField(m, LeftTrigger, n);
    } else {
      AxisHasField(m, RightTrigger, n);
    }
    TriggerHoldsReading(m, cal, log, n, v);
  }

  lemma TriggerAxes(m: Mapping, info: AxisInfo)
    ensures AxisField(LeftTrigger) == AbsZ && CalibrationFor(m, info).z == ParmsFor(info, m[AbsZ].n)
    ensures AxisField(RightTrigger) == AbsRz && CalibrationFor(m, info).rz == ParmsFor(info, m[AbsRz].n)
  {
  }

  lemma TriggerAxesPull()
    ensures PullsByAxis("abs_z", true) && PullsByAxis("abs_rz", false)
  {
    OtherAxisNames();
    NamePullsByAxis("abs_z", AbsZ, true);
    NamePullsByAxis("abs_rz", AbsRz, false);
  }

  /** A code under this name moves the d-pad: exactly the button of the side that the axis is on is down. */
  ghost predicate Directs(key: string, reversal: string, forth: Button, back: Button) {
    forall m: Mapping, n: short, word: string, info: AxisInfo, log, v: int ::
      n >= 0 && Free(m, n) && IsToken(word) && info(n).min <= info(n).max && info(n).flat >= 0 ==>
      var loaded := Loaded(m, AxisLines(key, n, reversal, word));
      var buttons := After(loaded, CalibrationFor(loaded, info), log + [Abs(n, v)]).pad.buttons;
      var side := Side(v, ParmsFor(info, n), word == "true");
      (forth in buttons <==> side == 1) && (back in buttons <==> side == -1)
  }

  lemma XDirects(key: string, reversal: string)
    requires SetsNumber(key, AbsDpadX) && SetsFlag(reversal, ReverseDpadX)
    ensures Directs(key, reversal, Right, Left)
  {
    forall m: Mapping, n: short, word: string, info: AxisInfo, log, v: int |
      n >= 0 && Free(m, n) && IsToken(word) && info(n).min <= info(n).max && info(n).flat >= 0
      ensures var loaded := Loaded(m, AxisLines(key, n, reversal, word));
        var buttons := After(loaded, CalibrationFor(loaded, info), log + [Abs(n, v)]).pad.buttons;
        var side := Side(v, ParmsFor(info, n), word == "true");
        (Right in buttons <==> side == 1) && (Left in buttons <==> side == -1)
    {
      var loaded := Loaded(m, AxisLines(key, n, reversal, word));
      AxisLinesSet(m, key, AbsDpadX, n, reversal, ReverseDpadX, word);
      XFollows(loaded, n, info, log, v);
    }
  }

  lemma XFollows(m: Mapping, n: nat, info: AxisInfo, log: seq<Event>, v: int)
    requires OnlyFor(m, AbsDpadX, n) && info(n).min <= info(n).max && info(n).flat >= 0
    ensures var buttons := After(m, CalibrationFor(m, info), log + [Abs(n, v)]).pad.buttons;
      var side := Side(v, ParmsFor(info, n), m[ReverseDpadX].on);
      (Right in buttons <==> side == 1) && (Left in buttons <==> side == -1)
  {
    DpadAxes(m, info);
    AxisHasField(m, DpadX, n);
    DpadFollowsX(m, CalibrationFor(m, info), log, n, v);
  }

  lemma YDirects(key: string, reversal: string)
    requires SetsNumber(key, AbsDpadY) && SetsFlag(reversal, ReverseDpadY)
    ensures Directs(key, reversal, Down, Up)
  {
    forall m: Mapping, n: short, word: string, info: AxisInfo, log, v: int |
      n >= 0 && Free(m, n) && IsToken(word) && info(n).min <= info(n).max && info(n).flat >= 0
      ensures var loaded := Loaded(m, AxisLines(key, n, reversal, word));
        var buttons := After(loaded, CalibrationFor(loaded, info), log + [Abs(n, v)]).pad.buttons;
        var side := Side(v, ParmsFor(info, n), word == "true");
        (Down in buttons <==> side == 1) && (Up in buttons <==> side == -1)
    {
      var loaded := Loaded(m, AxisLines(key, n, reversal, word));
      AxisLinesSet(m, key, AbsDpadY, n, reversal, ReverseDpadY, word);
      YFollows(loaded, n, info, log, v);
    }
  }

  lemma YFollows(m: Mapping, n: nat, info: AxisInfo, log: seq<Event>, v: int)
    requires OnlyFor(m, AbsDpadY, n) && info(n).min <= info(n).max && info(n).flat >= 0
    ensures var buttons := After(m, CalibrationFor(m, info), log + [Abs(n, v)]).pad.buttons;
      var side := Side(v, ParmsFor(info, n), m[ReverseDpadY].on);
      (Down in buttons <==> side == 1) && (Up in buttons <==> side == -1)
  {
    DpadAxes(m, info);
    AxisHasField(m, DpadY, n);
    DpadFollowsY(m, CalibrationFor(m, info), log, n, v);
  }

  lemma DpadAxes(m: Mapping, info: AxisInfo)
    ensures AxisField(DpadX) == AbsDpadX && CalibrationFor(m, info).dpadX == ParmsFor(info, m[AbsDpadX].n)
    ensures AxisField(DpadY) == AbsDpadY && CalibrationFor(m, info).dpadY == ParmsFor(info, m[AbsDpadY].n)
  {
  }

  lemma DpadDirects()
    ensures Directs("abs_dpad_x", "reverse_dpad_x", Right, Left)
    ensures Directs("abs_dpad_y", "reverse_dpad_y", Down, Up)
  {
    OtherAxisNames();
    ReverseNames();
    XDirects("abs_dpad_x", "reverse_dpad_x");
    YDirects("abs_dpad_y", "reverse_dpad_y");
  }
}
