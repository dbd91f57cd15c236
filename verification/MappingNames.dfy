/**
 The names in a gamepad mapping file (src/input/mapping.c), written out: what a line with each of them sets,
 and the file that is saved.
 */
module MappingNames {
  import opened CTypes
  import opened Folding
  import opened GamepadMapping
  import opened Options
  import opened SettingsFile
  import opened Text

  // ---- what a line sets ----

  /** Whatever the mapping before, a line with this name and any short number sets this one member to it. */
  ghost predicate SetsNumber(key: string, f: Field) {
    forall m: Mapping, n: short :: LoadLines(FORMAT, m, [SettingLine(key, PrintInt(n))]) == m[f := Num(n)]
  }

  /** With this name, the word "true" sets this one flag, and any other word clears it. */
  ghost predicate SetsFlag(key: string, f: Field) {
    forall m: Mapping, value: string :: IsToken(value) ==>
      LoadLines(FORMAT, m, [SettingLine(key, value)]) == m[f := Flag(value == "true")]
  }

  lemma LoadOneLine(m: Mapping, line: string)
    ensures LoadLines(FORMAT, m, [line]) == LoadLine(FORMAT, m, line)
  {
    var step := (t, l) => LoadLine(FORMAT, t, l);
    assert [line] == [] + [line];
    FoldExtend(step, m, [], line);
  }

  lemma LineSets(m: Mapping, f: Field, value: string)
    requires IsToken(value)
    ensures LoadLines(FORMAT, m, [SettingLine(Key(f), value)]) == m[f := Read(f, value)]
  {
    KeyIsToken(f);
    OrdersAreComplete(f);
    FindsFirst(f, LOAD_ORDER);
    ScanTokensOfSetting(Key(f), value);
    LoadOneLine(m, SettingLine(Key(f), value));
  }

  lemma NumberName(key: string, f: Field)
    requires !IsFlag(f) && Key(f) == key
    ensures SetsNumber(key, f)
  {
    forall m: Mapping, n: short ensures LoadLines(FORMAT, m, [SettingLine(key, PrintInt(n))]) == m[f := Num(n)] {
      ValuePrints(f, Num(n));
      LineSets(m, f, PrintInt(n));
    }
  }

  lemma FlagName(key: string, f: Field)
    requires IsFlag(f) && Key(f) == key
    ensures SetsFlag(key, f)
  {
    forall m: Mapping, value: string | IsToken(value)
      ensures LoadLines(FORMAT, m, [SettingLine(key, value)]) == m[f := Flag(value == "true")]
    {
      LineSets(m, f, value);
    }
  }

  /** The names of the stick axes. */
  lemma StickNames()
    ensures SetsNumber("abs_x", AbsX) && SetsNumber("abs_y", AbsY)
    ensures SetsNumber("abs_rx", AbsRx) && SetsNumber("abs_ry", AbsRy)
  {
    NumberName("abs_x", AbsX);
    NumberName("abs_y", AbsY);
    NumberName("abs_rx", AbsRx);
    NumberName("abs_ry", AbsRy);
  }

  /** The names of the other axes. */
  lemma OtherAxisNames()
    ensures SetsNumber("abs_z", AbsZ) && SetsNumber("abs_rz", AbsRz)
    ensures SetsNumber("abs_dpad_x", AbsDpadX) && SetsNumber("abs_dpad_y", AbsDpadY)
    ensures SetsNumber("abs_deadzone", AbsDeadzone)
  {
    NumberName("abs_z", AbsZ);
    NumberName("abs_rz", AbsRz);
    NumberName("abs_dpad_x", AbsDpadX);
    NumberName("abs_dpad_y", AbsDpadY);
    NumberName("abs_deadzone", AbsDeadzone);
  }

  /** The names of the four buttons in a diamond. */
  lemma FaceButtonNames()
    ensures SetsNumber("btn_south", BtnSouth) && SetsNumber("btn_east", BtnEast)
    ensures SetsNumber("btn_north", BtnNorth) && SetsNumber("btn_west", BtnWest)
  {
    NumberName("btn_south", BtnSouth);
    NumberName("btn_east", BtnEast);
    NumberName("btn_north", BtnNorth);
    NumberName("btn_west", BtnWest);
  }

  /** The names of the buttons in the middle, and below those on the sticks. */
  lemma MiddleButtonNames()
    ensures SetsNumber("btn_select", BtnSelect) && SetsNumber("btn_start", BtnStart)
    ensures SetsNumber("btn_mode", BtnMode)
  {
    NumberName("btn_select", BtnSelect);
    NumberName("btn_start", BtnStart);
    NumberName("btn_mode", BtnMode);
  }

  lemma StickButtonNames()
    ensures SetsNumber("btn_thumbl", BtnThumbl) && SetsNumber("btn_thumbr", BtnThumbr)
  {
    NumberName("btn_thumbl", BtnThumbl);
    NumberName("btn_thumbr", BtnThumbr);
  }

  /** The names of the shoulder buttons and the triggers. */
  lemma ShoulderNames()
    ensures SetsNumber("btn_tl", BtnTl) && SetsNumber("btn_tr", BtnTr)
    ensures SetsNumber("btn_tl2", BtnTl2) && SetsNumber("btn_tr2", BtnTr2)
  {
    NumberName("btn_tl", BtnTl);
    NumberName("btn_tr", BtnTr);
    NumberName("btn_tl2", BtnTl2);
    NumberName("btn_tr2", BtnTr2);
  }

  /** The names of the d-pad buttons. */
  lemma DpadNames()
    ensures SetsNumber("btn_dpad_up", BtnDpadUp) && SetsNumber("btn_dpad_down", BtnDpadDown)
    ensures SetsNumber("btn_dpad_left", BtnDpadLeft) && SetsNumber("btn_dpad_right", BtnDpadRight)
  {
    NumberName("btn_dpad_up", BtnDpadUp);
    NumberName("btn_dpad_down", BtnDpadDown);
    NumberName("btn_dpad_left", BtnDpadLeft);
    NumberName("btn_dpad_right", BtnDpadRight);
  }

  /** The names of the reversals. */
  lemma ReverseNames()
    ensures SetsFlag("reverse_x", ReverseX) && SetsFlag("reverse_y", ReverseY)
    ensures SetsFlag("reverse_rx", ReverseRx) && SetsFlag("reverse_ry", ReverseRy)
    ensures SetsFlag("reverse_dpad_x", ReverseDpadX) && SetsFlag("reverse_dpad_y", ReverseDpadY)
  {
    FlagName("reverse_x", ReverseX);
    FlagName("reverse_y", ReverseY);
    FlagName("reverse_rx", ReverseRx);
    FlagName("reverse_ry", ReverseRy);
    FlagName("reverse_dpad_x", ReverseDpadX);
    FlagName("reverse_dpad_y", ReverseDpadY);
  }

  /** A number that is not a short is cut to one, and a word that is not a number reads as `strtol` reads it. */
  lemma AnyWordSets(m: Mapping, f: Field, value: string)
    requires !IsFlag(f) && IsToken(value)
    ensures LoadLines(FORMAT, m, [SettingLine(Key(f), value)]) == m[f := Num(ToShort(Strtol(value)))]
  {
    LineSets(m, f, value);
  }

  const AXIS_NAMES := {
    "abs_x", "abs_y", "abs_z", "abs_rx", "abs_ry", "abs_rz", "abs_deadzone", "abs_dpad_x", "abs_dpad_y"}
  const REVERSE_NAMES := {
    "reverse_x", "reverse_y", "reverse_rx", "reverse_ry", "reverse_dpad_x", "reverse_dpad_y"}
  const BUTTON_NAMES := {
    "btn_south", "btn_east", "btn_north", "btn_west", "btn_select", "btn_start", "btn_mode", "btn_thumbl",
    "btn_thumbr", "btn_tl", "btn_tr", "btn_tl2", "btn_tr2", "btn_dpad_up", "btn_dpad_down", "btn_dpad_left",
    "btn_dpad_right"}

  predicate IsName(key: string) {
    key in AXIS_NAMES || key in REVERSE_NAMES || key in BUTTON_NAMES
  }

  lemma AxisIsNamed(f: Field)
    requires IsAxis(f)
    ensures Key(f) in AXIS_NAMES
  {
  }

  lemma ReversalIsNamed(f: Field)
    requires IsFlag(f)
    ensures Key(f) in REVERSE_NAMES
  {
  }

  lemma ButtonIsNamed(f: Field)
    requires !IsAxis(f) && !IsFlag(f)
    ensures Key(f) in BUTTON_NAMES
  {
  }

  lemma {:induction false} NoNameIsNotFound(key: string, order: seq<Field>)
    requires !IsName(key)
    ensures FindKey(key, order).None?
  {
    if order != [] {
      var f := order[0];
      if IsAxis(f) { AxisIsNamed(f); } else if IsFlag(f) { ReversalIsNamed(f); } else { ButtonIsNamed(f); }
      NoNameIsNotFound(key, order[1..]);
    }
  }

  /** A line with no key, no value, or a key that is none of the names changes nothing. */
  lemma OtherLines(m: Mapping, line: string)
    requires ScanTokens(line).Some? ==> !IsName(ScanTokens(line).value.0)
    ensures LoadLines(FORMAT, m, [line]) == m
  {
    LoadOneLine(m, line);
    if ScanTokens(line).Some? {
      NoNameIsNotFound(ScanTokens(line).value.0, LOAD_ORDER);
    }
  }

  // ---- the file that is saved ----

  /** The names in the order in which they are written. */
  const SAVED_NAMES: seq<string> := [
    "abs_x", "abs_y", "abs_z", "reverse_x", "reverse_y", "abs_rx", "abs_ry", "abs_rz",
    "reverse_rx", "reverse_ry", "abs_deadzone", "abs_dpad_x", "abs_dpad_y", "reverse_dpad_x", "reverse_dpad_y",
    "btn_north", "btn_east", "btn_south", "btn_west", "btn_select", "btn_start", "btn_mode",
    "btn_thumbl", "btn_thumbr", "btn_tl", "btn_tr", "btn_tl2", "btn_tr2",
    "btn_dpad_up", "btn_dpad_down", "btn_dpad_left", "btn_dpad_right"]

  lemma SavedAxisName(k: nat)
    requires k < 15
    ensures Key(SAVE_ORDER[k]) == SAVED_NAMES[k]
  {
  }

  lemma SavedButtonName(k: nat)
    requires 15 <= k < 24
    ensures Key(SAVE_ORDER[k]) == SAVED_NAMES[k]
  {
  }

  lemma SavedPadName(k: nat)
    requires 24 <= k < 32
    ensures Key(SAVE_ORDER[k]) == SAVED_NAMES[k]
  {
  }

  /** The text of a member: a number in decimal, a flag as a word. */
  function SavedValue(v: Value): string {
    match v
    case Num(n) => PrintInt(n)
    case Flag(on) => if on then "true" else "false"
  }

  /** The saved file has one line for each name, in this order, with the value of its member. */
  lemma SavedLines(m: Mapping, k: nat)
    requires k < 32
    ensures |SaveLines(FORMAT, m, SAVE_ORDER)| == |SAVED_NAMES| == 32
    ensures FieldOf(SAVED_NAMES[k]) == Some(SAVE_ORDER[k])
    ensures SaveLines(FORMAT, m, SAVE_ORDER)[k] == SAVED_NAMES[k] + " = " + SavedValue(m[SAVE_ORDER[k]]) + "\n"
  {
    if k < 15 { SavedAxisName(k); } else if k < 24 { SavedButtonName(k); } else { SavedPadName(k); }
    OrdersAreComplete(SAVE_ORDER[k]);
    FindsFirst(SAVE_ORDER[k], LOAD_ORDER);
  }
}
