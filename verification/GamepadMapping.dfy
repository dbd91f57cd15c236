/**
 The gamepad mapping file: what `mapping_save` prints and what `mapping_load` reads
 (src/input/mapping.c).
 */
module GamepadMapping {
  import opened CTypes
  import opened Folding
  import opened Options
  import opened SettingsFile
  import opened Text

  /** The members of the mapping structure. */
  datatype Field =
    | AbsX | AbsY | AbsZ | AbsRx | AbsRy | AbsRz
    | ReverseX | ReverseY | ReverseRx | ReverseRy | AbsDeadzone | AbsDpadX
    | AbsDpadY | ReverseDpadX | ReverseDpadY | BtnSouth | BtnEast | BtnNorth
    | BtnWest | BtnSelect | BtnStart | BtnMode | BtnThumbl | BtnThumbr
    | BtnTl | BtnTr | BtnTl2 | BtnTr2 | BtnDpadUp | BtnDpadDown
    | BtnDpadLeft | BtnDpadRight

  datatype Value = Num(n: short) | Flag(on: bool)

  predicate IsFlag(f: Field) {
    f.ReverseX? || f.ReverseY? || f.ReverseRx? || f.ReverseRy? || f.ReverseDpadX? || f.ReverseDpadY?
  }

  /** The mapping structure: a number for every axis and button, a flag for every reversal. */
  type Mapping = m: map<Field, Value> | IsMapping(m)
    witness map f: Field | true :: if IsFlag(f) then Flag(false) else Num(0)

  ghost predicate IsMapping(m: map<Field, Value>) {
    forall f :: f in m && (m[f].Flag? <==> IsFlag(f))
  }

  /** A zeroed mapping. */
  const ZERO_MAPPING: Mapping := map f: Field | true :: if IsFlag(f) then Flag(false) else Num(0)

  function Key(f: Field): string {
    match f
    case AbsX => "abs_x"
    case AbsY => "abs_y"
    case AbsZ => "abs_z"
    case AbsRx => "abs_rx"
    case AbsRy => "abs_ry"
    case AbsRz => "abs_rz"
    case ReverseX => "reverse_x"
    case ReverseY => "reverse_y"
    case ReverseRx => "reverse_rx"
    case ReverseRy => "reverse_ry"
    case AbsDeadzone => "abs_deadzone"
    case AbsDpadX => "abs_dpad_x"
    case AbsDpadY => "abs_dpad_y"
    case ReverseDpadX => "reverse_dpad_x"
    case ReverseDpadY => "reverse_dpad_y"
    case BtnSouth => "btn_south"
    case BtnEast => "btn_east"
    case BtnNorth => "btn_north"
    case BtnWest => "btn_west"
    case BtnSelect => "btn_select"
    case BtnStart => "btn_start"
    case BtnMode => "btn_mode"
    case BtnThumbl => "btn_thumbl"
    case BtnThumbr => "btn_thumbr"
    case BtnTl => "btn_tl"
    case BtnTr => "btn_tr"
    case BtnTl2 => "btn_tl2"
    case BtnTr2 => "btn_tr2"
    case BtnDpadUp => "btn_dpad_up"
    case BtnDpadDown => "btn_dpad_down"
    case BtnDpadLeft => "btn_dpad_left"
    case BtnDpadRight => "btn_dpad_right"
  }

  /** The order in which the loader compares keys. */
  const LOAD_ORDER: seq<Field> := [
    AbsX, AbsY, AbsZ, AbsRx, AbsRy, AbsRz,
    AbsDeadzone, AbsDpadX, AbsDpadY, BtnSouth, BtnNorth, BtnEast,
    BtnWest, BtnSelect, BtnStart, BtnMode, BtnThumbl, BtnThumbr,
    BtnTl, BtnTr, BtnTl2, BtnTr2, BtnDpadUp, BtnDpadDown,
    BtnDpadLeft, BtnDpadRight, ReverseX, ReverseY, ReverseRx, ReverseRy,
    ReverseDpadX, ReverseDpadY]

  /** The order in which the saver writes them. */
  const SAVE_ORDER: seq<Field> := [
    AbsX, AbsY, AbsZ, ReverseX, ReverseY, AbsRx,
    AbsRy, AbsRz, ReverseRx, ReverseRy, AbsDeadzone, AbsDpadX,
    AbsDpadY, ReverseDpadX, ReverseDpadY, BtnNorth, BtnEast, BtnSouth,
    BtnWest, BtnSelect, BtnStart, BtnMode, BtnThumbl, BtnThumbr,
    BtnTl, BtnTr, BtnTl2, BtnTr2, BtnDpadUp, BtnDpadDown,
    BtnDpadLeft, BtnDpadRight]

  function FindKey(key: string, order: seq<Field>): Option<Field> {
    if order == [] then None
    else if key == Key(order[0]) then Some(order[0])
    else FindKey(key, order[1..])
  }

  function FieldOf(key: string): Option<Field> {
    FindKey(key, LOAD_ORDER)
  }

  function Read(f: Field, value: string): Value {
    if IsFlag(f) then Flag(value == "true") else Num(ToShort(Strtol(value)))
  }

  function PrintValue(v: Value): string {
    match v
    case Num(n) => PrintInt(n)
    case Flag(on) => if on then "true" else "false"
  }

  const FORMAT: Format<Field, Value> := Format(FieldOf, Read, Key, PrintValue)

  // ---- loading ----

  /** Loading keeps the structure's kinds: a number stays a number and a flag a flag. */
  lemma LoadedIsMapping(m: Mapping, lines: seq<string>)
    ensures IsMapping(LoadLines(FORMAT, m, lines))
  {
    var step := (t, line) => LoadLine(FORMAT, t, line);
    FoldKeeps(t => IsMapping(t), step, m, lines);
  }

  method Load(text: string, start: Mapping) returns (m: Mapping)
    ensures m == LoadLines(FORMAT, start, Lines(text))
  {
    LoadedIsMapping(start, Lines(text));
    m := LoadFile(FORMAT, start, text);
  }

  /** The file that `Save` writes. */
  ghost function SaveText(m: Mapping): string {
    Join(SaveLines(FORMAT, m, SAVE_ORDER))
  }

  method Save(m: Mapping) returns (text: string)
    ensures text == SaveText(m)
  {
    text := SaveFile(FORMAT, m, SAVE_ORDER);
  }

  // ---- the key table ----

  lemma KeyInjective(f: Field, g: Field)
    ensures Key(f) == Key(g) ==> f == g
  {
  }

  lemma {:induction false} FindsFirst(f: Field, order: seq<Field>)
    ensures FindKey(Key(f), order) == if f in order then Some(f) else None
  {
    if order != [] {
      KeyInjective(f, order[0]);
      FindsFirst(f, order[1..]);
    }
  }

  lemma OrdersAreComplete(f: Field)
    ensures f in LOAD_ORDER && f in SAVE_ORDER
  {
  }

  predicate IsAxis(f: Field) {
    f.AbsX? || f.AbsY? || f.AbsZ? || f.AbsRx? || f.AbsRy? || f.AbsRz? || f.AbsDeadzone? || f.AbsDpadX? || f.AbsDpadY?
  }

  predicate IsPadButton(f: Field) {
    || f.BtnTl? || f.BtnTr? || f.BtnTl2? || f.BtnTr2?
    || f.BtnDpadUp? || f.BtnDpadDown? || f.BtnDpadLeft? || f.BtnDpadRight?
  }

  lemma AxisKeyIsToken(f: Field)
    requires IsAxis(f)
    ensures IsToken(Key(f))
  {
  }

  lemma FlagKeyIsToken(f: Field)
    requires IsFlag(f)
    ensures IsToken(Key(f))
  {
  }

  lemma PadButtonKeyIsToken(f: Field)
    requires IsPadButton(f)
    ensures IsToken(Key(f))
  {
  }

  lemma ButtonKeyIsToken(f: Field)
    requires !IsAxis(f) && !IsFlag(f) && !IsPadButton(f)
    ensures IsToken(Key(f))
  {
  }

  lemma KeyIsToken(f: Field)
    ensures IsToken(Key(f))
  {
    if IsAxis(f) { AxisKeyIsToken(f); }
    else if IsFlag(f) { FlagKeyIsToken(f); }
    else if IsPadButton(f) { PadButtonKeyIsToken(f); }
    else { ButtonKeyIsToken(f); }
  }

  lemma ValuePrints(f: Field, v: Value)
    requires v.Flag? <==> IsFlag(f)
    ensures IsToken(PrintValue(v)) && Read(f, PrintValue(v)) == v
  {
    match v
    case Num(n) =>
      PrintedIsToken(n);
      StrtolOfPrinted(n);
    case Flag(_) =>
  }

  /** Loading what was saved restores all 32 settings, whatever they were before. */
  lemma MappingRoundTrip(m: Mapping, start: Mapping)
    ensures LoadLines(FORMAT, start, Lines(SaveText(m))) == m
  {
    forall f ensures f in SAVE_ORDER { OrdersAreComplete(f); }
    forall f
      ensures IsToken(Key(f)) && IsToken(PrintValue(m[f])) && FieldOf(Key(f)) == Some(f)
      ensures Read(f, PrintValue(m[f])) == m[f]
    {
      KeyIsToken(f);
      ValuePrints(f, m[f]);
      OrdersAreComplete(f);
      FindsFirst(f, LOAD_ORDER);
    }
    assert Prints(FORMAT, m);
    SaveThenLoad(FORMAT, m, start, SAVE_ORDER);
  }

  /** The lines of a mapping file may come in any order, as long as no two are for the same key. */
  lemma PermutedMappingLoadsAlike(m: Mapping, a: seq<string>, b: seq<string>)
    requires multiset(a) == multiset(b) && DistinctKeys(FORMAT, a)
    ensures LoadLines(FORMAT, m, a) == LoadLines(FORMAT, m, b)
  {
    PermutedLinesLoadAlike(FORMAT, m, a, b);
  }
}
