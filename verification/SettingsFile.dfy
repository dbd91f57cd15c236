/**
 Files of `key = value` lines that are loaded into a structure, one field per key. The module is
 generic in the fields, their keys and their values.
 */
module SettingsFile {
  import opened Folding
  import opened Options
  import opened Text

  /** How a format names its fields and reads and prints their values. */
  datatype Format<!F(==), !V> = Format(
    fieldOf: string -> Option<F>, read: (F, string) -> V, key: F -> string, print_: V -> string)

  /** What one line of the file does to the structure. */
  function LoadLine<F(==), V>(format: Format<F, V>, m: map<F, V>, line: string): map<F, V> {
    match ScanTokens(line)
    case None => m
    case Some((key, value)) =>
      match format.fieldOf(key)
      case None => m
      case Some(f) => m[f := format.read(f, value)]
  }

  function LoadLines<F(==), V>(format: Format<F, V>, m: map<F, V>, lines: seq<string>): map<F, V> {
    Fold((t, line) => LoadLine(format, t, line), m, lines)
  }

  function SavedLine<F(==), V>(format: Format<F, V>, m: map<F, V>, f: F): string
    requires f in m
  {
    SettingLine(format.key(f), format.print_(m[f]))
  }

  function SaveLines<F(==), V>(format: Format<F, V>, m: map<F, V>, order: seq<F>): seq<string>
    requires forall f :: f in order ==> f in m
  {
    seq(|order|, i requires 0 <= i < |order| => SavedLine(format, m, order[i]))
  }

  lemma SaveLinesExtend<F, V>(format: Format<F, V>, m: map<F, V>, order: seq<F>, f: F)
    requires forall g :: g in order ==> g in m
    requires f in m
    ensures Join(SaveLines(format, m, order + [f])) == Join(SaveLines(format, m, order)) + SavedLine(format, m, f)
  {
    var before := SaveLines(format, m, order);
    assert SaveLines(format, m, order + [f]) == before + [SavedLine(format, m, f)];
    JoinAppend(before, [SavedLine(format, m, f)]);
    assert Join([SavedLine(format, m, f)]) == SavedLine(format, m, f);
  }

  /** The loader's loop over the lines of the file. */
  method LoadFile<F(==), V>(format: Format<F, V>, start: map<F, V>, text: string) returns (m: map<F, V>)
    ensures m == LoadLines(format, start, Lines(text))
  {
    m := start;
    var lines := Lines(text);
    for i := 0 to |lines|
      invariant m == LoadLines(format, start, lines[..i])
    {
      assert lines[..i + 1][..i] == lines[..i];
      var scanned := ScanTokens(lines[i]);
      if scanned.Some? {
        var (key, value) := scanned.value;
        var field := format.fieldOf(key);
        if field.Some? {
          m := m[field.value := format.read(field.value, value)];
        }
      }
    }
    assert lines[..|lines|] == lines;
  }

  /** The saver's writes, one for each entry of `order`. */
  method SaveFile<F(==), V>(format: Format<F, V>, m: map<F, V>, order: seq<F>) returns (text: string)
    requires forall f :: f in order ==> f in m
    ensures text == Join(SaveLines(format, m, order))
  {
    text := "";
    for i := 0 to |order|
      invariant text == Join(SaveLines(format, m, order[..i]))
    {
      text := text + SettingLine(format.key(order[i]), format.print_(m[order[i]]));
      SaveLinesExtend(format, m, order[..i], order[i]);
      assert order[..i + 1] == order[..i] + [order[i]];
    }
    assert order[..|order|] == order;
  }

  // ---- loading is a matter of the last line for each key ----

  /** The value a line gives to a field, if it gives it one. */
  function Gives<F(==), V>(format: Format<F, V>, line: string, f: F): Option<V> {
    match ScanTokens(line)
    case None => None
    case Some((key, value)) => if format.fieldOf(key) == Some(f) then Some(format.read(f, value)) else None
  }

  /** After loading, a field holds what the last line for its key says, and its old value when there is no such line. */
  lemma LastLineDecides<F(!new), V(!new)>(format: Format<F, V>, m: map<F, V>, lines: seq<string>, f: F)
    requires f in m
    ensures f in LoadLines(format, m, lines)
    ensures LoadLines(format, m, lines)[f] == LastWrite(line => Gives(format, line, f), m[f], lines)
  {
    var step := (t, line) => LoadLine(format, t, line);
    FoldKeeps(t => f in t, step, m, lines);
    LastWriteDecides(
      t => f in t, step, t => if f in t then t[f] else m[f], line => Gives(format, line, f), m, lines);
  }

  lemma LoadKeepsFields<F(!new), V(!new)>(format: Format<F, V>, m: map<F, V>, lines: seq<string>)
    requires forall f :: f in m
    ensures forall f :: f in LoadLines(format, m, lines)
  {
    forall f ensures f in LoadLines(format, m, lines) {
      LastLineDecides(format, m, lines, f);
    }
  }

  function ForField<F(==), V>(format: Format<F, V>, f: F): string -> bool {
    line => Gives(format, line, f).Some?
  }

  /** The lines of a file that bear on a field. */
  function LinesFor<F(==), V>(format: Format<F, V>, lines: seq<string>, f: F): seq<string> {
    Filter(ForField(format, f), lines)
  }

  /** Two files that agree, key by key, on the lines for that key load alike. */
  lemma SameLinesPerKeySameResult<F(!new), V(!new)>(
    format: Format<F, V>, m: map<F, V>, a: seq<string>, b: seq<string>)
    requires forall f :: f in m
    requires forall f :: LinesFor(format, a, f) == LinesFor(format, b, f)
    ensures LoadLines(format, m, a) == LoadLines(format, m, b)
  {
    LoadKeepsFields(format, m, a);
    LoadKeepsFields(format, m, b);
    forall f: F ensures LoadLines(format, m, a)[f] == LoadLines(format, m, b)[f] {
      LastLineDecides(format, m, a, f);
      LastLineDecides(format, m, b, f);
      LastWriteOfFilter(line => Gives(format, line, f), ForField(format, f), m[f], a);
      LastWriteOfFilter(line => Gives(format, line, f), ForField(format, f), m[f], b);
      assert LinesFor(format, a, f) == LinesFor(format, b, f);
    }
  }

  /** No two lines of the file are for the same field. */
  ghost predicate DistinctKeys<F(!new), V>(format: Format<F, V>, lines: seq<string>) {
    forall f :: |LinesFor(format, lines, f)| <= 1
  }

  /** The order of lines with distinct keys does not matter. */
  lemma PermutedLinesLoadAlike<F(!new), V(!new)>(
    format: Format<F, V>, m: map<F, V>, a: seq<string>, b: seq<string>)
    requires forall f :: f in m
    requires multiset(a) == multiset(b) && DistinctKeys(format, a)
    ensures LoadLines(format, m, a) == LoadLines(format, m, b)
  {
    forall f ensures LinesFor(format, a, f) == LinesFor(format, b, f) {
      assert |LinesFor(format, a, f)| <= 1;
      FilterOfPermutation(ForField(format, f), a, b);
    }
    SameLinesPerKeySameResult(format, m, a, b);
  }

  // ---- round trip ----

  /** Keys and values fit on a line, keys lead back to their fields, and values of `m` survive printing. */
  ghost predicate Prints<F(!new), V(!new)>(format: Format<F, V>, m: map<F, V>) {
    forall f :: f in m ==>
      && IsToken(format.key(f)) && IsToken(format.print_(m[f]))
      && format.fieldOf(format.key(f)) == Some(f)
      && format.read(f, format.print_(m[f])) == m[f]
  }

  lemma SavedLineGives<F(!new), V(!new)>(format: Format<F, V>, m: map<F, V>, f: F, g: F)
    requires Prints(format, m) && f in m
    ensures IsLine(SavedLine(format, m, f))
    ensures Gives(format, SavedLine(format, m, f), g) == if f == g then Some(m[f]) else None
  {
    var value := format.print_(m[f]);
    forall i | 0 <= i < |value| ensures value[i] != '\n' {
      assert !IsSpace(value[i]);
    }
    ScanTokensOfSetting(format.key(f), value);
    SettingIsLine(format.key(f), value);
  }

  /** Loading a file that has a line for every field restores them all, whatever they were before. */
  lemma SaveThenLoad<F(!new), V(!new)>(format: Format<F, V>, m: map<F, V>, start: map<F, V>, order: seq<F>)
    requires forall f :: f in m && f in start && f in order
    requires Prints(format, m)
    ensures LoadLines(format, start, Lines(Join(SaveLines(format, m, order)))) == m
  {
    var lines := SaveLines(format, m, order);
    forall line | line in lines ensures IsLine(line) {
      var i :| 0 <= i < |lines| && lines[i] == line;
      SavedLineGives(format, m, order[i], order[i]);
    }
    LinesOfJoin(lines);
    LoadKeepsFields(format, start, lines);
    forall f: F ensures LoadLines(format, start, lines)[f] == m[f] {
      SavedFieldLoads(format, m, start, order, f);
    }
  }

  lemma SavedFieldLoads<F(!new), V(!new)>(
    format: Format<F, V>, m: map<F, V>, start: map<F, V>, order: seq<F>, f: F)
    requires forall g :: g in m && g in start && g in order
    requires Prints(format, m)
    ensures f in LoadLines(format, start, SaveLines(format, m, order))
    ensures LoadLines(format, start, SaveLines(format, m, order))[f] == m[f]
  {
    var lines := SaveLines(format, m, order);
    assert f in order;
    var k :| 0 <= k < |order| && order[k] == f;
    forall j | 0 <= j < |lines| ensures Gives(format, lines[j], f) == if order[j] == f then Some(m[f]) else None {
      SavedLineGives(format, m, order[j], f);
    }
    assert Gives(format, lines[k], f).Some?;
    LastWriteAgreed(line => Gives(format, line, f), start[f], lines, m[f]);
    LastLineDecides(format, start, lines, f);
  }
}
