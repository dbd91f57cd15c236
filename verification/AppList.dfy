/**
 The list of applications that `xml_applist` builds from the parser's events (libgamestream/xml.c), and
 the lookup of an application by its title (src/main.c).
 */
module AppList {
  import opened CTypes
  import opened Folding
  import opened Options
  import opened Text
  import opened XmlQuery

  /** The query's text buffer: `None` is allocated memory that nothing has been written to. */
  type Memory = Option<string>

  datatype Name = Null | Unset | Title(text: string)

  /** An entry of the list; an id is `None` when it was read from unwritten memory. */
  datatype App = App(id: Option<int>, name: Name)

  /** The query: its buffer, whether it is collecting text, and the list, newest entry first. */
  datatype Query = Query(memory: Memory, collecting: bool, apps: seq<App>)

  const EMPTY := Query(Some(""), false, [])

  function Number(memory: Memory): Option<int> {
    match memory case None => None case Some(text) => Some(Atoi(text))
  }

  function NameOf(memory: Memory): Name {
    match memory case None => Unset case Some(text) => Title(text)
  }

  function Written(memory: Memory, text: string): Memory {
    match memory case None => Some(text) case Some(before) => Some(before + text)
  }

  function Step(q: Query, e: Event): Query {
    match e
    case StartElement(name) =>
      if name == "App" then q.(apps := [App(Some(0), Null)] + q.apps)
      else if name == "ID" || name == "AppTitle" then q.(memory := None, collecting := true)
      else q
    case EndElement(name) =>
      if !q.collecting || q.apps == [] then q
      else
        var head := q.apps[0];
        if name == "ID" then
          Query(None, false, [head.(id := Number(q.memory))] + q.apps[1..])
        else if name == "AppTitle" then
          Query(q.memory, false, [head.(name := NameOf(q.memory))] + q.apps[1..])
        else q.(collecting := false)
    case CharData(text) => if q.collecting then q.(memory := Written(q.memory, text)) else q
  }

  /** The callbacks as they update the query. */
  class ListQuery {
    var memory: Memory
    var start: bool
    var data: seq<App>

    function Now(): Query
      reads this
    {
      Query(memory, start, data)
    }

    constructor ()
      ensures Now() == EMPTY
    {
      memory, start, data := Some(""), false, [];
    }

    method OnStartElement(name: string)
      modifies this
      ensures Now() == Step(old(Now()), StartElement(name))
    {
      if name == "App" {
        data := [App(Some(0), Null)] + data;
      } else if name == "ID" || name == "AppTitle" {
        memory := None;
        start := true;
      }
    }

    method OnEndElement(name: string)
      modifies this
      ensures Now() == Step(old(Now()), EndElement(name))
    {
      if start {
        if data == [] {
          return;
        }
        if name == "ID" {
          data := [data[0].(id := Number(memory))] + data[1..];
          memory := None;
        } else if name == "AppTitle" {
          data := [data[0].(name := NameOf(memory))] + data[1..];
        }
        start := false;
      }
    }

    method OnCharData(text: string)
      modifies this
      ensures Now() == Step(old(Now()), CharData(text))
    {
      if start {
        memory := Written(memory, text);
      }
    }
  }

  method XmlApplist(events: seq<Event>) returns (list: seq<App>)
    ensures list == Fold(Step, EMPTY, events).apps
  {
    var q := new ListQuery();
    for i := 0 to |events|
      invariant q.Now() == Fold(Step, EMPTY, events[..i])
    {
      assert events[..i + 1][..i] == events[..i];
      match events[i]
      case StartElement(name) => q.OnStartElement(name);
      case EndElement(name) => q.OnEndElement(name);
      case CharData(text) => q.OnCharData(text);
    }
    assert events[..|events|] == events;
    list := q.data;
  }

  /** The list, too, does not depend on the pieces in which character data arrives. */
  lemma AppListJoinsText()
    ensures JoinsText(Step)
  {
    forall q, a, b ensures Step(Step(q, CharData(a)), CharData(b)) == Step(q, CharData(a + b)) {
      match q.memory
      case None =>
      case Some(m) => assert (m + a) + b == m + (a + b);
    }
  }

  // ---- the list of a document ----

  predicate IsField(name: string) {
    name == "ID" || name == "AppTitle"
  }

  predicate TextOnly(c: Content) {
    match c
    case Nothing => true
    case Chars(_, rest) => TextOnly(rest)
    case Element(_, _, _) => false
  }

  /** What is in memory at the end of an element that is plain text: without any, nothing was written. */
  function Collected(c: Content): Memory {
    if c == Nothing then None else Some(AllText(c))
  }

  /** A record as the text of one field fills it in. */
  function WithField(app: App, name: string, memory: Memory): App {
    if name == "ID" then app.(id := Number(memory))
    else if name == "AppTitle" then app.(name := NameOf(memory))
    else app
  }

  /** The list after the end of an element. */
  function Refilled(apps: seq<App>, name: string, children: Content): seq<App> {
    if TextOnly(children) && apps != [] then [WithField(apps[0], name, Collected(children))] + apps[1..] else apps
  }

  lemma OthersRefillNothing(apps: seq<App>, name: string, children: Content)
    requires !IsField(name)
    ensures Refilled(apps, name, children) == apps
  {
  }

  /**
   What a document adds to a list, newest entry first. A record is opened where an application begins. An
   id or title that is plain text fills in the record opened last, if there is one, wherever it stands;
   one with other elements inside it does not, but those may.
   */
  function Listed(apps: seq<App>, c: Content): seq<App>
    decreases c
  {
    match c
    case Nothing => apps
    case Chars(_, rest) => Listed(apps, rest)
    case Element(name, children, rest) =>
      var inside := Listed(if name == "App" then [App(Some(0), Null)] + apps else apps, children);
      Listed(Refilled(inside, name, children), rest)
  }

  lemma {:induction false} TextIsCollected(c: Content, q: Query)
    requires TextOnly(c)
    ensures Fold(Step, q, Events(c))
         == if c == Nothing || !q.collecting then q else q.(memory := Written(q.memory, AllText(c)))
    ensures Listed(q.apps, c) == q.apps
    decreases c
  {
    match c
    case Nothing =>
    case Chars(text, rest) =>
      FoldChars(Step, q, c);
      var taken := Step(q, CharData(text));
      TextIsCollected(rest, taken);
      assert text + "" == text;
      if q.memory.Some? {
        assert q.memory.value + text + AllText(rest) == q.memory.value + (text + AllText(rest));
        assert AllText(c) == text + AllText(rest);
      }
  }

  /**
   The query builds the list of the document, whatever document, and whatever it was doing when the
   document began. Once an element has ended it collects no more, unless there is no record yet.
   */
  lemma {:induction false} QueryLists(c: Content, q: Query)
    ensures var r := Fold(Step, q, Events(c));
      && r.apps == Listed(q.apps, c)
      && (!TextOnly(c) && r.collecting ==> r.apps == [])
    decreases c, 1
  {
    match c
    case Nothing =>
    case Chars(_, rest) =>
      FoldChars(Step, q, c);
      QueryLists(rest, Step(q, CharData(c.text)));
    case Element(name, children, rest) =>
      FoldElement(Step, q, c);
      var closed := Step(Fold(Step, Step(q, StartElement(name)), Events(children)), EndElement(name));
      ElementLists(c, q);
      QueryLists(rest, closed);
      if TextOnly(rest) { TextIsCollected(rest, closed); }
  }

  /** What an element makes of the list, from its start to its end. */
  lemma {:induction false} ElementLists(c: Content, q: Query)
    requires c.Element?
    ensures var inside := Listed(if c.name == "App" then [App(Some(0), Null)] + q.apps else q.apps, c.children);
      var closed := Step(Fold(Step, Step(q, StartElement(c.name)), Events(c.children)), EndElement(c.name));
      && (closed.collecting ==> closed.apps == [])
      && closed.apps == Refilled(inside, c.name, c.children)
    decreases c, 0
  {
    var start := Step(q, StartElement(c.name));
    QueryLists(c.children, start);
    if TextOnly(c.children) {
      TextIsCollected(c.children, start);
    }
    ElementEnds(c.name, c.children, start, Fold(Step, start, Events(c.children)));
  }

  /** What the end of an element does, with the query as its start and its children leave it. */
  lemma ElementEnds(name: string, children: Content, start: Query, inside: Query)
    requires IsField(name) ==> start.collecting && start.memory == None
    requires TextOnly(children) ==>
      inside == if children == Nothing || !start.collecting then start
                else start.(memory := Written(start.memory, AllText(children)))
    requires !TextOnly(children) && inside.collecting ==> inside.apps == []
    ensures var closed := Step(inside, EndElement(name));
      (closed.collecting ==> closed.apps == []) && closed.apps == Refilled(inside.apps, name, children)
  {
    if !IsField(name) { OthersRefillNothing(inside.apps, name, children); }
  }

  // ---- the records of a document ----

  /** No element of the content, at any depth, is one the list is made of. */
  predicate Plain(c: Content) {
    match c
    case Nothing => true
    case Chars(_, rest) => Plain(rest)
    case Element(name, children, rest) => name != "App" && !IsField(name) && Plain(children) && Plain(rest)
  }

  /** The inside of a record: ids and titles that are plain text, in any order, among other elements. */
  predicate RecordBody(c: Content) {
    match c
    case Nothing => true
    case Chars(_, rest) => RecordBody(rest)
    case Element(name, children, rest) =>
      && RecordBody(rest)
      && if IsField(name) then TextOnly(children) else name != "App" && Plain(children)
  }

  /** A document whose ids and titles all belong to records. */
  predicate Records(c: Content) {
    match c
    case Nothing => true
    case Chars(_, rest) => Records(rest)
    case Element(name, children, rest) =>
      && Records(rest)
      && if name == "App" then RecordBody(children) else !IsField(name) && Records(children)
  }

  /** A record as its id and title elements fill it in; the last of each counts. */
  function Filled(app: App, body: Content): App
    decreases body
  {
    match body
    case Nothing => app
    case Chars(_, rest) => Filled(app, rest)
    case Element(name, children, rest) => Filled(WithField(app, name, Collected(children)), rest)
  }

  /** The records that an element holds: itself, or those inside it. */
  function AppsOfElement(name: string, children: Content): seq<App>
    decreases children, 1
  {
    if name == "App" then [Filled(App(Some(0), Null), children)] else AppsOf(children)
  }

  /** The records of a document, in its order. */
  function AppsOf(c: Content): seq<App>
    decreases c, 0
  {
    match c
    case Nothing => []
    case Chars(_, rest) => AppsOf(rest)
    case Element(name, children, rest) =>
      AppsOfElement(name, children) + AppsOf(rest)
  }

  function Reverse<T>(s: seq<T>): seq<T> {
    if s == [] then [] else [s[|s| - 1]] + Reverse(s[..|s| - 1])
  }

  lemma {:induction false} PlainListsNothing(c: Content, apps: seq<App>)
    requires Plain(c)
    ensures Listed(apps, c) == apps
    decreases c
  {
    match c
    case Nothing =>
    case Chars(_, rest) => PlainListsNothing(rest, apps);
    case Element(name, children, rest) =>
      PlainListsNothing(children, apps);
      OthersRefillNothing(apps, name, children);
      PlainListsNothing(rest, apps);
  }

  /** The fields of a record fill in its entry and no other. */
  lemma {:induction false} BodyFillsHead(c: Content, apps: seq<App>)
    requires RecordBody(c) && apps != []
    ensures Listed(apps, c) == [Filled(apps[0], c)] + apps[1..]
    decreases c
  {
    match c
    case Nothing =>
    case Chars(_, rest) => BodyFillsHead(rest, apps);
    case Element(name, children, rest) =>
      if IsField(name) {
        TextIsCollected(children, Query(None, false, apps));
        BodyFillsHead(rest, Refilled(apps, name, children));
      } else {
        PlainListsNothing(children, apps);
        OthersRefillNothing(apps, name, children);
        BodyFillsHead(rest, apps);
      }
  }

  /** Where ids and titles all belong to records, the list holds the records of the document, last first. */
  lemma {:induction false} ListIsReversed(c: Content, apps: seq<App>)
    requires Records(c)
    ensures Listed(apps, c) == Reverse(AppsOf(c)) + apps
    decreases c, 1
  {
    match c
    case Nothing =>
    case Chars(_, rest) => ListIsReversed(rest, apps);
    case Element(name, children, rest) =>
      var own := AppsOfElement(name, children);
      ElementIsReversed(c, apps);
      ListIsReversed(rest, Reverse(own) + apps);
      ReverseAppend(own, AppsOf(rest), apps);
  }

  lemma {:induction false} ElementIsReversed(c: Content, apps: seq<App>)
    requires c.Element? && Records(c)
    ensures var inside := Listed(if c.name == "App" then [App(Some(0), Null)] + apps else apps, c.children);
      Refilled(inside, c.name, c.children) == Reverse(AppsOfElement(c.name, c.children)) + apps
    decreases c, 0
  {
    if c.name == "App" {
      BodyFillsHead(c.children, [App(Some(0), Null)] + apps);
      ReverseOne(Filled(App(Some(0), Null), c.children));
      OthersRefillNothing(Listed([App(Some(0), Null)] + apps, c.children), c.name, c.children);
    } else {
      ListIsReversed(c.children, apps);
      OthersRefillNothing(Listed(apps, c.children), c.name, c.children);
    }
  }

  lemma ReverseOne<T>(x: T)
    ensures Reverse([x]) == [x]
  {
    assert [x][..0] == [];
  }

  lemma Associate<T>(x: seq<T>, y: seq<T>, z: seq<T>)
    ensures (x + y) + z == x + (y + z)
  {
  }

  lemma {:induction false} ReverseAppend<T>(a: seq<T>, b: seq<T>, tail: seq<T>)
    ensures Reverse(a + b) + tail == Reverse(b) + (Reverse(a) + tail)
  {
    if b == [] {
      assert a + b == a;
    } else {
      var front, last := b[..|b| - 1], b[|b| - 1];
      assert (a + b)[..|a + b| - 1] == a + front;
      ReverseAppend(a, front, tail);
      assert Reverse(a + b) == [last] + Reverse(a + front) && Reverse(b) == [last] + Reverse(front);
      Associate([last], Reverse(a + front), tail);
      Associate([last], Reverse(front), Reverse(a) + tail);
    }
  }

  // ---- looking up an application ----

  /**
   The id of the first entry with the title, or -1; `None` if an entry without a title, or without an id,
   is in the way.
   */
  function AppId(list: seq<App>, name: string): Option<int> {
    if list == [] then Some(-1)
    else
      match list[0].name
      case Title(text) => if text == name then list[0].id else AppId(list[1..], name)
      case _ => None
  }

  method GetAppId(apps: seq<App>, name: string) returns (id: Option<int>)
    ensures id == AppId(apps, name)
  {
    var list := apps;
    while list != []
      invariant AppId(apps, name) == AppId(list, name)
      decreases |list|
    {
      if !list[0].name.Title? {
        return None;
      }
      if list[0].name.text == name {
        return list[0].id;
      }
      list := list[1..];
    }
    id := Some(-1);
  }

  /** The id of the last application of the document with the title. */
  function LastTitled(apps: seq<App>, name: string): Option<int> {
    LastWrite((a: App) => if a.name == Title(name) then Some(a.id) else None, Some(-1), apps)
  }

  /** An entry without a title stands, in the document, after all applications with the title looked for. */
  ghost predicate Untitled(apps: seq<App>, name: string) {
    exists k :: 0 <= k < |apps| && !apps[k].name.Title? && forall j :: k < j < |apps| ==> apps[j].name != Title(name)
  }

  lemma UntitledExtend(front: seq<App>, last: App, name: string)
    ensures Untitled(front + [last], name) <==>
      !last.name.Title? || (last.name != Title(name) && Untitled(front, name))
  {
    var apps := front + [last];
    assert apps[|front|] == last;
    if Untitled(front, name) {
      var k :| 0 <= k < |front| && !front[k].name.Title?
        && forall j :: k < j < |front| ==> front[j].name != Title(name);
      assert apps[k] == front[k];
    }
    if Untitled(apps, name) {
      var k :| 0 <= k < |apps| && !apps[k].name.Title?
        && forall j :: k < j < |apps| ==> apps[j].name != Title(name);
      if k < |front| {
        assert front[k] == apps[k];
        assert forall j :: k < j < |front| ==> front[j] == apps[j];
      }
    }
  }

  lemma {:induction false} LookupInReversed(apps: seq<App>, name: string)
    ensures AppId(Reverse(apps), name) == if Untitled(apps, name) then None else LastTitled(apps, name)
  {
    if apps != [] {
      var front, last := apps[..|apps| - 1], apps[|apps| - 1];
      LookupInReversed(front, name);
      assert Reverse(apps) == [last] + Reverse(front);
      assert apps == front + [last];
      UntitledExtend(front, last, name);
    }
  }

  /** Every id and title has some text. */
  predicate FieldsHaveText(c: Content) {
    match c
    case Nothing => true
    case Chars(_, rest) => FieldsHaveText(rest)
    case Element(name, children, rest) =>
      (IsField(name) ==> children != Nothing) && FieldsHaveText(children) && FieldsHaveText(rest)
  }

  /** The records of any document, in the order in which they are opened. */
  function RecordsOf(doc: Content): seq<App> {
    Reverse(Listed([], doc))
  }

  lemma {:induction false} ReverseReverse<T>(s: seq<T>)
    ensures Reverse(Reverse(s)) == s
  {
    if s != [] {
      var front, last := s[..|s| - 1], s[|s| - 1];
      ReverseReverse(front);
      ReverseAppend([last], Reverse(front), []);
      ReverseOne(last);
      assert Reverse(s) == [last] + Reverse(front);
      assert Reverse([last] + Reverse(front)) + [] == Reverse([last] + Reverse(front));
      assert front + ([last] + []) == s;
    }
  }

  /**
   For every document, however the parser cuts it up, looking up a title in its list gives the id of the
   last application with that title, or -1, except that it is undefined exactly when an application
   without a title comes after all with that title, or the id itself was empty.
   */
  lemma LookupFindsLast(doc: Content, delivery: seq<Event>, name: string)
    requires Joined(delivery) == Joined(Events(doc))
    ensures AppId(Fold(Step, EMPTY, delivery).apps, name)
         == if Untitled(RecordsOf(doc), name) then None else LastTitled(RecordsOf(doc), name)
    ensures FieldsHaveText(doc) ==> LastTitled(RecordsOf(doc), name).Some?
  {
    AppListJoinsText();
    ChunkingDoesNotMatter(Step, EMPTY, delivery, Events(doc));
    QueryLists(doc, EMPTY);
    ReverseReverse(Listed([], doc));
    LookupInReversed(RecordsOf(doc), name);
    if FieldsHaveText(doc) {
      IdsAreRead(doc, []);
      ReverseKeeps(Listed([], doc));
      LastWriteFound((a: App) => if a.name == Title(name) then Some(a.id) else None, Some(-1), RecordsOf(doc));
    }
  }

  /** Where ids and titles all belong to records, those are the records as they are written down. */
  lemma RecordsAreApps(doc: Content)
    requires Records(doc)
    ensures RecordsOf(doc) == AppsOf(doc)
  {
    ListIsReversed(doc, []);
    assert Reverse(AppsOf(doc)) + [] == Reverse(AppsOf(doc));
    ReverseReverse(AppsOf(doc));
  }

  lemma {:induction false} ReverseKeeps<T>(s: seq<T>)
    ensures forall x :: x in Reverse(s) ==> x in s
  {
    if s != [] {
      ReverseKeeps(s[..|s| - 1]);
    }
  }

  lemma {:induction false} IdsAreRead(c: Content, apps: seq<App>)
    requires FieldsHaveText(c) && forall a :: a in apps ==> a.id.Some?
    ensures forall a :: a in Listed(apps, c) ==> a.id.Some?
    decreases c
  {
    match c
    case Nothing =>
    case Chars(_, rest) => IdsAreRead(rest, apps);
    case Element(name, children, rest) =>
      var begun := if name == "App" then [App(Some(0), Null)] + apps else apps;
      IdsAreRead(children, begun);
      var inside := Listed(begun, children);
      IdsAreRead(rest, Refilled(inside, name, children));
  }

  // ---- the texts of a record, and what they come to ----

  /** The texts of the last id and title of a record; none where there is no such element, or no text in it. */
  datatype Entry = Entry(id: Option<string>, title: Option<string>)

  /** The inside of the last of the elements with a name, among those directly inside a record. */
  function LastField(body: Content, field: string): Option<Content> {
    match body
    case Nothing => None
    case Chars(_, rest) => LastField(rest, field)
    case Element(name, children, rest) =>
      var later := LastField(rest, field);
      if later.None? && name == field then Some(children) else later
  }

  function TextOf(field: Option<Content>): Option<string> {
    if field.None? || field == Some(Nothing) then None else Some(AllText(field.value))
  }

  /** The records of a document as they are written down. */
  function Entries(c: Content): seq<Entry> {
    match c
    case Nothing => []
    case Chars(_, rest) => Entries(rest)
    case Element(name, children, rest) =>
      (if name == "App"
       then [Entry(TextOf(LastField(children, "ID")), TextOf(LastField(children, "AppTitle")))]
       else Entries(children))
      + Entries(rest)
  }

  lemma {:induction false} FilledByLastFields(app: App, body: Content)
    ensures Filled(app, body).name
         == match LastField(body, "AppTitle") case None => app.name case Some(c) => NameOf(Collected(c))
    ensures Filled(app, body).id
         == match LastField(body, "ID") case None => app.id case Some(c) => Number(Collected(c))
    decreases body
  {
    match body
    case Nothing =>
    case Chars(_, rest) => FilledByLastFields(app, rest);
    case Element(name, children, rest) => FilledByLastFields(WithField(app, name, Collected(children)), rest);
  }

  /** An application has exactly the title that is written down, and the number that its id text reads as. */
  predicate Means(app: App, e: Entry) {
    && (e.title.Some? ==> app.name == Title(e.title.value))
    && (e.title.None? ==> !app.name.Title?)
    && (e.id.Some? ==> app.id == Some(Atoi(e.id.value)))
  }

  lemma {:induction false} AppsMeanEntries(c: Content)
    ensures |AppsOf(c)| == |Entries(c)|
    ensures forall k :: 0 <= k < |Entries(c)| ==> Means(AppsOf(c)[k], Entries(c)[k])
    decreases c
  {
    match c
    case Nothing =>
    case Chars(_, rest) => AppsMeanEntries(rest);
    case Element(name, children, rest) =>
      AppsMeanEntries(children);
      AppsMeanEntries(rest);
      if name == "App" { FilledByLastFields(App(Some(0), Null), children); }
  }

  lemma {:induction false} LastTitledAt(apps: seq<App>, name: string, k: nat)
    requires k < |apps| && apps[k].name == Title(name)
    requires forall j :: k < j < |apps| ==> apps[j].name.Title? && apps[j].name != Title(name)
    ensures !Untitled(apps, name) && LastTitled(apps, name) == apps[k].id
  {
    var front, last := apps[..|apps| - 1], apps[|apps| - 1];
    assert apps == front + [last];
    UntitledExtend(front, last, name);
    if k < |front| { LastTitledAt(front, name, k); }
  }

  lemma {:induction false} NoneTitled(apps: seq<App>, name: string)
    requires forall j :: 0 <= j < |apps| ==> apps[j].name.Title? && apps[j].name != Title(name)
    ensures !Untitled(apps, name) && LastTitled(apps, name) == Some(-1)
  {
    if apps != [] {
      var front, last := apps[..|apps| - 1], apps[|apps| - 1];
      assert apps == front + [last];
      UntitledExtend(front, last, name);
      NoneTitled(front, name);
    }
  }

  /**
   End to end, for a document whose ids and titles all belong to records, however it is cut up: if the last
   record with a title has the decimal text of a 32-bit number as its id, and those after it have titles,
   looking up the title gives the number.
   */
  lemma LookupGivesNumber(doc: Content, delivery: seq<Event>, name: string, k: nat, n: int32)
    requires Joined(delivery) == Joined(Events(doc)) && Records(doc)
    requires k < |Entries(doc)| && Entries(doc)[k] == Entry(Some(PrintInt(n)), Some(name))
    requires forall j :: k < j < |Entries(doc)| ==> Entries(doc)[j].title.Some? && Entries(doc)[j].title != Some(name)
    ensures AppId(Fold(Step, EMPTY, delivery).apps, name) == Some(n)
  {
    LookupFindsLast(doc, delivery, name);
    RecordsAreApps(doc);
    AppsMeanEntries(doc);
    assert Means(AppsOf(doc)[k], Entries(doc)[k]);
    forall j | k < j < |AppsOf(doc)| ensures AppsOf(doc)[j].name.Title? && AppsOf(doc)[j].name != Title(name) {
      assert Means(AppsOf(doc)[j], Entries(doc)[j]);
    }
    LastTitledAt(AppsOf(doc), name, k);
    AtoiOfPrinted(n);
  }

  /** And if all records have titles, but none has this one, it gives -1. */
  lemma LookupFindsNone(doc: Content, delivery: seq<Event>, name: string)
    requires Joined(delivery) == Joined(Events(doc)) && Records(doc)
    requires forall e :: e in Entries(doc) ==> e.title.Some? && e.title != Some(name)
    ensures AppId(Fold(Step, EMPTY, delivery).apps, name) == Some(-1)
  {
    LookupFindsLast(doc, delivery, name);
    RecordsAreApps(doc);
    AppsMeanEntries(doc);
    forall j | 0 <= j < |AppsOf(doc)| ensures AppsOf(doc)[j].name.Title? && AppsOf(doc)[j].name != Title(name) {
      assert Means(AppsOf(doc)[j], Entries(doc)[j]) && Entries(doc)[j] in Entries(doc);
    }
    NoneTitled(AppsOf(doc), name);
  }

  /** A document of one application, with an id and a title. */
  function OneApp(id: string, title: string): Content {
    Element("App", Element("ID", Chars(id, Nothing), Element("AppTitle", Chars(title, Nothing), Nothing)), Nothing)
  }

  lemma FieldInRecord(name: string, text: string, rest: Content)
    requires IsField(name) && RecordBody(rest) && FieldsHaveText(rest)
    ensures RecordBody(Element(name, Chars(text, Nothing), rest))
    ensures FieldsHaveText(Element(name, Chars(text, Nothing), rest))
  {
    assert TextOnly(Nothing) && FieldsHaveText(Nothing);
  }

  lemma TextOfChars(text: string)
    ensures AllText(Chars(text, Nothing)) == text
  {
    assert AllText(Nothing) == "";
    assert text + "" == text;
  }

  /** It is such a document, among other elements or not. */
  lemma OneAppIsRecord(id: string, title: string, around: string)
    requires around != "App" && !IsField(around)
    ensures Records(OneApp(id, title)) && FieldsHaveText(OneApp(id, title))
    ensures Entries(OneApp(id, title)) == [Entry(Some(id), Some(title))]
    ensures Records(Element(around, OneApp(id, title), Nothing))
    ensures RecordBody(Element(around, Chars(title, Nothing), Nothing))
  {
    var second := Element("AppTitle", Chars(title, Nothing), Nothing);
    var first := Element("ID", Chars(id, Nothing), second);
    FieldInRecord("AppTitle", title, Nothing);
    FieldInRecord("ID", id, second);
    assert LastField(second, "AppTitle") == Some(Chars(title, Nothing)) && LastField(second, "ID").None?;
    assert Records(OneApp(id, title));
    TextOfChars(id);
    TextOfChars(title);
    assert LastField(first, "ID") == Some(Chars(id, Nothing));
    assert LastField(first, "AppTitle") == Some(Chars(title, Nothing));
    assert Entries(Nothing) == [];
    assert Plain(Chars(title, Nothing));
    assert [Entry(Some(id), Some(title))] + [] == [Entry(Some(id), Some(title))];
  }

  /** So its application is found by its title, under its number. */
  lemma OneAppIsFound(title: string, n: int32)
    ensures AppId(Fold(Step, EMPTY, Events(OneApp(PrintInt(n), title))).apps, title) == Some(n)
  {
    OneAppIsRecord(PrintInt(n), title, "Root");
    LookupGivesNumber(OneApp(PrintInt(n), title), Events(OneApp(PrintInt(n), title)), title, 0, n);
  }
}
