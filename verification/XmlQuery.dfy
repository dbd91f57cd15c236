/**
 The two XML queries of the client: the text of a node, and the list of applications
 (libgamestream/xml.c), as handlers of the parser's events, with the lookup of an application by its
 title (src/main.c).
 */
module XmlQuery {
  import opened Folding

  /** The callbacks of the parser. The parser may hand over character data in any number of pieces. */
  datatype Event = StartElement(name: string) | EndElement(name: string) | CharData(text: string)

  /** A well-formed document, or a part of it: a list of elements and character data. */
  datatype Content =
    | Nothing
    | Chars(text: string, rest: Content)
    | Element(name: string, children: Content, rest: Content)

  function Events(c: Content): seq<Event> {
    match c
    case Nothing => []
    case Chars(text, rest) => [CharData(text)] + Events(rest)
    case Element(name, children, rest) =>
      [StartElement(name)] + Events(children) + [EndElement(name)] + Events(rest)
  }

  /** All character data of a part of a document. */
  function AllText(c: Content): string {
    match c
    case Nothing => ""
    case Chars(text, rest) => text + AllText(rest)
    case Element(_, children, rest) => AllText(children) + AllText(rest)
  }

  // ---- the pieces of character data ----

  /** The events with adjacent pieces of character data joined. */
  function Joined(es: seq<Event>): seq<Event> {
    if es == [] then []
    else
      var front, last := Joined(es[..|es| - 1]), es[|es| - 1];
      if last.CharData? && front != [] && front[|front| - 1].CharData? then
        front[..|front| - 1] + [CharData(front[|front| - 1].text + last.text)]
      else
        front + [last]
  }

  lemma {:induction false} JoinedAppend(a: seq<Event>, b: seq<Event>, more: seq<Event>)
    requires Joined(a) == Joined(b)
    ensures Joined(a + more) == Joined(b + more)
  {
    if more == [] {
      assert a + more == a && b + more == b;
    } else {
      var front := more[..|more| - 1];
      JoinedAppend(a, b, front);
      assert (a + more)[..|a + more| - 1] == a + front && (b + more)[..|b + more| - 1] == b + front;
    }
  }

  /** Two deliveries are the same that differ in where one text is cut in two. */
  lemma CutTextIsJoined(before: seq<Event>, text: string, more: string, after: seq<Event>)
    ensures Joined(before + [CharData(text), CharData(more)] + after)
         == Joined(before + [CharData(text + more)] + after)
  {
    var whole, first := before + [CharData(text + more)], before + [CharData(text)];
    var both := before + [CharData(text), CharData(more)];
    assert both[..|both| - 1] == first;
    assert whole[..|before|] == before && first[..|before|] == before;
    var front := Joined(before);
    if front != [] && front[|front| - 1].CharData? {
      assert front[|front| - 1].text + text + more == front[|front| - 1].text + (text + more);
    }
    JoinedAppend(both, whole, after);
  }

  /** A handler for which two pieces of character data are as good as their concatenation. */
  ghost predicate JoinsText<S(!new)>(step: (S, Event) -> S) {
    forall s, a, b {:trigger step(step(s, CharData(a)), CharData(b))} ::
      step(step(s, CharData(a)), CharData(b)) == step(s, CharData(a + b))
  }

  lemma {:induction false} JoiningKeepsResult<S(!new)>(step: (S, Event) -> S, s: S, es: seq<Event>)
    requires JoinsText(step)
    ensures Fold(step, s, Joined(es)) == Fold(step, s, es)
  {
    if es != [] {
      var front, last := Joined(es[..|es| - 1]), es[|es| - 1];
      JoiningKeepsResult(step, s, es[..|es| - 1]);
      FoldExtend(step, s, front, last);
      if last.CharData? && front != [] && front[|front| - 1].CharData? {
        var before, piece := front[..|front| - 1], front[|front| - 1].text;
        assert front == before + [CharData(piece)];
        FoldExtend(step, s, before, CharData(piece));
        FoldExtend(step, s, before, CharData(piece + last.text));
        assert step(step(Fold(step, s, before), CharData(piece)), CharData(last.text))
            == step(Fold(step, s, before), CharData(piece + last.text));
      }
    }
  }

  /** Two deliveries of the same document give the same result. */
  lemma ChunkingDoesNotMatter<S(!new)>(step: (S, Event) -> S, s: S, a: seq<Event>, b: seq<Event>)
    requires JoinsText(step) && Joined(a) == Joined(b)
    ensures Fold(step, s, a) == Fold(step, s, b)
  {
    JoiningKeepsResult(step, s, a);
    JoiningKeepsResult(step, s, b);
  }

  // ---- the text of a node ----

  datatype Search = Search(memory: string, depth: int)

  function SearchStep(node: string): (Search, Event) -> Search {
    (q: Search, e: Event) =>
      match e
      case StartElement(name) => if name == node then q.(depth := q.depth + 1) else q
      case EndElement(name) => if name == node then q.(depth := q.depth - 1) else q
      case CharData(text) => if q.depth > 0 then q.(memory := q.memory + text) else q
  }

  /** The callbacks as they update the query. */
  class TextQuery {
    var memory: string
    var start: int
    const node: string

    constructor (node: string)
      ensures memory == "" && start == 0 && this.node == node
    {
      memory, start, this.node := "", 0, node;
    }

    method OnStartElement(name: string)
      modifies this
      ensures Search(memory, start) == SearchStep(node)(Search(old(memory), old(start)), StartElement(name))
    {
      if name == node {
        start := start + 1;
      }
    }

    method OnEndElement(name: string)
      modifies this
      ensures Search(memory, start) == SearchStep(node)(Search(old(memory), old(start)), EndElement(name))
    {
      if name == node {
        start := start - 1;
      }
    }

    method OnCharData(text: string)
      modifies this
      ensures Search(memory, start) == SearchStep(node)(Search(old(memory), old(start)), CharData(text))
    {
      if start > 0 {
        memory := memory + text;
      }
    }
  }

  method XmlSearch(events: seq<Event>, node: string) returns (result: string)
    ensures result == Fold(SearchStep(node), Search("", 0), events).memory
  {
    var q := new TextQuery(node);
    for i := 0 to |events|
      invariant q.node == node
      invariant Search(q.memory, q.start) == Fold(SearchStep(node), Search("", 0), events[..i])
    {
      assert events[..i + 1][..i] == events[..i];
      match events[i]
      case StartElement(name) => q.OnStartElement(name);
      case EndElement(name) => q.OnEndElement(name);
      case CharData(text) => q.OnCharData(text);
    }
    assert events[..|events|] == events;
    result := q.memory;
  }

  /** The character data inside elements of the given name, at any depth. */
  function TextInside(node: string, c: Content): string {
    match c
    case Nothing => ""
    case Chars(_, rest) => TextInside(node, rest)
    case Element(name, children, rest) =>
      (if name == node then AllText(children) else TextInside(node, children)) + TextInside(node, rest)
  }

  function Take(q: Search, text: string): Search {
    q.(memory := q.memory + text)
  }

  lemma TakeTwice(q: Search, a: string, b: string)
    ensures Take(Take(q, a), b) == Take(q, a + b)
  {
    assert q.memory + a + b == q.memory + (a + b);
  }

  /** Inside the node, all text is taken. */
  lemma {:induction false} SearchInside(node: string, c: Content, q: Search)
    requires q.depth > 0
    ensures Fold(SearchStep(node), q, Events(c)) == Take(q, AllText(c))
    decreases c
  {
    var step := SearchStep(node);
    match c
    case Nothing =>
      assert q.memory + "" == q.memory;
    case Chars(text, rest) =>
      FoldChars(step, q, c);
      SearchInside(node, rest, Take(q, text));
      TakeTwice(q, text, AllText(rest));
    case Element(name, children, rest) =>
      FoldElement(step, q, c);
      SearchInside(node, children, step(q, StartElement(name)));
      SearchInside(node, rest, Take(q, AllText(children)));
      TakeTwice(q, AllText(children), AllText(rest));
  }

  /** The search yields exactly the text inside the node. */
  lemma {:induction false} SearchFindsTextInside(node: string, c: Content, q: Search)
    requires q.depth == 0
    ensures Fold(SearchStep(node), q, Events(c)) == Take(q, TextInside(node, c))
    decreases c
  {
    var step := SearchStep(node);
    match c
    case Nothing =>
      assert q.memory + "" == q.memory;
    case Chars(text, rest) =>
      FoldChars(step, q, c);
      SearchFindsTextInside(node, rest, q);
    case Element(name, children, rest) =>
      FoldElement(step, q, c);
      var inside := if name == node then AllText(children) else TextInside(node, children);
      if name == node {
        SearchInside(node, children, q.(depth := 1));
      } else {
        SearchFindsTextInside(node, children, q);
      }
      SearchFindsTextInside(node, rest, Take(q, inside));
      TakeTwice(q, inside, TextInside(node, rest));
  }

  lemma FoldChars<S>(step: (S, Event) -> S, s: S, c: Content)
    requires c.Chars?
    ensures Fold(step, s, Events(c)) == Fold(step, step(s, CharData(c.text)), Events(c.rest))
  {
    FoldAppend(step, s, [CharData(c.text)], Events(c.rest));
    assert Fold(step, s, [CharData(c.text)]) == step(s, CharData(c.text));
  }

  /** Folding over an element: its start, its children, its end, and what follows it. */
  lemma FoldElement<S>(step: (S, Event) -> S, s: S, c: Content)
    requires c.Element?
    ensures Fold(step, s, Events(c))
         == var inside := Fold(step, step(s, StartElement(c.name)), Events(c.children));
            Fold(step, step(inside, EndElement(c.name)), Events(c.rest))
  {
    var a, b, d := [StartElement(c.name)], Events(c.children), [EndElement(c.name)];
    FoldAppend(step, s, a + b + d, Events(c.rest));
    FoldAppend(step, s, a + b, d);
    FoldAppend(step, s, a, b);
    assert Fold(step, s, a) == step(s, StartElement(c.name));
    var t := Fold(step, s, a + b);
    assert Fold(step, t, d) == step(t, EndElement(c.name));
  }

  lemma SearchJoinsText(node: string)
    ensures JoinsText(SearchStep(node))
  {
    forall q, a, b
      ensures SearchStep(node)(SearchStep(node)(q, CharData(a)), CharData(b)) == SearchStep(node)(q, CharData(a + b))
    {
      assert (q.memory + a) + b == q.memory + (a + b);
    }
  }

  /** However the parser cuts up a document, the search finds the text inside the node. */
  lemma SearchOfDocument(node: string, doc: Content, delivery: seq<Event>)
    requires Joined(delivery) == Joined(Events(doc))
    ensures Fold(SearchStep(node), Search("", 0), delivery).memory == TextInside(node, doc)
  {
    SearchJoinsText(node);
    ChunkingDoesNotMatter(SearchStep(node), Search("", 0), delivery, Events(doc));
    SearchFindsTextInside(node, doc, Search("", 0));
    assert "" + TextInside(node, doc) == TextInside(node, doc);
  }
}
