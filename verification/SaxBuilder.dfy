/** `xml2obj`: SAX events to nested objects, by a stack. */
module SaxBuilder {
  import opened Results
  import Strings
  import opened Sequences

  /** Character data and child elements, in document order; the parser may deliver one stretch of
      character data in several pieces. */
  datatype Content = Nil | Chars(text: string, rest: Content) | Sub(element: Element, rest: Content)
  datatype Attribute = Attribute(name: string, value: string)
  datatype Element = Element(name: string, attributes: seq<Attribute>, content: Content)

  datatype Event = Start(name: string, attributes: seq<Attribute>) | End(name: string) | Characters(text: string)

  /** A text-only node is a string; any other is a `DataNode`. */
  datatype Value = Text(text: string) | Node(attrs: Attrs, data: Option<string>)

  /** `_attrs`, in insertion order: the value of a name that occurs once, the list of values of one
      that occurs more often. */
  datatype Attrs = Empty | Attr(name: string, slot: Slot, rest: Attrs)
  datatype Slot = One(value: Value) | Many(values: seq<Value>)

  function Mangled(name: string): string {
    seq(|name|, i requires 0 <= i < |name| =>
      var c := name[i];
      if c == '_' || '0' <= c <= '9' || 'a' <= c <= 'z' || 'A' <= c <= 'Z' then c else '_')
  }

  /* ----- _add_xml_attr ----- */

  function Values(slot: Slot): seq<Value> {
    match slot
    case One(v) => [v]
    case Many(vs) => vs
  }

  function Add(attrs: Attrs, name: string, value: Value): Attrs {
    match attrs
    case Empty => Attr(name, One(value), Empty)
    case Attr(n, slot, rest) =>
      if n == name then Attr(n, Many(Values(slot) + [value]), rest) else Attr(n, slot, Add(rest, name, value))
  }

  /** The values recorded for a name, in the order they were added. */
  function ValuesOf(attrs: Attrs, name: string): seq<Value> {
    match attrs
    case Empty => []
    case Attr(n, slot, rest) => if n == name then Values(slot) else ValuesOf(rest, name)
  }

  function Names(attrs: Attrs): seq<string> {
    match attrs
    case Empty => []
    case Attr(n, _, rest) => [n] + Names(rest)
  }

  /** One entry for a name, with a list exactly if there are several values. */
  predicate Proper(attrs: Attrs) {
    match attrs
    case Empty => true
    case Attr(n, slot, rest) => n !in Names(rest) && (slot.Many? ==> |slot.values| >= 2) && Proper(rest)
  }

  lemma {:induction false} AbsentHasNone(attrs: Attrs, name: string)
    ensures name !in Names(attrs) ==> ValuesOf(attrs, name) == []
  {
    if attrs.Attr? {
      AbsentHasNone(attrs.rest, name);
    }
  }

  lemma {:induction false} AddNames(attrs: Attrs, name: string, value: Value)
    ensures Names(Add(attrs, name, value)) == if name in Names(attrs) then Names(attrs) else Names(attrs) + [name]
  {
    if attrs.Attr? && attrs.name != name {
      AddNames(attrs.rest, name, value);
    }
  }

  /** Adding appends to the values of the name and touches no other name. */
  lemma {:induction false} AddAppends(attrs: Attrs, name: string, value: Value, other: string)
    requires Proper(attrs)
    ensures Proper(Add(attrs, name, value))
    ensures ValuesOf(Add(attrs, name, value), other) ==
            ValuesOf(attrs, other) + (if other == name then [value] else [])
  {
    if attrs.Attr? {
      if attrs.name != name {
        AddNames(attrs.rest, name, value);
        AddAppends(attrs.rest, name, value, other);
      } else {
        AbsentHasNone(attrs.rest, name);
      }
    }
  }

  /* ----- the conversion, by recursion on the tree ----- */

  /** All character data directly in an element. */
  function TextOf(content: Content): string {
    match content
    case Nil => ""
    case Chars(text, rest) => text + TextOf(rest)
    case Sub(_, rest) => TextOf(rest)
  }

  function WithAttributes(attrs: Attrs, attributes: seq<Attribute>): Attrs {
    if attributes == [] then attrs else
      var last := attributes[|attributes| - 1];
      Add(WithAttributes(attrs, attributes[..|attributes| - 1]), Mangled(last.name), Text(last.value))
  }

  function WithChildren(attrs: Attrs, content: Content): Attrs
    decreases content
  {
    match content
    case Nil => attrs
    case Chars(_, rest) => WithChildren(attrs, rest)
    case Sub(e, rest) => WithChildren(Add(attrs, Mangled(e.name), Converted(e)), rest)
  }

  /** The object for an element: a string if it has neither attributes nor children. */
  function Converted(e: Element): Value
    decreases e
  {
    Finished(WithChildren(WithAttributes(Empty, e.attributes), e.content), Strings.Strip(TextOf(e.content)))
  }

  function Finished(attrs: Attrs, text: string): Value {
    if attrs.Attr? then Node(attrs, if text == "" then None else Some(text)) else Text(text)
  }

  /* ----- the stack machine ----- */

  function Joined(parts: seq<string>): string {
    if parts == [] then "" else Joined(parts[..|parts| - 1]) + parts[|parts| - 1]
  }

  datatype Frame = Frame(attrs: Attrs, parts: seq<string>)

  /** `stack`, the `_attrs` of `current`, and `text_parts`. */
  datatype Builder = Builder(stack: seq<Frame>, current: Attrs, parts: seq<string>)

  function Handle(b: Builder, e: Event): Result<Builder> {
    match e
    case Start(_, attributes) =>
      Success(Builder(b.stack + [Frame(b.current, b.parts)], WithAttributes(Empty, attributes), []))
    case Characters(text) => Success(b.(parts := b.parts + [text]))
    case End(name) =>
      if b.stack == [] then Failure("IndexError") else
        var top := b.stack[|b.stack| - 1];
        Success(Builder(b.stack[..|b.stack| - 1],
                        Add(top.attrs, Mangled(name), Finished(b.current, Strings.Strip(Joined(b.parts)))), top.parts))
  }

  function Feed(b: Builder, events: seq<Event>): Result<Builder> {
    if events == [] then Success(b) else
      match Feed(b, events[..|events| - 1])
      case Failure(message) => Failure(message)
      case Success(c) => Handle(c, events[|events| - 1])
  }

  /** What the parser reports for an element, one `characters` call for each piece. */
  function EventsOf(e: Element): seq<Event>
    decreases e, 0
  {
    [Start(e.name, e.attributes)] + ContentEvents(e.content) + [End(e.name)]
  }

  function ContentEvents(content: Content): seq<Event>
    decreases content, 1
  {
    match content
    case Nil => []
    case Chars(text, rest) => [Characters(text)] + ContentEvents(rest)
    case Sub(e, rest) => EventsOf(e) + ContentEvents(rest)
  }

  function Pieces(content: Content): seq<string> {
    match content
    case Nil => []
    case Chars(text, rest) => [text] + Pieces(rest)
    case Sub(_, rest) => Pieces(rest)
  }

  lemma FeedOne(b: Builder, e: Event)
    ensures Feed(b, [e]) == Handle(b, e)
  {
    assert [e][..0] == [];
  }

  lemma {:induction false} FeedConcat(b: Builder, x: seq<Event>, y: seq<Event>)
    requires Feed(b, x).Success?
    ensures Feed(b, x + y) == Feed(Feed(b, x).value, y)
  {
    if y == [] {
      assert x + y == x;
    } else {
      assert (x + y)[..|x + y| - 1] == x + y[..|y| - 1];
      FeedConcat(b, x, y[..|y| - 1]);
    }
  }

  lemma {:induction false} JoinedConcat(a: seq<string>, b: seq<string>)
    ensures Joined(a + b) == Joined(a) + Joined(b)
  {
    if b == [] {
      assert a + b == a;
    } else {
      assert (a + b)[..|a + b| - 1] == a + b[..|b| - 1];
      JoinedConcat(a, b[..|b| - 1]);
    }
  }

  lemma {:induction false} PiecesJoin(content: Content)
    ensures Joined(Pieces(content)) == TextOf(content)
  {
    match content
    case Nil =>
    case Sub(_, rest) => PiecesJoin(rest);
    case Chars(text, rest) =>
      PiecesJoin(rest);
      JoinedConcat([text], Pieces(rest));
      assert Joined([text]) == text by {
        assert [text][..0] == [];
      }
  }

  /** The events of a content add its children to the current node and its pieces to the text. */
  lemma {:induction false} ContentFed(b: Builder, content: Content)
    ensures Feed(b, ContentEvents(content)) ==
            Success(Builder(b.stack, WithChildren(b.current, content), b.parts + Pieces(content)))
    decreases content, 1
  {
    match content
    case Nil =>
      assert b.parts + [] == b.parts;
    case Chars(text, rest) =>
      FeedOne(b, Characters(text));
      FeedConcat(b, [Characters(text)], ContentEvents(rest));
      ContentFed(b.(parts := b.parts + [text]), rest);
      Associative(b.parts, [text], Pieces(rest));
    case Sub(e, rest) =>
      ElementFed(b, e);
      FeedConcat(b, EventsOf(e), ContentEvents(rest));
      ContentFed(b.(current := Add(b.current, Mangled(e.name), Converted(e))), rest);
  }

  lemma Popped(stack: seq<Frame>, f: Frame)
    ensures (stack + [f])[..|stack + [f]| - 1] == stack && (stack + [f])[|stack + [f]| - 1] == f
  {
  }

  /** The events of an element leave the stack and the text buffer as they were, and add exactly one
      child: the element's conversion. */
  lemma {:induction false} ElementFed(b: Builder, e: Element)
    ensures Feed(b, EventsOf(e)) == Success(b.(current := Add(b.current, Mangled(e.name), Converted(e))))
    decreases e, 0
  {
    var start := Start(e.name, e.attributes);
    var inner := Builder(b.stack + [Frame(b.current, b.parts)], WithAttributes(Empty, e.attributes), []);
    FeedOne(b, start);
    FeedConcat(b, [start], ContentEvents(e.content));
    ContentFed(inner, e.content);
    FeedConcat(b, [start] + ContentEvents(e.content), [End(e.name)]);
    PiecesJoin(e.content);
    assert [] + Pieces(e.content) == Pieces(e.content);
    Popped(b.stack, Frame(b.current, b.parts));
    FeedOne(Feed(b, [start] + ContentEvents(e.content)).value, End(e.name));
  }

  /** `TreeBuilder`, which updates its fields in place; `raised` for an unmatched end. */
  class TreeBuilder {
    var stack: seq<Frame>
    var current: Attrs
    var textParts: seq<string>

    constructor ()
      ensures Now() == INITIALLY
    {
      stack, current, textParts := [], Empty, [];
    }

    function Now(): Builder
      reads this
    {
      Builder(stack, current, textParts)
    }

    method StartElement(name: string, attributes: seq<Attribute>)
      modifies this
      ensures Success(Now()) == Handle(old(Now()), Start(name, attributes))
    {
      stack := stack + [Frame(current, textParts)];
      current := Empty;
      textParts := [];
      for i := 0 to |attributes|
        invariant current == WithAttributes(Empty, attributes[..i]) && textParts == []
        invariant stack == old(stack) + [Frame(old(current), old(textParts))]
      {
        assert attributes[..i + 1][..i] == attributes[..i];
        current := Add(current, Mangled(attributes[i].name), Text(attributes[i].value));
      }
      assert attributes[..|attributes|] == attributes;
    }

    method Characters(text: string)
      modifies this`textParts
      ensures Success(Now()) == Handle(old(Now()), Event.Characters(text))
    {
      textParts := textParts + [text];
    }

    method EndElement(name: string) returns (raised: bool)
      modifies this
      ensures raised <==> Handle(old(Now()), End(name)).Failure?
      ensures !raised ==> Success(Now()) == Handle(old(Now()), End(name))
    {
      if stack == [] {
        return true;
      }
      var text := Strings.Strip(Joined(textParts));
      var obj := if current.Attr? then Node(current, if text == "" then None else Some(text)) else Text(text);
      var top := stack[|stack| - 1];
      stack := stack[..|stack| - 1];
      current, textParts := top.attrs, top.parts;
      current := Add(current, Mangled(name), obj);
      raised := false;
    }

    /** The parser drives the handler through a document. */
    method Parse(events: seq<Event>) returns (raised: bool)
      modifies this
      ensures raised <==> Feed(old(Now()), events).Failure?
      ensures !raised ==> Feed(old(Now()), events) == Success(Now())
    {
      raised := false;
      for i := 0 to |events|
        invariant Feed(old(Now()), events[..i]) == Success(Now())
      {
        assert events[..i + 1][..i] == events[..i];
        match events[i]
        case Start(name, attributes) => StartElement(name, attributes);
        case Characters(text) => Characters(text);
        case End(name) =>
          raised := EndElement(name);
          if raised {
            FailureStays(old(Now()), events, i + 1);
            return;
          }
      }
      assert events[..|events|] == events;
    }
  }

  lemma {:induction false} FailureStays(b: Builder, events: seq<Event>, n: nat)
    requires n <= |events| && Feed(b, events[..n]).Failure?
    ensures Feed(b, events).Failure?
    decreases |events| - n
  {
    if n < |events| {
      assert events[..n + 1][..n] == events[..n];
      FailureStays(b, events, n + 1);
    } else {
      assert events[..n] == events;
    }
  }

  const INITIALLY := Builder([], Empty, [])

  /** `xml2obj` on a whole document gives the conversion of its root element. */
  lemma DocumentConverted(root: Element)
    ensures Feed(INITIALLY, EventsOf(root)).Success?
    ensures var b := Feed(INITIALLY, EventsOf(root)).value;
            b.stack == [] && b.parts == [] && b.current == Attr(Mangled(root.name), One(Converted(root)), Empty)
  {
    ElementFed(INITIALLY, root);
  }

  /* ----- how character data is split ----- */

  /** The content with adjacent pieces of character data joined and empty ones left out. */
  function Merged(content: Content): Content
    decreases content, 0
  {
    match content
    case Nil => Nil
    case Sub(e, rest) => Sub(MergedElement(e), Merged(rest))
    case Chars(text, rest) =>
      var r := Merged(rest);
      if text == "" then r else if r.Chars? then Chars(text + r.text, r.rest) else Chars(text, r)
  }

  function MergedElement(e: Element): Element
    decreases e, 1
  {
    e.(content := Merged(e.content))
  }

  lemma {:induction false} MergedText(content: Content)
    ensures TextOf(Merged(content)) == TextOf(content)
  {
    match content
    case Nil =>
    case Sub(_, rest) => MergedText(rest);
    case Chars(text, rest) =>
      MergedText(rest);
      var r := Merged(rest);
      if r.Chars? {
        Associative(text, r.text, TextOf(r.rest));
      }
  }

  lemma {:induction false} MergedChildren(attrs: Attrs, content: Content)
    ensures WithChildren(attrs, Merged(content)) == WithChildren(attrs, content)
    decreases content, 0
  {
    match content
    case Nil =>
    case Chars(text, rest) => MergedChildren(attrs, rest);
    case Sub(e, rest) =>
      MergedConverted(e);
      MergedChildren(Add(attrs, Mangled(e.name), Converted(e)), rest);
  }

  lemma {:induction false} MergedConverted(e: Element)
    ensures Converted(MergedElement(e)) == Converted(e)
    decreases e, 1
  {
    MergedText(e.content);
    MergedChildren(WithAttributes(Empty, e.attributes), e.content);
  }

  /** Documents that differ only in how their character data is cut into `characters` calls give the
      same object. */
  lemma SplittingDoesNotMatter(d: Element, e: Element)
    requires MergedElement(d) == MergedElement(e)
    ensures Feed(INITIALLY, EventsOf(d)) == Feed(INITIALLY, EventsOf(e))
  {
    MergedConverted(d);
    MergedConverted(e);
    ElementFed(INITIALLY, d);
    ElementFed(INITIALLY, e);
  }

  /* ----- the values of a node ----- */

  /** The conversions of the child elements whose mangled name is the given one, in order. */
  function ChildrenNamed(content: Content, name: string): seq<Value> {
    match content
    case Nil => []
    case Chars(_, rest) => ChildrenNamed(rest, name)
    case Sub(e, rest) => (if Mangled(e.name) == name then [Converted(e)] else []) + ChildrenNamed(rest, name)
  }

  function AttributesNamed(attributes: seq<Attribute>, name: string): seq<Value> {
    if attributes == [] then [] else
      var last := attributes[|attributes| - 1];
      AttributesNamed(attributes[..|attributes| - 1], name) + (if Mangled(last.name) == name then [Text(last.value)] else [])
  }

  lemma {:induction false} AttributesRecorded(attributes: seq<Attribute>, name: string)
    ensures Proper(WithAttributes(Empty, attributes))
    ensures ValuesOf(WithAttributes(Empty, attributes), name) == AttributesNamed(attributes, name)
  {
    if attributes != [] {
      var last := attributes[|attributes| - 1];
      AttributesRecorded(attributes[..|attributes| - 1], name);
      AddAppends(WithAttributes(Empty, attributes[..|attributes| - 1]), Mangled(last.name), Text(last.value), name);
    }
  }

  lemma {:induction false} ChildrenRecorded(attrs: Attrs, content: Content, name: string)
    requires Proper(attrs)
    ensures Proper(WithChildren(attrs, content))
    ensures ValuesOf(WithChildren(attrs, content), name) == ValuesOf(attrs, name) + ChildrenNamed(content, name)
    decreases content
  {
    match content
    case Nil =>
    case Chars(_, rest) => ChildrenRecorded(attrs, rest, name);
    case Sub(e, rest) =>
      AddAppends(attrs, Mangled(e.name), Converted(e), name);
      ChildrenRecorded(Add(attrs, Mangled(e.name), Converted(e)), rest, name);
      Associative(ValuesOf(attrs, name), if Mangled(e.name) == name then [Converted(e)] else [], ChildrenNamed(rest, name));
  }

  /** A node holds, under each name, its attributes of that name and then its children, in order. */
  lemma NodeHoldsAll(e: Element, name: string)
    requires Converted(e).Node?
    ensures Proper(Converted(e).attrs)
    ensures ValuesOf(Converted(e).attrs, name) == AttributesNamed(e.attributes, name) + ChildrenNamed(e.content, name)
  {
    AttributesRecorded(e.attributes, name);
    ChildrenRecorded(WithAttributes(Empty, e.attributes), e.content, name);
  }

  /* ----- names and texts ----- */

  /** A letter, digit or underscore stays; every other character of a name becomes an underscore. */
  lemma MangledIs(name: string)
    ensures |Mangled(name)| == |name|
    ensures forall i :: 0 <= i < |name| ==>
              Mangled(name)[i] == if 0x30 <= name[i] as int <= 0x39 || 0x41 <= name[i] as int <= 0x5A
                                     || 0x61 <= name[i] as int <= 0x7A then name[i] else '_'
  {
  }

  predicate HasChild(content: Content) {
    match content
    case Nil => false
    case Chars(_, rest) => HasChild(rest)
    case Sub(_, _) => true
  }

  lemma {:induction false} AddNotEmpty(attrs: Attrs, content: Content)
    ensures WithChildren(attrs, content).Attr? <==> attrs.Attr? || HasChild(content)
    decreases content
  {
    match content
    case Nil =>
    case Chars(_, rest) => AddNotEmpty(attrs, rest);
    case Sub(e, rest) => AddNotEmpty(Add(attrs, Mangled(e.name), Converted(e)), rest);
  }

  lemma AttributesNotEmpty(attributes: seq<Attribute>)
    ensures WithAttributes(Empty, attributes).Attr? <==> attributes != []
  {
  }

  /** An element without attributes and children is its text, trimmed; any other is a node, whose data
      is that text unless nothing is left of it. */
  lemma ConvertedIs(e: Element) returns (text: string)
    ensures Strings.IsTrimmed(TextOf(e.content), text)
    ensures Converted(e) == Text(text) <==> e.attributes == [] && !HasChild(e.content)
    ensures e.attributes != [] || HasChild(e.content) ==>
              Converted(e).Node? && Converted(e).data == if text == "" then None else Some(text)
  {
    text := Strings.Strip(TextOf(e.content));
    Strings.StripTrims(TextOf(e.content));
    AttributesNotEmpty(e.attributes);
    AddNotEmpty(WithAttributes(Empty, e.attributes), e.content);
  }
}
