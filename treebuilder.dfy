/**
  The SAX callbacks of `call` that build the mini DOM of a response: a stack
  of open elements, pushed on start-element, given text on non-blank
  character data, and on end-element popped and put at the FRONT of its
  parent's children (so children end up in reverse document order). At end
  of document the top node is popped and compacted.
 */
module TreeBuilder {
  import opened Wrappers
  import opened Dom
  import opened Compaction

  /** A character the pattern `[\t\n\s]` matches: JavaScript's white space and line terminators. */
  predicate IsSpace(c: char)
  {
    || c == '\t' || c == '\n' || c == '\U{B}' || c == '\U{C}' || c == '\r' || c == ' '
    || c == '\U{A0}' || c == '\U{1680}' || '\U{2000}' <= c <= '\U{200A}'
    || c == '\U{2028}' || c == '\U{2029}' || c == '\U{202F}' || c == '\U{205F}'
    || c == '\U{3000}' || c == '\U{FEFF}'
  }

  /** `chars.replace(/[\t\n\s]/g, '')`. */
  function RemoveSpaces(chars: string): string
  {
    if chars == [] then []
    else (if IsSpace(chars[0]) then [] else [chars[0]]) + RemoveSpaces(chars[1..])
  }

  /** A chunk is ignored exactly when every one of its characters is white space. */
  lemma {:induction false} RemoveSpacesEmpty(chars: string)
    ensures |RemoveSpaces(chars)| == 0 <==> forall i :: 0 <= i < |chars| ==> IsSpace(chars[i])
  {
    if chars != [] {
      RemoveSpacesEmpty(chars[1..]);
      assert forall i :: 1 <= i < |chars| ==> chars[i] == chars[1..][i - 1];
    }
  }

  predicate Blank(chars: string)
  {
    |RemoveSpaces(chars)| == 0
  }

  /** The stack after a characters event: a non-blank chunk replaces the text of the top node. */
  function WithText(stack: seq<Node>, chars: string): seq<Node>
  {
    if |stack| > 0 && !Blank(chars) then stack[..|stack| - 1] + [stack[|stack| - 1].(text := Some(chars))]
    else stack
  }

  /** The stack after an end-element event: with more than one node, the top is popped and put first among its parent's children. */
  function Closed(stack: seq<Node>): seq<Node>
  {
    if |stack| > 1 then
      var parent := stack[|stack| - 2];
      stack[..|stack| - 2] + [parent.(children := [stack[|stack| - 1]] + parent.children)]
    else stack
  }

  /** What a characters event does to the stack, and what it leaves alone. */
  lemma CharactersEffect(stack: seq<Node>, chars: string)
    ensures |WithText(stack, chars)| == |stack|
    ensures forall i :: 0 <= i < |stack| - 1 ==> WithText(stack, chars)[i] == stack[i]
    ensures (forall i :: 0 <= i < |chars| ==> IsSpace(chars[i])) ==> WithText(stack, chars) == stack
    ensures stack != [] && (exists i :: 0 <= i < |chars| && !IsSpace(chars[i])) ==>
      var top, top' := stack[|stack| - 1], WithText(stack, chars)[|stack| - 1];
      top'.name == top.name && top'.children == top.children && top'.text == Some(chars)
  {
    RemoveSpacesEmpty(chars);
  }

  /** An end-element event with more than one node lowers the stack by exactly one and moves the popped node to the front of its parent's children; otherwise it does nothing. */
  lemma EndEffect(stack: seq<Node>)
    ensures |stack| <= 1 ==> Closed(stack) == stack
    ensures |stack| > 1 ==>
      var r := Closed(stack);
      && |r| == |stack| - 1
      && r[..|r| - 1] == stack[..|stack| - 2]
      && r[|r| - 1].name == stack[|stack| - 2].name
      && r[|r| - 1].text == stack[|stack| - 2].text
      && r[|r| - 1].children[0] == stack[|stack| - 1]
      && r[|r| - 1].children[1..] == stack[|stack| - 2].children
  {
  }

  /** The parser callbacks of one call, with the stack they share. */
  class Builder {
    var stack: seq<Node>

    constructor ()
      ensures stack == []
    {
      stack := [];
    }

    /** `onStartElementNS`: pushes a fresh node with no children and `null` text. */
    method StartElement(name: string)
      modifies this
      ensures stack == old(stack) + [Node(name, [], None)]
    {
      stack := stack + [Node(name, [], None)];
    }

    /** `onCharacters`: a chunk with a non-blank character replaces the top node's text. */
    method Characters(chars: string)
      modifies this
      ensures stack == WithText(old(stack), chars)
    {
      if |stack| > 0 {
        if |RemoveSpaces(chars)| > 0 {
          var top := stack[|stack| - 1];
          stack := stack[..|stack| - 1] + [top.(text := Some(chars))];
        }
      }
    }

    /** `onEndElementNS`: pops the top node and unshifts it onto its parent's children, when there is a parent. */
    method EndElement(name: string)
      modifies this
      ensures stack == Closed(old(stack))
    {
      if |stack| > 1 {
        var temp := stack[|stack| - 1];
        stack := stack[..|stack| - 1];
        var parent := stack[|stack| - 1];
        stack := stack[..|stack| - 1] + [parent.(children := [temp] + parent.children)];
      }
    }

    /** `onEndDocument`: pops the top node and compacts it; the result is what the callback receives. */
    method EndDocument() returns (r: Result<Compacted, CompactError>)
      modifies this
      ensures old(stack) == [] ==> stack == [] && r == Failure(NoDocument)
      ensures old(stack) != [] ==> stack == old(stack)[..|old(stack)| - 1] && r == RootResult(old(stack)[|old(stack)| - 1])
    {
      if stack == [] {
        return Failure(NoDocument);
      }
      var top := stack[|stack| - 1];
      stack := stack[..|stack| - 1];
      var shifted;
      r, shifted := Compact(top);
    }
  }

  /** The parser events that drive the builder. */
  datatype Event = StartElement(name: string) | Characters(chars: string) | EndElement(name: string)

  function Step(stack: seq<Node>, ev: Event): seq<Node>
  {
    match ev
    case StartElement(name) => stack + [Node(name, [], None)]
    case Characters(chars) => WithText(stack, chars)
    case EndElement(_) => Closed(stack)
  }

  function Run(stack: seq<Node>, evs: seq<Event>): seq<Node>
    decreases |evs|
  {
    if evs == [] then stack else Run(Step(stack, evs[0]), evs[1..])
  }

  lemma {:induction false} RunAppend(stack: seq<Node>, a: seq<Event>, b: seq<Event>)
    decreases |a|
    ensures Run(stack, a + b) == Run(Run(stack, a), b)
  {
    if a == [] {
      assert a + b == b;
    } else {
      assert (a + b)[0] == a[0] && (a + b)[1..] == a[1..] + b;
      RunAppend(Step(stack, a[0]), a[1..], b);
    }
  }

  /** An XML element as the document holds it: its name and its content, character chunks and child elements in document order. */
  datatype Element = Element(name: string, content: seq<Content>)
  datatype Content = CharData(chars: string) | Child(elem: Element)

  /** The events a parser emits for an element. */
  function ElementEvents(e: Element): seq<Event>
    decreases e, 1, 0
  {
    [StartElement(e.name)] + ContentEvents(e, |e.content|) + [EndElement(e.name)]
  }

  function ContentEvents(e: Element, k: nat): seq<Event>
    requires k <= |e.content|
    decreases e, 0, k
  {
    if k == 0 then []
    else
      ContentEvents(e, k - 1) +
      match e.content[k - 1]
      case CharData(chars) => [Characters(chars)]
      case Child(c) => ElementEvents(c)
  }

  /** The child elements among the first k content items, in document order. */
  function ChildElements(e: Element, k: nat): seq<Element>
    requires k <= |e.content|
  {
    if k == 0 then []
    else
      ChildElements(e, k - 1) +
      match e.content[k - 1]
      case CharData(_) => []
      case Child(c) => [c]
  }

  /** The node the builder makes of an element. */
  function Built(e: Element): Node
    decreases e, 1, 0
  {
    Partial(e, |e.content|)
  }

  /** The element's node once the first k content items have been parsed. */
  function Partial(e: Element, k: nat): Node
    requires k <= |e.content|
    decreases e, 0, k + 1
  {
    Node(e.name, BuiltChildren(e, k), LastText(e, k))
  }

  /** The nodes of the child elements among the first k content items, the latest first. */
  function BuiltChildren(e: Element, k: nat): seq<Node>
    requires k <= |e.content|
    decreases e, 0, k
  {
    if k == 0 then []
    else
      match e.content[k - 1]
      case CharData(_) => BuiltChildren(e, k - 1)
      case Child(c) => [Built(c)] + BuiltChildren(e, k - 1)
  }

  /** The last non-blank character chunk among the first k content items. */
  function LastText(e: Element, k: nat): Option<string>
    requires k <= |e.content|
  {
    if k == 0 then None
    else
      match e.content[k - 1]
      case CharData(chars) => if Blank(chars) then LastText(e, k - 1) else Some(chars)
      case Child(_) => LastText(e, k - 1)
  }

  /** The children of a built node are the nodes of the element's child elements in REVERSE document order. */
  lemma {:induction false} BuiltChildrenReversed(e: Element, k: nat)
    requires k <= |e.content|
    ensures |BuiltChildren(e, k)| == |ChildElements(e, k)|
    ensures forall i :: 0 <= i < |ChildElements(e, k)| ==>
      BuiltChildren(e, k)[i] == Built(ChildElements(e, k)[|ChildElements(e, k)| - 1 - i])
  {
    if k > 0 {
      BuiltChildrenReversed(e, k - 1);
    }
  }

  /** A character chunk in the content replaces the text of the element's node when it is not blank. */
  lemma CharDataStep(stack: seq<Node>, e: Element, k: nat)
    requires 0 < k <= |e.content| && e.content[k - 1].CharData?
    ensures WithText(stack + [Partial(e, k - 1)], e.content[k - 1].chars) == stack + [Partial(e, k)]
  {
    assert (stack + [Partial(e, k - 1)])[..|stack|] == stack;
  }

  /** A closed child element goes first among the children of the element's node. */
  lemma ChildStep(stack: seq<Node>, e: Element, k: nat)
    requires 0 < k <= |e.content| && e.content[k - 1].Child?
    ensures Closed(stack + [Partial(e, k - 1)] + [Built(e.content[k - 1].elem)]) == stack + [Partial(e, k)]
  {
    assert (stack + [Partial(e, k - 1)] + [Built(e.content[k - 1].elem)])[..|stack|] == stack;
  }

  /** Parsing the content of an element on top of a stack grows the element's node and leaves the rest of the stack alone. */
  lemma {:induction false} RunContent(stack: seq<Node>, e: Element, k: nat)
    requires k <= |e.content|
    decreases e, 0, k
    ensures Run(stack + [Node(e.name, [], None)], ContentEvents(e, k)) == stack + [Partial(e, k)]
  {
    if k > 0 {
      var before := stack + [Node(e.name, [], None)];
      RunContent(stack, e, k - 1);
      var p := Partial(e, k - 1);
      match e.content[k - 1]
      case CharData(chars) =>
        RunAppend(before, ContentEvents(e, k - 1), [Characters(chars)]);
        assert Run(stack + [p], [Characters(chars)]) == WithText(stack + [p], chars);
        CharDataStep(stack, e, k);
      case Child(c) =>
        RunAppend(before, ContentEvents(e, k - 1), ElementEvents(c));
        RunElement(stack + [p], c);
        ChildStep(stack, e, k);
    }
  }

  /** Parsing a whole element on top of a stack adds its node as the first child of the node below, or leaves it alone on an empty stack. */
  lemma {:induction false} RunElement(stack: seq<Node>, e: Element)
    decreases e, 1, 0
    ensures Run(stack, ElementEvents(e)) == Closed(stack + [Built(e)])
  {
    var start, body, end := [StartElement(e.name)], ContentEvents(e, |e.content|), [EndElement(e.name)];
    assert ElementEvents(e) == start + (body + end);
    RunAppend(stack, start, body + end);
    assert Run(stack, start) == stack + [Node(e.name, [], None)];
    RunAppend(stack + [Node(e.name, [], None)], body, end);
    RunContent(stack, e, |e.content|);
  }

  /**
    The events of a document leave exactly one node on the stack: the root
    element, whose children are its child elements in reverse document
    order and whose text is its last non-blank chunk.
   */
  lemma ParseDocument(root: Element)
    ensures Run([], ElementEvents(root)) == [Built(root)]
  {
    RunElement([], root);
    assert [] + [Built(root)] == [Built(root)];
  }

  /**
    What the callback receives at the end of a document: the root element
    is dropped, and its LAST child element in document order is kept under
    its own name; a root without child elements raises the `TypeError`.
   */
  lemma DocumentResult(root: Element)
    ensures ChildElements(root, |root.content|) == [] ==> RootResult(Built(root)) == Failure(NoChildElement)
    ensures ChildElements(root, |root.content|) != [] ==>
      var last := ChildElements(root, |root.content|)[|ChildElements(root, |root.content|)| - 1];
      RootResult(Built(root)) == Success(Dict(map[last.name := CompactNode(Built(last))]))
  {
    BuiltChildrenReversed(root, |root.content|);
  }

  /** A leaf element holding one chunk of text. */
  function Leaf(name: string, chars: string): Element
  {
    Element(name, [CharData(chars)])
  }

  lemma NotBlank(chars: string)
    requires chars != [] && !IsSpace(chars[0])
    ensures !Blank(chars)
  {
    RemoveSpacesEmpty(chars);
  }

  lemma BuiltLeaf(name: string, chars: string)
    requires !Blank(chars)
    ensures Built(Leaf(name, chars)) == Node(name, [], Some(chars))
  {
    var e := Leaf(name, chars);
    assert BuiltChildren(e, 1) == BuiltChildren(e, 0);
  }

  /** An element with one child element between two blank chunks. */
  lemma BuiltIndented(name: string, pre: string, c: Element, post: string)
    requires Blank(pre) && Blank(post)
    ensures Built(Element(name, [CharData(pre), Child(c), CharData(post)])) == Node(name, [Built(c)], None)
  {
    var e := Element(name, [CharData(pre), Child(c), CharData(post)]);
    assert Built(e) == Partial(e, 3);
    assert BuiltChildren(e, 1) == [] && LastText(e, 1) == None;
    assert BuiltChildren(e, 2) == [Built(c)] && LastText(e, 2) == None;
  }

  /** An element with two child elements and no character data. */
  lemma BuiltPair(name: string, c1: Element, c2: Element)
    ensures Built(Element(name, [Child(c1), Child(c2)])) == Node(name, [Built(c2), Built(c1)], None)
  {
    var e := Element(name, [Child(c1), Child(c2)]);
    assert Built(e) == Partial(e, 2);
    assert BuiltChildren(e, 1) == [Built(c1)] && LastText(e, 1) == None;
  }

  /** An element with one child element and no character data. */
  lemma BuiltSingle(name: string, c: Element)
    ensures Built(Element(name, [Child(c)])) == Node(name, [Built(c)], None)
  {
    var e := Element(name, [Child(c)]);
    assert Built(e) == Partial(e, 1);
    assert BuiltChildren(e, 0) == [] && LastText(e, 0) == None;
    assert BuiltChildren(e, 1) == [Built(c)];
  }

  /** The `item` of the response in the comment above `compact`, with the indentation it is written with. */
  function SampleItem(): Element
  {
    Element("item", [CharData("\n      "), Child(Leaf("imageId", "foo")), CharData("\n    ")])
  }

  function SampleReservations(): Element
  {
    Element("reservationSet", [CharData("\n    "), Child(SampleItem()), CharData("\n  ")])
  }

  /** The whole response in the comment above `compact`. */
  function DescribeInstancesSample(): Element
  {
    Element("DescribeInstancesResponse", [CharData("\n  "), Child(SampleReservations()), CharData("\n")])
  }

  lemma SampleIndentBlank()
    ensures Blank("\n      ") && Blank("\n    ") && Blank("\n  ") && Blank("\n")
  {
  }

  lemma SampleItemCompacts()
    ensures CompactNode(Built(SampleItem())) == Dict(map["imageId" := Text("foo")])
  {
    NotBlank("foo");
    BuiltLeaf("imageId", "foo");
    SampleIndentBlank();
    BuiltIndented("item", "\n      ", Leaf("imageId", "foo"), "\n    ");
    assert CompactFields(Built(SampleItem()), 1) == map["imageId" := Text("foo")];
  }

  /** The sample compacts to `{ reservationSet: [ { imageId: "foo" } ] }`: the indentation is ignored and the root is dropped. */
  lemma DescribeInstancesSampleResult()
    ensures RootResult(Built(DescribeInstancesSample()))
         == Success(Dict(map["reservationSet" := List([Dict(map["imageId" := Text("foo")])])]))
  {
    SampleIndentBlank();
    SampleItemCompacts();
    BuiltIndented("reservationSet", "\n    ", SampleItem(), "\n  ");
    BuiltIndented("DescribeInstancesResponse", "\n  ", SampleReservations(), "\n");
    var reservations := Built(SampleReservations());
    assert reservations.children[0].name == "item";
    assert HasItem(reservations.children);
    assert CompactNode(reservations).items == [CompactNode(Built(SampleItem()))];
    assert CompactNode(reservations) == List([Dict(map["imageId" := Text("foo")])]);
  }

  /** Items come out in reverse document order: `<set><item><n>1</n></item><item><n>2</n></item></set>` gives `[{n: "2"}, {n: "1"}]`. */
  lemma ItemsReversed()
    ensures
      var set_ := Element("set", [Child(Element("item", [Child(Leaf("n", "1"))])), Child(Element("item", [Child(Leaf("n", "2"))]))]);
      RootResult(Built(Element("response", [Child(set_)])))
        == Success(Dict(map["set" := List([Dict(map["n" := Text("2")]), Dict(map["n" := Text("1")])])]))
  {
    NotBlank("1");
    NotBlank("2");
    BuiltLeaf("n", "1");
    BuiltLeaf("n", "2");
    var one, two := Element("item", [Child(Leaf("n", "1"))]), Element("item", [Child(Leaf("n", "2"))]);
    BuiltSingle("item", Leaf("n", "1"));
    BuiltSingle("item", Leaf("n", "2"));
    assert CompactFields(Built(one), 1) == map["n" := Text("1")];
    assert CompactFields(Built(two), 1) == map["n" := Text("2")];
    var set_ := Element("set", [Child(one), Child(two)]);
    BuiltPair("set", one, two);
    BuiltSingle("response", set_);
    assert !HasItem(Built(one).children) && !HasItem(Built(two).children);
    assert CompactNode(Built(one)) == Dict(map["n" := Text("1")]);
    assert CompactNode(Built(two)) == Dict(map["n" := Text("2")]);
    assert Built(set_).children[0].name == "item";
    assert HasItem(Built(set_).children);
    assert CompactNode(Built(set_)).items == [CompactNode(Built(two)), CompactNode(Built(one))];
    assert CompactNode(Built(set_)) == List([Dict(map["n" := Text("2")]), Dict(map["n" := Text("1")])]);
    assert RootResult(Built(Element("response", [Child(set_)]))) == Success(Dict(map["set" := CompactNode(Built(set_))]));
  }

  /** Of two siblings with the same name and no `item` among them, the one FIRST in document order is kept. */
  lemma DuplicateNameKeepsFirst()
    ensures
      var x := Element("x", [Child(Leaf("a", "1")), Child(Leaf("a", "2"))]);
      RootResult(Built(Element("response", [Child(x)])))
        == Success(Dict(map["x" := Dict(map["a" := Text("1")])]))
  {
    NotBlank("1");
    NotBlank("2");
    BuiltLeaf("a", "1");
    BuiltLeaf("a", "2");
    var x := Element("x", [Child(Leaf("a", "1")), Child(Leaf("a", "2"))]);
    BuiltPair("x", Leaf("a", "1"), Leaf("a", "2"));
    BuiltSingle("response", x);
    assert !HasItem(Built(x).children);
    assert CompactNode(Built(Leaf("a", "1"))) == Text("1");
    assert CompactFields(Built(x), 1) == map["a" := CompactNode(Built(Leaf("a", "2")))];
    assert CompactFields(Built(x), 2) == map["a" := Text("1")];
  }
}
