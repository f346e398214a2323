/** The handlers that build a bounded statement tree: elements are objects that
    the handlers grow in place, found through a stack of open elements. */
module XmlBuilder {
  import opened Sums
  import opened XmlArena
  import opened XmlEvents

  /** An element of the tree. `order` says when it was created. */
  class XmlElement {
    const name: Name
    const attributes: map<string, string>
    ghost const order: nat
    var text: string
    var children: seq<XmlElement>

    constructor (name: Name, attributes: map<string, string>, ghost order: nat)
      ensures this.name == name && this.attributes == attributes && this.order == order
      ensures text == "" && children == []
    {
      this.name, this.attributes, this.order := name, attributes, order;
      text, children := "", [];
    }
  }

  /** The elements by their order of creation. */
  ghost predicate Ordered(elements: seq<XmlElement>, ids: seq<nat>) {
    |ids| == |elements| && forall j :: 0 <= j < |ids| ==> elements[j].order == ids[j]
  }

  /** An element is this cell. */
  ghost predicate Mirrors(e: XmlElement, cell: Cell)
    reads e
  {
    e.name == cell.name && e.attributes == cell.attributes && e.text == cell.text && Ordered(e.children, cell.children)
  }

  /** Elements that stand for an arena, cell by cell. */
  ghost predicate Represents(nodes: seq<XmlElement>, cells: seq<Cell>)
    reads nodes
  {
    && |nodes| == |cells|
    && forall k :: 0 <= k < |nodes| ==> nodes[k].order == k && Mirrors(nodes[k], cells[k])
  }

  /** The object and all below it are this tree. */
  ghost predicate IsTree(nodes: seq<XmlElement>, root: XmlElement, tree: Tree)
    reads nodes
  {
    exists cells ::
      && Represents(nodes, cells) && Forward(cells)
      && root.order < |cells| && nodes[root.order] == root && Grow(cells, root.order) == tree
  }

  lemma NothingIsShaped()
    ensures Shaped([], []) && ViewOf([], [], None, NOTHING) == FRESH
  {
    IsShaped([], []);
  }

  lemma RunToNext(events: seq<Event>, i: nat)
    requires i < |events|
    ensures Run(FRESH, events[..i + 1]) == Step(Run(FRESH, events[..i]), events[i])
  {
    assert events[..i + 1][..i] == events[..i];
  }

  lemma RefusedAt(events: seq<Event>, i: nat, why: Refusal)
    requires i <= |events| && Run(FRESH, events[..i]) == Refused(why)
    ensures Run(FRESH, events) == Refused(why)
  {
    assert events == events[..i] + events[i..];
    RunAppend(FRESH, events[..i], events[i..]);
    RefusedStays(why, events[i..]);
  }

  datatype Seal = Seal

  class TreeBuilder {
    var stack: seq<XmlElement>
    var root: XmlElement?
    var stats: Stats
    ghost var nodes: seq<XmlElement>
    ghost var repr: set<XmlElement>
    ghost var cells: seq<Cell>
    ghost var open: seq<nat>

    /** The ghost fields are up to date: `nodes` are all elements created, `cells`
        and `open` the arena and the path the elements and the stack stand for. */
    ghost predicate Links(seal: Seal)
      reads `stack, `root, `nodes, `repr, `cells, `open, repr, nodes
    {
      && Represents(nodes, cells) && Ordered(stack, open)
      && (forall k :: 0 <= k < |nodes| ==> nodes[k] in repr)
      && (forall p :: 0 <= p < |stack| ==> stack[p].order < |nodes| && nodes[stack[p].order] == stack[p])
      && (root != null ==> root.order < |nodes| && nodes[root.order] == root)
      && (stack != [] ==> root == stack[0])
    }

    /** The links, seen only by a proof that asks for them, and what follows for
        the numbers alone. */
    ghost predicate Linked()
      reads `stack, `root, `nodes, `repr, `cells, `open, repr, nodes
    {
      && (forall seal :: Links(seal))
      && |open| == |stack| && |cells| == |nodes|
      && (root != null ==> root.order < |cells|)
      && (open != [] ==> root != null && root.order == open[0])
    }

    ghost predicate Valid()
      reads this, repr, nodes
    {
      Linked() && Shaped(cells, open) && stats.depth == |stack| && stats.elements == |nodes|
    }

    ghost function RootId(): Option<nat>
      reads `root
    {
      if root == null then None else Some(root.order)
    }

    /** The state as the event machine has it. */
    ghost function View(): (r: Reader)
      reads this, repr, nodes
      requires Valid()
      ensures r.Reading?
    {
      ViewOf(cells, open, RootId(), stats)
    }

    constructor ()
      ensures Valid() && View() == FRESH && repr == {}
    {
      stack, root, stats, nodes, repr, cells, open := [], null, NOTHING, [], {}, [], [];
      new;
      NothingIsShaped();
    }

    method Adopt(element: XmlElement)
      requires Linked() && stack != [] && open[|open| - 1] < |cells| && element.order == |cells|
      modifies repr, this`cells
      ensures Linked() && cells == AddChild(old(cells), open[|open| - 1], |old(cells)|)
    {
      assert Links(Seal);
      var top := stack[|stack| - 1];
      top.children := top.children + [element];
      cells := AddChild(cells, open[|open| - 1], |cells|);
    }

    method Append(element: XmlElement)
      requires Linked() && element !in repr
      requires element.order == |nodes| && element.text == "" && element.children == []
      modifies this`stack, this`root, this`nodes, this`repr, this`cells, this`open
      ensures Linked() && repr == old(repr) + {element} && nodes == old(nodes) + [element]
      ensures stack == old(stack) + [element] && root == if old(stack) == [] then element else old(root)
      ensures cells == old(cells) + [Cell(element.name, element.attributes, "", [])]
      ensures open == old(open) + [|old(cells)|]
    {
      assert Links(Seal);
      if stack == [] {
        root := element;
      }
      nodes, repr := nodes + [element], repr + {element};
      cells, open := cells + [Cell(element.name, element.attributes, "", [])], open + [|cells|];
      stack := stack + [element];
    }

    /** The new element becomes the last child of the innermost open element, or
        the root, and is then the innermost open one. */
    method Attach(element: XmlElement)
      requires Linked() && forall p :: 0 <= p < |open| ==> open[p] < |cells|
      requires element !in repr && element.order == |nodes| && element.text == "" && element.children == []
      modifies this`stack, this`root, this`nodes, this`repr, this`cells, this`open, repr
      ensures Linked() && repr == old(repr) + {element} && nodes == old(nodes) + [element]
      ensures stack == old(stack) + [element] && root == if old(stack) == [] then element else old(root)
      ensures cells == AddCell(old(cells), old(open), element.name, element.attributes)
      ensures open == old(open) + [|old(cells)|]
    {
      if stack != [] {
        Adopt(element);
      }
      Append(element);
    }

    method StartElement(name: Name, attributes: map<string, string>) returns (error: Option<Refusal>)
      requires Valid()
      modifies this, repr
      ensures error.Some? ==> AfterStart(old(View()), name, attributes) == Refused(error.value)
      ensures error.None? ==> Valid() && View() == AfterStart(old(View()), name, attributes)
      ensures fresh(repr - old(repr))
    {
      var counted := StartStats(stats, attributes);
      if counted.depth > MAX_XML_DEPTH {
        return Some(TooDeep);
      }
      if counted.elements > MAX_ELEMENT_COUNT {
        return Some(TooManyElements);
      }
      if counted.attributes > MAX_ATTRIBUTE_COUNT {
        return Some(TooManyAttributes);
      }
      ViewAfterStart(cells, open, RootId(), stats, name, attributes);
      var element := new XmlElement(name, attributes, |nodes|);
      Attach(element);
      stats := counted;
      error := None;
    }

    method Pop()
      requires Linked() && stack != []
      modifies this`stack, this`open
      ensures Linked() && stack == old(stack[..|stack| - 1]) && open == old(open[..|open| - 1])
    {
      assert Links(Seal);
      stack, open := stack[..|stack| - 1], open[..|open| - 1];
    }

    method EndElement() returns (error: Option<Refusal>)
      requires Valid()
      modifies this
      ensures error.Some? ==> AfterEnd(old(View())) == Refused(error.value)
      ensures error.None? ==> Valid() && View() == AfterEnd(old(View()))
      ensures repr == old(repr)
    {
      if stack == [] {
        return Some(PopFromEmpty);
      }
      ViewAfterEnd(cells, open, stats);
      Pop();
      stats := stats.(depth := stats.depth - 1);
      error := None;
    }

    method DropText(text: string)
      requires Valid() && stack == [] && stats.textBytes + Utf8Size(text) <= MAX_TEXT_BYTES
      modifies this`stats
      ensures Valid() && View() == AfterText(old(View()), text)
    {
      stats := stats.(textBytes := stats.textBytes + Utf8Size(text));
    }

    method Absorb(text: string)
      requires Linked() && stack != [] && open[|open| - 1] < |cells|
      modifies this`stats, this`cells, repr
      ensures Linked() && unchanged(`stack, `root, `nodes, `repr, `open)
      ensures cells == AddText(old(cells), open[|open| - 1], text)
      ensures stats == old(stats).(textBytes := old(stats).textBytes + Utf8Size(text))
    {
      assert Links(Seal);
      var top := stack[|stack| - 1];
      top.text := top.text + text;
      stats, cells :=
        stats.(textBytes := stats.textBytes + Utf8Size(text)), AddText(cells, open[|open| - 1], text);
    }

    method TakeText(text: string)
      requires Valid() && stack != [] && stats.textBytes + Utf8Size(text) <= MAX_TEXT_BYTES
      modifies this`stats, this`cells, repr
      ensures Valid() && View() == AfterText(old(View()), text)
    {
      ghost var before, id := View(), RootId();
      ViewAfterText(cells, open, id, stats, text, before);
      Absorb(text);
      assert RootId() == id;
    }

    method HandleText(text: string) returns (error: Option<Refusal>)
      requires Valid()
      modifies this, repr
      ensures error.Some? ==> AfterText(old(View()), text) == Refused(error.value)
      ensures error.None? ==> Valid() && View() == AfterText(old(View()), text)
      ensures repr == old(repr)
    {
      if stats.textBytes + Utf8Size(text) > MAX_TEXT_BYTES {
        return Some(TooMuchText);
      }
      if stack == [] {
        DropText(text);
      } else {
        TakeText(text);
      }
      error := None;
    }

    /** The handler expat calls for an event. */
    method Handle(event: Event) returns (error: Option<Refusal>)
      requires Valid()
      modifies this, repr
      ensures error.Some? ==> Step(old(View()), event) == Refused(error.value)
      ensures error.None? ==> Valid() && View() == Step(old(View()), event)
      ensures fresh(repr - old(repr))
    {
      match event {
        case Forbidden => error := Some(DeclarationOrInstruction);
        case Start(name, attributes) => error := StartElement(name, attributes);
        case End => error := EndElement();
        case Chars(chunk) => error := HandleText(chunk);
      }
    }

    method HandleAll(events: seq<Event>) returns (error: Option<Refusal>)
      requires Valid() && View() == FRESH
      modifies this, repr
      ensures error.Some? ==> Run(FRESH, events) == Refused(error.value)
      ensures error.None? ==> Valid() && View() == Run(FRESH, events)
    {
      error := None;
      for i := 0 to |events|
        invariant fresh(repr - old(repr))
        invariant Valid() && View() == Run(FRESH, events[..i])
        invariant error == None
      {
        RunToNext(events, i);
        error := Handle(events[i]);
        if error.Some? {
          RefusedAt(events, i + 1, error.value);
          return;
        }
      }
      assert events[..|events|] == events;
    }

    method Finish() returns (found: XmlElement?, error: Option<Refusal>)
      requires Valid()
      ensures match Answer(View())
              case Rejected(why) => error == Some(why)
              case Built(tree) => error == None && found != null && IsTree(nodes, found, tree)
    {
      assert Links(Seal);
      if stack != [] {
        return null, Some(NotWellFormed);
      }
      if root == null {
        return null, Some(NoDocumentElement);
      }
      ShapeOf(cells, open);
      return root, None;
    }
  }

  /** Feed the events to the handlers and hand out the root. `nodes` names the
      elements the root's tree is made of. */
  method ParseBoundedXml(events: seq<Event>)
    returns (root: XmlElement?, error: Option<Refusal>, ghost nodes: seq<XmlElement>)
    ensures error == if ParseOf(events).Rejected? then Some(ParseOf(events).why) else None
    ensures ParseOf(events).Built? ==> root != null && IsTree(nodes, root, ParseOf(events).tree)
  {
    var builder := new TreeBuilder();
    error := builder.HandleAll(events);
    root := null;
    nodes := builder.nodes;
    if error.None? {
      root, error := builder.Finish();
    }
  }
}
