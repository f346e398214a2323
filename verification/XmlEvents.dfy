/** The bounded statement reader as a machine over expat's events: what a run
    over the events of any document builds, and exactly when it is refused. */
module XmlEvents {
  import opened Sums

  const MAX_XML_DEPTH := 32
  const MAX_ELEMENT_COUNT := 20_000
  const MAX_ATTRIBUTE_COUNT := 20_000
  const MAX_TEXT_BYTES := 262_144

  datatype Name = Name(namespace: string, local: string)

  /** An element as the adapter keeps it: its text joined, its children in order. */
  datatype Tree = Tree(name: Name, attributes: map<string, string>, text: string, children: seq<Tree>)

  /** A parsed document as it is written: text comes in pieces between elements. */
  datatype Item =
    | Text(chunk: string)
    | Element(name: Name, attributes: map<string, string>, content: seq<Item>)

  datatype Event =
    | Start(name: Name, attributes: map<string, string>)
    | End
    | Chars(chunk: string)
    | Forbidden

  /** `PopFromEmpty` is Python's own error for an end with nothing open, and
      `NotWellFormed` is expat's for elements left open at the end. */
  datatype Refusal =
    | DeclarationOrInstruction | TooDeep | TooManyElements | TooManyAttributes | TooMuchText | PopFromEmpty
    | NotWellFormed | NoDocumentElement

  datatype Stats = Stats(depth: int, elements: nat, attributes: nat, textBytes: nat)

  /** An element still open: its closed children only. */
  datatype Frame = Frame(name: Name, attributes: map<string, string>, text: string, children: seq<Tree>)

  /** The reader between events: the open elements, and the root once closed. */
  datatype Reader =
    | Reading(open: seq<Frame>, root: Option<Tree>, stats: Stats)
    | Refused(why: Refusal)

  // ------------------------------------------------------------- the machine

  function CharSize(c: char): nat {
    var code := c as int;
    if code < 0x80 then 1 else if code < 0x800 then 2 else if code < 0x1_0000 then 3 else 4
  }

  /** The size of a text in UTF-8. */
  function Utf8Size(text: string): nat {
    if text == [] then 0 else Utf8Size(text[..|text| - 1]) + CharSize(text[|text| - 1])
  }

  // The sizes are those of the encoding of RFC 3629, section 3.

  /** The bytes of a character: the leading bits of the first one say how many follow. */
  function Utf8Bytes(c: char): seq<int> {
    var code := c as int;
    if code < 0x80 then [code]
    else if code < 0x800 then [0xC0 + code / 64, 0x80 + code % 64]
    else if code < 0x1_0000 then [0xE0 + code / 4096, 0x80 + code / 64 % 64, 0x80 + code % 64]
    else [0xF0 + code / 262_144, 0x80 + code / 4096 % 64, 0x80 + code / 64 % 64, 0x80 + code % 64]
  }

  /** How many bytes the first one announces, and what they are read as. */
  function Announced(first: int): nat {
    if first < 0x80 then 1 else if first < 0xE0 then 2 else if first < 0xF0 then 3 else 4
  }

  function Read(bytes: seq<int>): int
    requires bytes != [] && |bytes| == Announced(bytes[0])
  {
    match |bytes|
    case 1 => bytes[0]
    case 2 => (bytes[0] - 0xC0) * 64 + (bytes[1] - 0x80)
    case 3 => (bytes[0] - 0xE0) * 4096 + (bytes[1] - 0x80) * 64 + (bytes[2] - 0x80)
    case _ => (bytes[0] - 0xF0) * 262_144 + (bytes[1] - 0x80) * 4096 + (bytes[2] - 0x80) * 64 + (bytes[3] - 0x80)
  }

  lemma SixBitsApart(code: nat)
    ensures code == code / 64 * 64 + code % 64
    ensures code == code / 4096 * 4096 + code / 64 % 64 * 64 + code % 64
    ensures code == code / 262_144 * 262_144 + code / 4096 % 64 * 4096 + code / 64 % 64 * 64 + code % 64
  {
    assert code / 64 / 64 == code / 4096 && code / 4096 / 64 == code / 262_144;
  }

  /** The size of a character is the number of bytes that its encoding announces, which
      are bytes and read back as the character. */
  lemma SizeIsEncodedLength(c: char)
    ensures |Utf8Bytes(c)| == CharSize(c) == Announced(Utf8Bytes(c)[0])
    ensures forall k :: 0 <= k < |Utf8Bytes(c)| ==> 0 <= Utf8Bytes(c)[k] < 256
    ensures Read(Utf8Bytes(c)) == c as int
  {
    SixBitsApart(c as int);
  }

  function Encoded(text: string): seq<int> {
    if text == [] then [] else Encoded(text[..|text| - 1]) + Utf8Bytes(text[|text| - 1])
  }

  lemma {:induction false} TextSizeIsEncodedLength(text: string)
    ensures Utf8Size(text) == |Encoded(text)|
  {
    if text != [] {
      TextSizeIsEncodedLength(text[..|text| - 1]);
      SizeIsEncodedLength(text[|text| - 1]);
    }
  }

  function StartStats(s: Stats, attributes: map<string, string>): Stats {
    Stats(s.depth + 1, s.elements + 1, s.attributes + |attributes|, s.textBytes)
  }

  /** The bound a start event breaks, in the order they are checked. */
  function BoundBroken(s: Stats): Option<Refusal> {
    if s.depth > MAX_XML_DEPTH then Some(TooDeep)
    else if s.elements > MAX_ELEMENT_COUNT then Some(TooManyElements)
    else if s.attributes > MAX_ATTRIBUTE_COUNT then Some(TooManyAttributes)
    else None
  }

  function Close(f: Frame): Tree {
    Tree(f.name, f.attributes, f.text, f.children)
  }

  /** The innermost open element takes more text and closed children. */
  function Grown(open: seq<Frame>, text: string, children: seq<Tree>): seq<Frame>
    requires open != []
  {
    var top := open[|open| - 1];
    open[|open| - 1 := top.(text := top.text + text, children := top.children + children)]
  }

  function EndOpen(open: seq<Frame>, stats: Stats): Reader
    requires open != []
  {
    var rest, closed := open[..|open| - 1], Close(open[|open| - 1]);
    if rest == [] then Reading([], Some(closed), stats) else Reading(Grown(rest, "", [closed]), None, stats)
  }

  function AfterStart(r: Reader, name: Name, attributes: map<string, string>): Reader
    requires r.Reading?
  {
    var stats := StartStats(r.stats, attributes);
    if BoundBroken(stats).Some? then Refused(BoundBroken(stats).value)
    else Reading(r.open + [Frame(name, attributes, "", [])], None, stats)
  }

  function AfterEnd(r: Reader): Reader
    requires r.Reading?
  {
    if r.open == [] then Refused(PopFromEmpty) else EndOpen(r.open, r.stats.(depth := r.stats.depth - 1))
  }

  function AfterText(r: Reader, chunk: string): Reader
    requires r.Reading?
  {
    var stats := r.stats.(textBytes := r.stats.textBytes + Utf8Size(chunk));
    if stats.textBytes > MAX_TEXT_BYTES then Refused(TooMuchText)
    else if r.open == [] then r.(stats := stats)
    else Reading(Grown(r.open, chunk, []), None, stats)
  }

  function Step(r: Reader, e: Event): Reader {
    if r.Refused? then r
    else
      match e
      case Forbidden => Refused(DeclarationOrInstruction)
      case Start(name, attributes) => AfterStart(r, name, attributes)
      case End => AfterEnd(r)
      case Chars(chunk) => AfterText(r, chunk)
  }

  function Run(r: Reader, events: seq<Event>): Reader {
    if events == [] then r else Step(Run(r, events[..|events| - 1]), events[|events| - 1])
  }

  const NOTHING := Stats(0, 0, 0, 0)

  const FRESH := Reading([], None, NOTHING)

  datatype Parse = Built(tree: Tree) | Rejected(why: Refusal)

  function Answer(r: Reader): Parse {
    match r
    case Refused(why) => Rejected(why)
    case Reading(open, root, _) =>
      if open != [] then Rejected(NotWellFormed)
      else if root.None? then Rejected(NoDocumentElement)
      else Built(root.value)
  }

  /** The answer to a whole sequence of events. */
  function ParseOf(events: seq<Event>): Parse {
    Answer(Run(FRESH, events))
  }

  // --------------------------------------------------------------- documents

  function Events(item: Item): seq<Event> {
    match item
    case Text(chunk) => [Chars(chunk)]
    case Element(name, attributes, content) => [Start(name, attributes)] + AllEvents(content) + [End]
  }

  function AllEvents(content: seq<Item>): seq<Event> {
    if content == [] then [] else Events(content[0]) + AllEvents(content[1..])
  }

  /** What an item adds to the element around it: text, or a child. */
  function TextPart(item: Item): string {
    if item.Text? then item.chunk else ""
  }

  function TreePart(item: Item): seq<Tree>
    decreases item, 1
  {
    if item.Text? then [] else [TreeOf(item)]
  }

  function JoinedText(content: seq<Item>): string {
    if content == [] then "" else TextPart(content[0]) + JoinedText(content[1..])
  }

  /** The trees of the elements directly inside, in order. */
  function Trees(content: seq<Item>): seq<Tree> {
    if content == [] then [] else TreePart(content[0]) + Trees(content[1..])
  }

  function TreeOf(item: Item): Tree
    requires item.Element?
    decreases item, 0
  {
    Tree(item.name, item.attributes, JoinedText(item.content), Trees(item.content))
  }

  /** What a document weighs against the bounds: nesting, elements, attributes and
      text. */
  function Weight(item: Item): (w: Stats)
    ensures w.depth >= 0
  {
    match item
    case Text(chunk) => Stats(0, 0, 0, Utf8Size(chunk))
    case Element(_, attributes, content) =>
      var w := AllWeight(content);
      Stats(w.depth + 1, w.elements + 1, w.attributes + |attributes|, w.textBytes)
  }

  function AllWeight(content: seq<Item>): (w: Stats)
    ensures w.depth >= 0
  {
    if content == [] then Stats(0, 0, 0, 0)
    else
      var w, v := Weight(content[0]), AllWeight(content[1..]);
      Stats(if w.depth > v.depth then w.depth else v.depth,
            w.elements + v.elements, w.attributes + v.attributes, w.textBytes + v.textBytes)
  }

  predicate Bounded(s: Stats, w: Stats) {
    && s.depth + w.depth <= MAX_XML_DEPTH
    && s.elements + w.elements <= MAX_ELEMENT_COUNT
    && s.attributes + w.attributes <= MAX_ATTRIBUTE_COUNT
    && s.textBytes + w.textBytes <= MAX_TEXT_BYTES
  }

  /** The refusal names a bound that the weight breaks. */
  predicate Names(s: Stats, w: Stats, why: Refusal) {
    match why
    case TooDeep => s.depth + w.depth > MAX_XML_DEPTH
    case TooManyElements => s.elements + w.elements > MAX_ELEMENT_COUNT
    case TooManyAttributes => s.attributes + w.attributes > MAX_ATTRIBUTE_COUNT
    case TooMuchText => s.textBytes + w.textBytes > MAX_TEXT_BYTES
    case _ => false
  }

  /** The counters after reading something whole: depth is back where it was. */
  function Counted(s: Stats, w: Stats): Stats {
    Stats(s.depth, s.elements + w.elements, s.attributes + w.attributes, s.textBytes + w.textBytes)
  }

  // ---------------------------------------------------------------- theorems

  lemma {:induction false} RunAppend(r: Reader, a: seq<Event>, b: seq<Event>)
    ensures Run(r, a + b) == Run(Run(r, a), b)
  {
    if b == [] {
      assert a + b == a;
    } else {
      assert (a + b)[..|a + b| - 1] == a + b[..|b| - 1];
      RunAppend(r, a, b[..|b| - 1]);
    }
  }

  lemma {:induction false} RefusedStays(why: Refusal, events: seq<Event>)
    ensures Run(Refused(why), events) == Refused(why)
  {
    if events != [] {
      RefusedStays(why, events[..|events| - 1]);
    }
  }

  lemma RunOne(r: Reader, e: Event)
    ensures Run(r, [e]) == Step(r, e)
  {
    assert [e][..0] == [];
  }

  lemma GrownByNothing(open: seq<Frame>)
    requires open != []
    ensures Grown(open, "", []) == open
  {
    var top := open[|open| - 1];
    assert top.text + "" == top.text && top.children + [] == top.children;
  }

  lemma GrownTwice(open: seq<Frame>, t: string, u: string, a: seq<Tree>, b: seq<Tree>)
    requires open != []
    ensures Grown(Grown(open, t, a), u, b) == Grown(open, t + u, a + b)
  {
    var top := open[|open| - 1];
    assert (top.text + t) + u == top.text + (t + u);
    assert (top.children + a) + b == top.children + (a + b);
  }

  /** Weighing content as a whole or one item after the other. */
  lemma BoundedInTurn(s: Stats, content: seq<Item>)
    requires content != [] && Bounded(s, NOTHING)
    ensures var w, v := Weight(content[0]), AllWeight(content[1..]);
            && (Bounded(s, AllWeight(content)) <==> Bounded(s, w) && Bounded(Counted(s, w), v))
            && Counted(Counted(s, w), v) == Counted(s, AllWeight(content))
            && forall why :: Names(s, w, why) || Names(Counted(s, w), v, why) ==> Names(s, AllWeight(content), why)
  {
  }

  /** Reading whole content inside an open element: that element grows by the
      joined text and the trees, or a bound refuses it. */
  lemma {:induction false} ContentIsRead(open: seq<Frame>, s: Stats, content: seq<Item>)
    requires open != [] && Bounded(s, NOTHING)
    ensures var r := Run(Reading(open, None, s), AllEvents(content));
            if Bounded(s, AllWeight(content))
            then r == Reading(Grown(open, JoinedText(content), Trees(content)), None, Counted(s, AllWeight(content)))
            else r.Refused? && Names(s, AllWeight(content), r.why)
    decreases content
  {
    var before := Reading(open, None, s);
    if content == [] {
      GrownByNothing(open);
    } else {
      var first, rest := content[0], content[1..];
      RunAppend(before, Events(first), AllEvents(rest));
      ItemIsRead(open, s, first);
      BoundedInTurn(s, content);
      var r := Run(before, Events(first));
      if r.Refused? {
        RefusedStays(r.why, AllEvents(rest));
      } else {
        ContentIsRead(r.open, r.stats, rest);
        GrownTwice(open, TextPart(first), JoinedText(rest), TreePart(first), Trees(rest));
      }
    }
  }

  /** An element about to close, with its content read. */
  function Opened(item: Item): Frame
    requires item.Element?
  {
    Frame(item.name, item.attributes, JoinedText(item.content), Trees(item.content))
  }

  lemma {:induction false} ItemIsRead(open: seq<Frame>, s: Stats, item: Item)
    requires open != [] && Bounded(s, NOTHING)
    ensures var r := Run(Reading(open, None, s), Events(item));
            if Bounded(s, Weight(item))
            then r == Reading(Grown(open, TextPart(item), TreePart(item)), None, Counted(s, Weight(item)))
            else r.Refused? && Names(s, Weight(item), r.why)
    decreases item, 1
  {
    if item.Text? {
      RunOne(Reading(open, None, s), Chars(item.chunk));
    } else {
      ElementIsRead(open, s, item);
      assert (open + [Opened(item)])[..|open|] == open;
    }
  }

  lemma FrameIsGrown(open: seq<Frame>, item: Item)
    requires item.Element?
    ensures Grown(open + [Frame(item.name, item.attributes, "", [])], JoinedText(item.content), Trees(item.content))
         == open + [Opened(item)]
  {
    assert "" + JoinedText(item.content) == JoinedText(item.content);
    assert [] + Trees(item.content) == Trees(item.content);
  }

  lemma ElementRunsInThree(r: Reader, item: Item)
    requires item.Element?
    ensures Run(r, Events(item)) ==
            Step(Run(Step(r, Start(item.name, item.attributes)), AllEvents(item.content)), End)
  {
    var start, inside := Start(item.name, item.attributes), AllEvents(item.content);
    assert Events(item) == ([start] + inside) + [End];
    RunAppend(r, [start] + inside, [End]);
    RunAppend(r, [start], inside);
    RunOne(r, start);
    RunOne(Run(r, [start] + inside), End);
  }

  lemma BoundedInside(s: Stats, item: Item)
    requires item.Element? && Bounded(s, NOTHING)
    ensures var inner, w := StartStats(s, item.attributes), AllWeight(item.content);
            && (Bounded(s, Weight(item)) <==> BoundBroken(inner).None? && Bounded(inner, w))
            && Counted(inner, w).(depth := inner.depth - 1) == Counted(s, Weight(item))
            && (BoundBroken(inner).None? <==> Bounded(inner, NOTHING))
            && (BoundBroken(inner).Some? ==> Names(s, Weight(item), BoundBroken(inner).value))
            && forall why :: Names(inner, w, why) ==> Names(s, Weight(item), why)
  {
  }

  lemma EndStep(r: Reader, open: seq<Frame>, item: Item)
    requires item.Element? && (r.Reading? ==> r.open == open + [Opened(item)])
    ensures Step(r, End) ==
            if r.Refused? then r else EndOpen(open + [Opened(item)], r.stats.(depth := r.stats.depth - 1))
  {
  }

  /** Reading a whole element, also as the document element. */
  lemma {:induction false} ElementIsRead(open: seq<Frame>, s: Stats, item: Item)
    requires item.Element? && Bounded(s, NOTHING)
    ensures var r := Run(Reading(open, None, s), Events(item));
            if Bounded(s, Weight(item)) then r == EndOpen(open + [Opened(item)], Counted(s, Weight(item)))
            else r.Refused? && Names(s, Weight(item), r.why)
    decreases item, 0
  {
    var before, inside := Reading(open, None, s), AllEvents(item.content);
    var r := Step(before, Start(item.name, item.attributes));
    ElementRunsInThree(before, item);
    BoundedInside(s, item);
    if r.Refused? {
      RefusedStays(r.why, inside);
    } else {
      ContentIsRead(r.open, r.stats, item.content);
      FrameIsGrown(open, item);
      EndStep(Run(r, inside), open, item);
    }
  }

  /** A document is built as its tree, or refused exactly when it is beyond a bound, and
      then for one that it is beyond. */
  lemma DocumentIsRebuilt(document: Item)
    requires document.Element?
    ensures if Bounded(NOTHING, Weight(document))
            then ParseOf(Events(document)) == Built(TreeOf(document))
            else
              && ParseOf(Events(document)).Rejected?
              && Names(NOTHING, Weight(document), ParseOf(Events(document)).why)
  {
    ElementIsRead([], NOTHING, document);
  }

  // ------------------------------------------------------- any sequence of events

  function Starts(events: seq<Event>): nat {
    if events == [] then 0 else Starts(events[..|events| - 1]) + if events[|events| - 1].Start? then 1 else 0
  }

  function Ends(events: seq<Event>): nat {
    if events == [] then 0 else Ends(events[..|events| - 1]) + if events[|events| - 1].End? then 1 else 0
  }

  /** As long as nothing is refused, what is open are the starts less the ends, and a root is
      closed once there was a start and none is open. */
  lemma {:induction false} OpenByCounting(events: seq<Event>)
    ensures var r := Run(FRESH, events);
            r.Reading? ==>
              && |r.open| == Starts(events) - Ends(events)
              && (r.root.Some? <==> r.open == [] && Starts(events) > 0)
              && r.stats.elements == Starts(events) && r.stats.depth == |r.open|
  {
    if events != [] {
      OpenByCounting(events[..|events| - 1]);
    }
  }

  /** Events that are not refused build a root exactly when every start has its end and there
      is one; with an end missing they are not well formed, with no start they are no document. */
  lemma AnswerByCounting(events: seq<Event>)
    requires Run(FRESH, events).Reading?
    ensures ParseOf(events).Built? <==> Starts(events) == Ends(events) > 0
    ensures ParseOf(events) == Rejected(NotWellFormed) <==> Starts(events) > Ends(events)
    ensures ParseOf(events) == Rejected(NoDocumentElement) <==> Starts(events) == 0
  {
    OpenByCounting(events);
  }

  // ------------------------------------------------------------ the way back

  /** A tree written out again: its text first, then its children. */
  function Document(t: Tree): Item {
    Element(t.name, t.attributes, [Text(t.text)] + Documents(t.children))
  }

  function Documents(children: seq<Tree>): seq<Item> {
    if children == [] then [] else [Document(children[0])] + Documents(children[1..])
  }

  lemma {:induction false} WalkedIsRebuilt(t: Tree)
    ensures TreeOf(Document(t)) == t
  {
    var content := [Text(t.text)] + Documents(t.children);
    assert content[0] == Text(t.text) && content[1..] == Documents(t.children);
    AllWalkedAreRebuilt(t.children);
    assert JoinedText(content) == t.text + "" == t.text;
    assert Trees(content) == [] + Trees(content[1..]) == t.children;
  }

  lemma {:induction false} AllWalkedAreRebuilt(children: seq<Tree>)
    ensures Trees(Documents(children)) == children && JoinedText(Documents(children)) == ""
  {
    if children != [] {
      WalkedIsRebuilt(children[0]);
      AllWalkedAreRebuilt(children[1..]);
      assert Documents(children)[1..] == Documents(children[1..]);
    }
  }

  /** Building and walking are inverse: the events of a tree within the bounds
      build that tree again. */
  lemma WalkingBuildsTheTreeAgain(t: Tree)
    requires Bounded(NOTHING, Weight(Document(t)))
    ensures ParseOf(Events(Document(t))) == Built(t)
  {
    DocumentIsRebuilt(Document(t));
    WalkedIsRebuilt(t);
  }
}
