/** Elements that point at each other, seen as values: cells numbered in the
    order they were created, where children come after their parent. */
module XmlArena {
  import opened Sums
  import opened XmlEvents

  datatype Cell = Cell(name: Name, attributes: map<string, string>, text: string, children: seq<nat>)

  predicate Forward(cells: seq<Cell>) {
    forall k, id :: 0 <= k < |cells| && id in cells[k].children ==> k < id < |cells|
  }

  /** Ids of cells after one cell. */
  predicate After(cells: seq<Cell>, above: nat, ids: seq<nat>) {
    above < |cells| && forall id :: id in ids ==> above < id < |cells|
  }

  lemma InPrefix(ids: seq<nat>, n: nat)
    requires n <= |ids|
    ensures forall id :: id in ids[..n] ==> id in ids
  {
    forall id | id in ids[..n] ensures id in ids {
      var q :| 0 <= q < n && ids[..n][q] == id;
      assert ids[q] == id;
    }
  }

  lemma ButLast(cells: seq<Cell>, above: nat, ids: seq<nat>)
    requires ids != [] && After(cells, above, ids)
    ensures After(cells, above, ids[..|ids| - 1]) && above < ids[|ids| - 1] < |cells|
    ensures forall id :: id in ids[..|ids| - 1] ==> id in ids
  {
    assert ids[|ids| - 1] in ids;
    InPrefix(ids, |ids| - 1);
  }

  /** The tree below a cell. */
  function Grow(cells: seq<Cell>, k: nat): Tree
    requires Forward(cells) && k < |cells|
    decreases |cells| - k, 0
  {
    var c := cells[k];
    Tree(c.name, c.attributes, c.text, GrowAll(cells, k, c.children))
  }

  function GrowAll(cells: seq<Cell>, above: nat, ids: seq<nat>): (trees: seq<Tree>)
    requires Forward(cells) && After(cells, above, ids)
    ensures |trees| == |ids|
    decreases |cells| - above - 1, |ids|
  {
    if ids == [] then []
    else
      ButLast(cells, above, ids);
      GrowAll(cells, above, ids[..|ids| - 1]) + [Grow(cells, ids[|ids| - 1])]
  }

  /** The last child of an open cell is the next open cell. */
  predicate LeadsOn(cells: seq<Cell>, open: seq<nat>, p: nat) {
    && p + 1 < |open| && open[p] < |cells| && cells[open[p]].children != []
    && cells[open[p]].children[|cells[open[p]].children| - 1] == open[p + 1]
  }

  /** The children of an open cell that are closed: all but the next open one. */
  function ClosedChildren(cells: seq<Cell>, open: seq<nat>, p: nat): seq<nat>
    requires p < |open| && open[p] < |cells|
  {
    var children := cells[open[p]].children;
    if p + 1 < |open| && children != [] then children[..|children| - 1] else children
  }

  /** The open cells form one path down, each the last child of the one before,
      and no other child is open. */
  predicate Path(cells: seq<Cell>, open: seq<nat>) {
    && (forall p :: 0 <= p < |open| ==> open[p] < |cells|)
    && (forall p, q :: 0 <= p < q < |open| ==> open[p] < open[q])
    && (forall p :: 0 <= p && p + 1 < |open| ==> LeadsOn(cells, open, p))
    && (forall p, id :: 0 <= p < |open| && id in ClosedChildren(cells, open, p) ==> id !in open)
    && (forall k, id :: 0 <= k < |cells| && k !in open && id in cells[k].children ==> id !in open)
  }

  /** The shape of an arena, one facet at a time: a proof that carries a shape
      along does not see its facts until it asks for them. */
  datatype Facet = ForwardFacet | PathFacet

  predicate Holds(facet: Facet, cells: seq<Cell>, open: seq<nat>) {
    match facet
    case ForwardFacet => Forward(cells)
    case PathFacet => Path(cells, open)
  }

  ghost predicate Shaped(cells: seq<Cell>, open: seq<nat>) {
    forall facet :: Holds(facet, cells, open)
  }

  predicate Whole(cells: seq<Cell>, open: seq<nat>) {
    Forward(cells) && Path(cells, open)
  }

  lemma ShapeOf(cells: seq<Cell>, open: seq<nat>)
    requires Shaped(cells, open)
    ensures Whole(cells, open)
  {
    assert Holds(ForwardFacet, cells, open) && Holds(PathFacet, cells, open);
  }

  lemma IsShaped(cells: seq<Cell>, open: seq<nat>)
    requires Whole(cells, open)
    ensures Shaped(cells, open)
  {
    forall facet ensures Holds(facet, cells, open) {
      match facet case ForwardFacet => case PathFacet =>
    }
  }

  lemma ClosedAreAfter(cells: seq<Cell>, open: seq<nat>, p: nat)
    requires Whole(cells, open) && p < |open|
    ensures After(cells, open[p], ClosedChildren(cells, open, p))
  {
    assert forall id :: id in ClosedChildren(cells, open, p) ==> id in cells[open[p]].children;
  }

  function FrameAt(cells: seq<Cell>, open: seq<nat>, p: nat): Frame
    requires Shaped(cells, open) && p < |open|
  {
    ShapeOf(cells, open);
    ClosedAreAfter(cells, open, p);
    var c := cells[open[p]];
    Frame(c.name, c.attributes, c.text, GrowAll(cells, open[p], ClosedChildren(cells, open, p)))
  }

  /** The tree of a cell in an arena of some shape. */
  function TreeAt(cells: seq<Cell>, open: seq<nat>, k: nat): Tree
    requires Shaped(cells, open) && k < |cells|
  {
    ShapeOf(cells, open);
    Grow(cells, k)
  }

  function Frames(cells: seq<Cell>, open: seq<nat>): (frames: seq<Frame>)
    requires Shaped(cells, open)
    ensures |frames| == |open| && forall p :: 0 <= p < |open| ==> frames[p] == FrameAt(cells, open, p)
  {
    seq(|open|, p requires 0 <= p < |open| => FrameAt(cells, open, p))
  }

  // ------------------------------------------------------------------ writes

  function AddText(cells: seq<Cell>, top: nat, text: string): seq<Cell>
    requires top < |cells|
  {
    cells[top := cells[top].(text := cells[top].text + text)]
  }

  function AddChild(cells: seq<Cell>, top: nat, id: nat): seq<Cell>
    requires top < |cells|
  {
    cells[top := cells[top].(children := cells[top].children + [id])]
  }

  function AddCell(cells: seq<Cell>, open: seq<nat>, name: Name, attributes: map<string, string>): seq<Cell>
    requires forall p :: 0 <= p < |open| ==> open[p] < |cells|
  {
    (if open == [] then cells else AddChild(cells, open[|open| - 1], |cells|)) + [Cell(name, attributes, "", [])]
  }

  /** Later cells agree with earlier ones wherever nothing is open. */
  predicate AgreeOffPath(cells: seq<Cell>, later: seq<Cell>, open: seq<nat>) {
    && |cells| <= |later|
    && (forall k :: 0 <= k < |cells| && k !in open ==> cells[k] == later[k])
  }

  lemma {:induction false} ClosedTreesStay(cells: seq<Cell>, later: seq<Cell>, open: seq<nat>, k: nat)
    requires Whole(cells, open) && Forward(later) && AgreeOffPath(cells, later, open)
    requires k < |cells| && k !in open
    ensures Grow(cells, k) == Grow(later, k)
    decreases |cells| - k, 0
  {
    ClosedForestsStay(cells, later, open, k, cells[k].children);
  }

  lemma {:induction false} ClosedForestsStay(
    cells: seq<Cell>, later: seq<Cell>, open: seq<nat>, above: nat, ids: seq<nat>)
    requires Whole(cells, open) && Forward(later) && AgreeOffPath(cells, later, open)
    requires After(cells, above, ids) && forall id :: id in ids ==> id !in open
    ensures After(later, above, ids) && GrowAll(cells, above, ids) == GrowAll(later, above, ids)
    decreases |cells| - above - 1, |ids|
  {
    if ids != [] {
      ButLast(cells, above, ids);
      ClosedForestsStay(cells, later, open, above, ids[..|ids| - 1]);
      assert ids[|ids| - 1] in ids;
      ClosedTreesStay(cells, later, open, ids[|ids| - 1]);
    }
  }

  lemma TextOfFrames(cells: seq<Cell>, open: seq<nat>, text: string)
    requires Whole(cells, open) && open != []
    ensures var later := AddText(cells, open[|open| - 1], text);
            forall p :: 0 <= p < |open| ==>
              later[open[p]].text == if p == |open| - 1 then cells[open[p]].text + text else cells[open[p]].text
  {
  }

  lemma ClosedFramesStay(cells: seq<Cell>, later: seq<Cell>, open: seq<nat>, p: nat)
    requires Shaped(cells, open) && Shaped(later, open) && AgreeOffPath(cells, later, open) && p < |open|
    requires open[p] < |cells| && ClosedChildren(later, open, p) == ClosedChildren(cells, open, p)
    ensures FrameAt(later, open, p).children == FrameAt(cells, open, p).children
  {
    ShapeOf(cells, open);
    ShapeOf(later, open);
    ClosedAreAfter(cells, open, p);
    ClosedForestsStay(cells, later, open, open[p], ClosedChildren(cells, open, p));
  }

  lemma TextKeepsShape(cells: seq<Cell>, later: seq<Cell>, open: seq<nat>)
    requires Whole(cells, open) && |later| == |cells|
    requires forall k :: 0 <= k < |cells| ==> later[k].children == cells[k].children
    ensures Whole(later, open)
    ensures forall p :: 0 <= p < |open| ==> ClosedChildren(later, open, p) == ClosedChildren(cells, open, p)
  {
    forall p | 0 <= p < |open|
      ensures ClosedChildren(later, open, p) == ClosedChildren(cells, open, p)
    {
      assert later[open[p]].children == cells[open[p]].children;
    }
    forall p | 0 <= p && p + 1 < |open| ensures LeadsOn(later, open, p) {
      assert LeadsOn(cells, open, p);
    }
  }

  /** Text goes to the innermost open element only. */
  lemma TextGrowsTheTop(cells: seq<Cell>, open: seq<nat>, text: string)
    requires Shaped(cells, open) && open != []
    ensures open[|open| - 1] < |cells|
    ensures var later := AddText(cells, open[|open| - 1], text);
            Shaped(later, open) && Frames(later, open) == Grown(Frames(cells, open), text, [])
  {
    ShapeOf(cells, open);
    var later := AddText(cells, open[|open| - 1], text);
    TextKeepsShape(cells, later, open);
    IsShaped(later, open);
    forall p | 0 <= p < |open|
      ensures FrameAt(later, open, p) ==
              FrameAt(cells, open, p).(text := later[open[p]].text)
    {
      ClosedFramesStay(cells, later, open, p);
    }
    var frame := FrameAt(cells, open, |open| - 1);
    assert frame.children + [] == frame.children;
    TextOfFrames(cells, open, text);
  }

  lemma StartKeepsClosedChildren(
    cells: seq<Cell>, open: seq<nat>, name: Name, attributes: map<string, string>, p: nat)
    requires Whole(cells, open) && p < |open|
    ensures var later := AddCell(cells, open, name, attributes);
            && open[p] < |later|
            && (p + 1 == |open| ==> later[open[p]].children == cells[open[p]].children + [|cells|])
            && (p + 1 < |open| ==> later[open[p]] == cells[open[p]])
            && ClosedChildren(later, open + [|cells|], p) == ClosedChildren(cells, open, p)
  {
  }

  lemma StartKeepsForward(cells: seq<Cell>, open: seq<nat>, name: Name, attributes: map<string, string>)
    requires Whole(cells, open)
    ensures Forward(AddCell(cells, open, name, attributes))
  {
  }

  lemma StartKeepsFrame(cells: seq<Cell>, open: seq<nat>, name: Name, attributes: map<string, string>, p: nat)
    requires Shaped(cells, open) && Whole(cells, open) && p < |open|
    requires Shaped(AddCell(cells, open, name, attributes), open + [|cells|])
    ensures FrameAt(AddCell(cells, open, name, attributes), open + [|cells|], p) == FrameAt(cells, open, p)
  {
    StartKeepsClosedChildren(cells, open, name, attributes, p);
    StartKeepsForward(cells, open, name, attributes);
    ClosedAreAfter(cells, open, p);
    ClosedForestsStay(
      cells, AddCell(cells, open, name, attributes), open, open[p], ClosedChildren(cells, open, p));
  }

  lemma StartChildrenAreClosed(
    cells: seq<Cell>, open: seq<nat>, name: Name, attributes: map<string, string>, p: nat, id: nat)
    requires Whole(cells, open) && p <= |open|
    requires var more := open + [|cells|];
             id in ClosedChildren(AddCell(cells, open, name, attributes), more, p)
    ensures id !in open + [|cells|]
  {
    if p < |open| {
      StartKeepsClosedChildren(cells, open, name, attributes, p);
      ClosedAreAfter(cells, open, p);
      assert id in ClosedChildren(cells, open, p);
    }
  }

  lemma StartOthersAreClosed(
    cells: seq<Cell>, open: seq<nat>, name: Name, attributes: map<string, string>, k: nat, id: nat)
    requires Whole(cells, open) && k <= |cells| && k !in open + [|cells|]
    requires id in AddCell(cells, open, name, attributes)[k].children
    ensures id !in open + [|cells|]
  {
    assert k != |cells| by {
      assert (open + [|cells|])[|open|] == |cells|;
    }
    assert k !in open by {
      InPrefix(open + [|cells|], |open|);
      assert (open + [|cells|])[..|open|] == open;
    }
    assert AddCell(cells, open, name, attributes)[k] == cells[k];
  }

  lemma StartKeepsShape(cells: seq<Cell>, open: seq<nat>, name: Name, attributes: map<string, string>)
    requires Whole(cells, open)
    ensures Whole(AddCell(cells, open, name, attributes), open + [|cells|])
  {
    var later, more := AddCell(cells, open, name, attributes), open + [|cells|];
    StartKeepsForward(cells, open, name, attributes);
    forall p | 0 <= p && p + 1 < |more| ensures LeadsOn(later, more, p) {
      StartKeepsClosedChildren(cells, open, name, attributes, p);
      assert p + 1 < |open| ==> LeadsOn(cells, open, p);
    }
    forall p, id | 0 <= p < |more| && id in ClosedChildren(later, more, p) ensures id !in more {
      StartChildrenAreClosed(cells, open, name, attributes, p, id);
    }
    forall k, id | 0 <= k < |later| && k !in more && id in later[k].children ensures id !in more {
      StartOthersAreClosed(cells, open, name, attributes, k, id);
    }
  }

  /** A start event opens a new last child of the innermost open element. */
  lemma StartOpensAFrame(cells: seq<Cell>, open: seq<nat>, name: Name, attributes: map<string, string>)
    requires Shaped(cells, open)
    ensures forall p :: 0 <= p < |open| ==> open[p] < |cells|
    ensures var later := AddCell(cells, open, name, attributes);
            && Shaped(later, open + [|cells|])
            && Frames(later, open + [|cells|]) == Frames(cells, open) + [Frame(name, attributes, "", [])]
  {
    ShapeOf(cells, open);
    var later := AddCell(cells, open, name, attributes);
    StartKeepsShape(cells, open, name, attributes);
    IsShaped(later, open + [|cells|]);
    forall p | 0 <= p < |open|
      ensures FrameAt(later, open + [|cells|], p) == FrameAt(cells, open, p)
    {
      StartKeepsFrame(cells, open, name, attributes, p);
    }
  }

  lemma TopIsItsFrame(cells: seq<Cell>, open: seq<nat>)
    requires Shaped(cells, open) && Whole(cells, open) && open != []
    ensures Grow(cells, open[|open| - 1]) == Close(FrameAt(cells, open, |open| - 1))
  {
  }

  /** A frame once the innermost element is closed: its parent gets the tree. */
  function FrameAfterEnd(cells: seq<Cell>, open: seq<nat>, p: nat): Frame
    requires Shaped(cells, open) && p + 1 < |open|
  {
    var frame := FrameAt(cells, open, p);
    if p + 2 == |open|
    then frame.(text := frame.text + "", children := frame.children + [Close(FrameAt(cells, open, p + 1))]) else frame
  }

  lemma GrownAfterEnd(cells: seq<Cell>, open: seq<nat>, p: nat)
    requires Shaped(cells, open) && p + 1 < |open|
    ensures var frames := Frames(cells, open);
            Grown(frames[..|open| - 1], "", [Close(frames[|open| - 1])])[p] == FrameAfterEnd(cells, open, p)
  {
  }

  lemma FramesAfterEnd(cells: seq<Cell>, open: seq<nat>)
    requires Shaped(cells, open) && open != [] && Shaped(cells, open[..|open| - 1])
    requires forall p :: 0 <= p < |open| - 1 ==> FrameAt(cells, open[..|open| - 1], p) == FrameAfterEnd(cells, open, p)
    ensures var rest, frames := open[..|open| - 1], Frames(cells, open);
            rest != [] ==> Frames(cells, rest) == Grown(frames[..|open| - 1], "", [Close(frames[|open| - 1])])
  {
    var rest, frames := open[..|open| - 1], Frames(cells, open);
    if rest != [] {
      forall p | 0 <= p < |rest|
        ensures FrameAt(cells, rest, p) == Grown(frames[..|open| - 1], "", [Close(frames[|open| - 1])])[p]
      {
        GrownAfterEnd(cells, open, p);
      }
    }
  }

  lemma LastOfForest(cells: seq<Cell>, above: nat, ids: seq<nat>, last: nat)
    requires Forward(cells) && After(cells, above, ids) && After(cells, above, ids + [last])
    ensures last < |cells| && GrowAll(cells, above, ids + [last]) == GrowAll(cells, above, ids) + [Grow(cells, last)]
  {
    assert (ids + [last])[|ids|] == last && (ids + [last])[..|ids|] == ids;
    assert last in ids + [last];
  }

  lemma EndClosedChildren(cells: seq<Cell>, open: seq<nat>, p: nat)
    requires Whole(cells, open) && p + 1 < |open|
    ensures ClosedChildren(cells, open[..|open| - 1], p) ==
            ClosedChildren(cells, open, p) + if p + 2 == |open| then [open[p + 1]] else []
  {
    assert LeadsOn(cells, open, p);
  }

  lemma EndKeepsFrame(cells: seq<Cell>, open: seq<nat>, p: nat)
    requires Shaped(cells, open) && Whole(cells, open) && p + 1 < |open|
    requires Shaped(cells, open[..|open| - 1]) && Whole(cells, open[..|open| - 1])
    ensures FrameAt(cells, open[..|open| - 1], p) == FrameAfterEnd(cells, open, p)
  {
    var rest, closed := open[..|open| - 1], ClosedChildren(cells, open, p);
    EndClosedChildren(cells, open, p);
    ClosedAreAfter(cells, rest, p);
    ClosedAreAfter(cells, open, p);
    assert rest[p] == open[p];
    if p + 2 == |open| {
      LastOfForest(cells, open[p], closed, open[p + 1]);
      TopIsItsFrame(cells, open);
      assert cells[open[p]].text + "" == cells[open[p]].text;
    } else {
      assert ClosedChildren(cells, rest, p) == closed + [] == closed;
    }
  }

  lemma EndKeepsShape(cells: seq<Cell>, open: seq<nat>)
    requires Whole(cells, open) && open != []
    ensures Whole(cells, open[..|open| - 1])
  {
    var rest, top := open[..|open| - 1], open[|open| - 1];
    InPrefix(open, |open| - 1);
    assert top !in rest;
    forall p | 0 <= p && p + 1 < |rest| ensures LeadsOn(cells, rest, p) {
      assert LeadsOn(cells, open, p);
    }
    forall p, id | 0 <= p < |rest| && id in ClosedChildren(cells, rest, p) ensures id !in rest {
      EndClosedChildren(cells, open, p);
      assert id in ClosedChildren(cells, open, p) || id == top;
    }
    forall k, id | 0 <= k < |cells| && k !in rest && id in cells[k].children ensures id !in rest {
      if k == top {
        assert id in ClosedChildren(cells, open, |open| - 1);
      } else {
        assert k !in open;
      }
    }
  }

  /** An end event closes the innermost open element into its parent. */
  lemma EndClosesAFrame(cells: seq<Cell>, open: seq<nat>)
    requires Shaped(cells, open) && open != []
    ensures open[|open| - 1] < |cells|
    ensures var rest := open[..|open| - 1];
            var closed := Close(Frames(cells, open)[|open| - 1]);
            && Shaped(cells, rest) && TreeAt(cells, rest, open[|open| - 1]) == closed
            && (rest != [] ==> Frames(cells, rest) == Grown(Frames(cells, open)[..|open| - 1], "", [closed]))
  {
    ShapeOf(cells, open);
    var rest := open[..|open| - 1];
    EndKeepsShape(cells, open);
    IsShaped(cells, rest);
    TopIsItsFrame(cells, open);
    forall p | 0 <= p < |rest|
      ensures FrameAt(cells, rest, p) == FrameAfterEnd(cells, open, p)
    {
      EndKeepsFrame(cells, open, p);
    }
    FramesAfterEnd(cells, open);
  }

  // ------------------------------------------------------- the arena as state

  /** An arena, its path and its root as a state of the event machine. */
  function ViewOf(cells: seq<Cell>, open: seq<nat>, root: Option<nat>, stats: Stats): Reader
    requires Shaped(cells, open) && (root.Some? ==> root.value < |cells|)
  {
    Reading(Frames(cells, open), if open == [] && root.Some? then Some(TreeAt(cells, open, root.value))
        else None, stats)
  }

  lemma ViewAfterStart(
    cells: seq<Cell>, open: seq<nat>, root: Option<nat>, stats: Stats, name: Name, attributes: map<string, string>)
    requires Shaped(cells, open) && (root.Some? ==> root.value < |cells|)
    requires BoundBroken(StartStats(stats, attributes)).None?
    ensures forall p :: 0 <= p < |open| ==> open[p] < |cells|
    ensures var later := AddCell(cells, open, name, attributes);
            var newRoot := if open == [] then Some(|cells|) else root;
            && Shaped(later, open + [|cells|])
            && ViewOf(later, open + [|cells|], newRoot, StartStats(stats, attributes)) ==
               AfterStart(ViewOf(cells, open, root, stats), name, attributes)
  {
    StartOpensAFrame(cells, open, name, attributes);
  }

  lemma ViewAfterEnd(cells: seq<Cell>, open: seq<nat>, stats: Stats)
    requires Shaped(cells, open) && open != [] && open[0] < |cells|
    ensures var rest := open[..|open| - 1];
            && Shaped(cells, rest)
            && ViewOf(cells, rest, Some(open[0]), stats.(depth := stats.depth - 1)) ==
               AfterEnd(ViewOf(cells, open, Some(open[0]), stats))
  {
    EndClosesAFrame(cells, open);
  }

  lemma ViewAfterText(
    cells: seq<Cell>, open: seq<nat>, root: Option<nat>, stats: Stats, text: string, before: Reader)
    requires Shaped(cells, open) && open != [] && (root.Some? ==> root.value < |cells|)
    requires stats.textBytes + Utf8Size(text) <= MAX_TEXT_BYTES && before == ViewOf(cells, open, root, stats)
    ensures open[|open| - 1] < |cells|
    ensures var later := AddText(cells, open[|open| - 1], text);
            && Shaped(later, open)
            && ViewOf(later, open, root, stats.(textBytes := stats.textBytes + Utf8Size(text))) ==
               AfterText(before, text)
  {
    TextGrowsTheTop(cells, open, text);
  }
}
