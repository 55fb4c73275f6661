/**
 Does a descendant paint where the click landed? The probe walks first-child and
 next-sibling links with an explicit stack and a budget; the walk is proved to be the
 recursive preorder of the subtree, cut off at the budget.
 */
module DescendantSweep {
  import opened Wrappers

  const CONTENT_PROBE_NODES: nat := 64
  const CONTENT_COVER_MIN: real := 0.25
  const ALPHA_EPSILON: real := 0.05

  // ---- one element ------------------------------------------------------------

  /** Opacity is None when it does not parse. Reading an element's style may throw. */
  datatype Elem =
    | Unreadable
    | Elem(opacity: Option<real>, paintsItself: bool, left: real, top: real, right: real, bottom: real)

  datatype View = View(area: real, width: real, height: real)

  function Min(a: real, b: real): real {
    if a <= b then a else b
  }

  function Max(a: real, b: real): real {
    if a <= b then b else a
  }

  function VisibleArea(e: Elem, v: View): real
    requires e.Elem?
  {
    Max(0.0, Min(e.right, v.width) - Max(e.left, 0.0)) * Max(0.0, Min(e.bottom, v.height) - Max(e.top, 0.0))
  }

  /** The element is not transparent, draws something, and is big enough on screen. */
  predicate Covers(e: Elem, v: View) {
    && e.Elem?
    && (e.opacity.Some? ==> e.opacity.value >= ALPHA_EPSILON)
    && e.paintsItself
    && VisibleArea(e, v) >= v.area * CONTENT_COVER_MIN
  }

  // ---- the subtree, as a tree and as links ------------------------------------

  datatype Dom = Dom(elem: Elem, children: seq<Dom>)

  function Descendants(children: seq<Dom>): seq<Elem> {
    if children == [] then []
    else [children[0].elem] + Descendants(children[0].children) + Descendants(children[1..])
  }

  /** An element as the walk sees it: `firstElementChild` and `nextElementSibling`. */
  datatype Node = Null | Node(elem: Elem, firstChild: Node, nextSibling: Node)

  function Linked(children: seq<Dom>): Node {
    if children == [] then Null
    else Node(children[0].elem, Linked(children[0].children), Linked(children[1..]))
  }

  function Preorder(n: Node): seq<Elem> {
    if n.Null? then [] else [n.elem] + Preorder(n.firstChild) + Preorder(n.nextSibling)
  }

  /** The links below an element lead through its descendants and nowhere else. */
  lemma {:induction false} LinksStayInside(children: seq<Dom>)
    ensures Preorder(Linked(children)) == Descendants(children)
  {
    if children != [] {
      LinksStayInside(children[0].children);
      LinksStayInside(children[1..]);
    }
  }

  // ---- the walk ---------------------------------------------------------------

  /** What is still to come when the walk stands at `node`: its subtree, its siblings, then the stack from the top. */
  function Ahead(node: Node, pending: seq<Node>): seq<Elem> {
    Preorder(node) + Stacked(pending)
  }

  function Stacked(pending: seq<Node>): seq<Elem> {
    if pending == [] then []
    else Preorder(pending[|pending| - 1]) + Stacked(pending[..|pending| - 1])
  }

  lemma Pushed(pending: seq<Node>, n: Node)
    ensures Stacked(pending + [n]) == Preorder(n) + Stacked(pending)
  {
    assert (pending + [n])[..|pending|] == pending;
  }

  /** Where the walk goes next. */
  lemma AheadUnfolds(node: Node, pending: seq<Node>)
    requires node.Node?
    ensures node.firstChild.Node? && node.nextSibling.Node? ==>
      Ahead(node, pending) == [node.elem] + Ahead(node.firstChild, pending + [node.nextSibling])
    ensures node.firstChild.Node? && node.nextSibling.Null? ==>
      Ahead(node, pending) == [node.elem] + Ahead(node.firstChild, pending)
    ensures node.firstChild.Null? && node.nextSibling.Node? ==>
      Ahead(node, pending) == [node.elem] + Ahead(node.nextSibling, pending)
    ensures node.firstChild.Null? && node.nextSibling.Null? && pending != [] ==>
      Ahead(node, pending) == [node.elem] + Ahead(pending[|pending| - 1], pending[..|pending| - 1])
    ensures node.firstChild.Null? && node.nextSibling.Null? && pending == [] ==>
      Ahead(node, pending) == [node.elem] + Ahead(Null, [])
  {
    var inner, later := Preorder(node.firstChild), Preorder(node.nextSibling);
    assert Ahead(node, pending) == [node.elem] + (inner + later + Stacked(pending));
    if node.firstChild.Node? && node.nextSibling.Node? {
      Pushed(pending, node.nextSibling);
      assert inner + later + Stacked(pending) == inner + (later + Stacked(pending));
    } else if node.firstChild.Node? {
      assert inner + later == inner;
    } else if node.nextSibling.Node? {
      assert inner + later == later;
    } else {
      assert inner + later + Stacked(pending) == Stacked(pending);
    }
  }

  lemma StartAhead(node: Node)
    ensures Ahead(node, []) == Preorder(node)
  {
  }

  lemma AheadOfNothing()
    ensures Ahead(Null, []) == []
  {
  }

  function AtMost(n: nat, budget: nat): nat {
    if n <= budget then n else budget
  }

  lemma NoneWithin(all: seq<Elem>, visited: seq<Elem>, ahead: seq<Elem>, view: View)
    requires all == visited + ahead && |visited| <= CONTENT_PROBE_NODES
    requires |visited| < CONTENT_PROBE_NODES ==> ahead == []
    requires forall i | 0 <= i < |visited| :: !Covers(visited[i], view)
    ensures visited <= all && |visited| == AtMost(|all|, CONTENT_PROBE_NODES)
    ensures forall i | 0 <= i < AtMost(|all|, CONTENT_PROBE_NODES) :: !Covers(all[i], view)
  {
    hide Covers;
    assert forall i | 0 <= i < |visited| :: all[i] == visited[i];
  }

  lemma OneMore(before: seq<Elem>, e: Elem, ahead: seq<Elem>)
    requires ahead != [] && ahead[0] == e
    ensures before + ahead == before + [e] + ahead[1..]
  {
  }

  lemma FoundWithin(all: seq<Elem>, before: seq<Elem>, e: Elem)
    requires before + [e] <= all && |before| < CONTENT_PROBE_NODES
    ensures |before| < AtMost(|all|, CONTENT_PROBE_NODES) && all[|before|] == e
  {
    assert (before + [e])[|before|] == e;
  }

  /**
   The sweep below an element with these children. `visited` is the order in which nodes
   were looked at: the preorder itself, never more than the budget, and all of it or all
   of the budget unless a covering node ended the walk.
   */
  method PaintsThroughDescendants(children: seq<Dom>, view: View) returns (found: bool, ghost visited: seq<Elem>)
    ensures visited <= Descendants(children) && |visited| <= CONTENT_PROBE_NODES
    ensures found <==>
      view.area > 0.0 &&
      exists i | 0 <= i < AtMost(|Descendants(children)|, CONTENT_PROBE_NODES) :: Covers(Descendants(children)[i], view)
    ensures found ==> visited != [] && Covers(visited[|visited| - 1], view)
    ensures !found && view.area > 0.0 ==> |visited| == AtMost(|Descendants(children)|, CONTENT_PROBE_NODES)
  {
    hide Preorder, Stacked, Ahead, Covers, Linked, Descendants;
    visited := [];
    if !(view.area > 0.0) { return false, visited; }
    var budget := CONTENT_PROBE_NODES;
    var pending: seq<Node> := [];
    var node := Linked(children);
    ghost var all := Descendants(children);
    LinksStayInside(children);
    AheadOfNothing();
    StartAhead(node);
    while node.Node? && budget > 0
      invariant 0 <= budget && |visited| + budget == CONTENT_PROBE_NODES
      invariant visited + Ahead(node, pending) == all
      invariant node.Null? ==> pending == []
      invariant forall n | n in pending :: n.Node?
      invariant forall i | 0 <= i < |visited| :: !Covers(visited[i], view)
      decreases budget
    {
      budget := budget - 1;
      ghost var before, e, ahead := visited, node.elem, Ahead(node, pending);
      AheadUnfolds(node, pending);
      OneMore(before, e, ahead);
      visited := visited + [e];
      if Covers(node.elem, view) {
        FoundWithin(all, before, node.elem);
        return true, visited;
      }
      if node.firstChild.Node? {
        if node.nextSibling.Node? {
          pending := pending + [node.nextSibling];
        }
        node := node.firstChild;
      } else if node.nextSibling.Node? {
        node := node.nextSibling;
      } else if pending != [] {
        node := pending[|pending| - 1];
        pending := pending[..|pending| - 1];
      } else {
        node := Null;
      }
      assert ahead[1..] == Ahead(node, pending);
    }
    found := false;
    NoneWithin(all, visited, Ahead(node, pending), view);
  }

  /** With a subtree that fits the budget the answer is exact. */
  lemma ExactWithinBudget(children: seq<Dom>, view: View)
    requires |Descendants(children)| <= CONTENT_PROBE_NODES
    ensures (exists i | 0 <= i < AtMost(|Descendants(children)|, CONTENT_PROBE_NODES) ::
               Covers(Descendants(children)[i], view)) <==>
            exists d | InSubtree(d, children) :: Covers(d.elem, view)
  {
    forall d | InSubtree(d, children) && Covers(d.elem, view)
      ensures exists i | 0 <= i < |Descendants(children)| :: Covers(Descendants(children)[i], view)
    {
      var i := PositionOf(d, children);
      assert Covers(Descendants(children)[i], view);
    }
    if i :| 0 <= i < |Descendants(children)| && Covers(Descendants(children)[i], view) {
      var d := DomAt(children, i);
      assert InSubtree(d, children) && Covers(d.elem, view);
    }
  }

  predicate InSubtree(d: Dom, children: seq<Dom>) {
    children != [] && (d == children[0] || InSubtree(d, children[0].children) || InSubtree(d, children[1..]))
  }

  lemma {:induction false} PositionOf(d: Dom, children: seq<Dom>) returns (i: nat)
    requires InSubtree(d, children)
    ensures i < |Descendants(children)| && Descendants(children)[i] == d.elem
  {
    if d == children[0] {
      i := 0;
    } else if InSubtree(d, children[0].children) {
      var j := PositionOf(d, children[0].children);
      i := 1 + j;
    } else {
      var j := PositionOf(d, children[1..]);
      i := 1 + |Descendants(children[0].children)| + j;
    }
  }

  lemma {:induction false} DomAt(children: seq<Dom>, i: nat) returns (d: Dom)
    requires i < |Descendants(children)|
    ensures InSubtree(d, children) && d.elem == Descendants(children)[i]
  {
    var inner := |Descendants(children[0].children)|;
    if i == 0 {
      d := children[0];
    } else if i <= inner {
      d := DomAt(children[0].children, i - 1);
    } else {
      d := DomAt(children[1..], i - 1 - inner);
    }
  }

  // ---- what covering means ----------------------------------------------------

  /** The part of an element that the viewport shows. */
  function Clipped(e: Elem, v: View): Elem
    requires e.Elem?
  {
    e.(left := Max(e.left, 0.0), top := Max(e.top, 0.0), right := Min(e.right, v.width), bottom := Min(e.bottom, v.height))
  }

  /** Only that part counts, and where there is none nothing is covered. */
  lemma OnlyTheVisiblePartCounts(e: Elem, v: View)
    requires e.Elem? && v.area > 0.0
    ensures Covers(e, v) <==> Covers(Clipped(e, v), v)
    ensures e.right <= 0.0 || e.bottom <= 0.0 || e.left >= v.width || e.top >= v.height || e.right <= e.left || e.bottom <= e.top ==>
      !Covers(e, v)
  {
  }

  lemma Grows(a: real, b: real, c: real, d: real)
    requires 0.0 <= a <= c && 0.0 <= b <= d
    ensures a * b <= c * d
  {
    assert a * b <= c * b;
    assert c * b <= c * d;
  }

  /** Whatever contains a covering element and is painted like it covers too. */
  lemma LargerCoversToo(e: Elem, v: View, left: real, top: real, right: real, bottom: real)
    requires Covers(e, v) && left <= e.left && top <= e.top && e.right <= right && e.bottom <= bottom
    ensures Covers(e.(left := left, top := top, right := right, bottom := bottom), v)
  {
    var w := Max(0.0, Min(e.right, v.width) - Max(e.left, 0.0));
    var h := Max(0.0, Min(e.bottom, v.height) - Max(e.top, 0.0));
    var w' := Max(0.0, Min(right, v.width) - Max(left, 0.0));
    var h' := Max(0.0, Min(bottom, v.height) - Max(top, 0.0));
    Grows(w, h, w', h');
  }

  /** A quarter of the clicked area is enough and less is not; so is an opacity of a twentieth, if it can be read. */
  lemma QuarterDecides(opacity: Option<real>, paints: bool, v: View, share: real)
    requires v.width > 0.0 && v.height > 0.0 && v.area == v.width * v.height && 0.0 <= share <= 1.0
    ensures Covers(Elem(opacity, paints, 0.0, 0.0, share * v.width, v.height), v) <==>
      paints && share * 4.0 >= 1.0 && (opacity.Some? ==> opacity.value * 20.0 >= 1.0)
  {
    assert share * v.width <= v.width;
    var shown := VisibleArea(Elem(opacity, paints, 0.0, 0.0, share * v.width, v.height), v);
    assert shown == share * v.width * v.height == share * v.area;
    assert v.area > 0.0;
    if share * 4.0 >= 1.0 { assert share * v.area >= 0.25 * v.area; }
    if share * 4.0 < 1.0 { assert share * v.area < 0.25 * v.area; }
  }

  /** An element whose style cannot be read covers nothing. */
  lemma UnreadableCoversNothing(v: View)
    ensures !Covers(Unreadable, v)
  {
  }
}
