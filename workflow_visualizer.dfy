/**
 * The workflow graph view: a list of positioned nodes that the user can
 * drag, and the arrows drawn between them for each action.
 *
 * The component's state is the node list, the id of the node being dragged
 * (or none) and the drag offset.  The three mouse handlers are modelled as
 * transition functions on that state (AfterMouseDown, AfterMouseMove,
 * AfterMouseUp) and as the methods of the class Visualizer, which updates
 * its fields in place and is proved to follow those functions.
 */
module WorkflowVisualizer {
  import opened Wrappers

  /** A point in the container's local pixel space, origin top-left. */
  datatype Point = Point(x: int, y: int)

  function Minus(a: Point, b: Point): Point {
    Point(a.x - b.x, a.y - b.y)
  }

  datatype NodeType = Llm | Flow | Batch | Async

  datatype Node = Node(id: string, kind: NodeType, caption: string, position: Point)

  /** A directed, labelled edge between two node ids. */
  datatype Action = Action(from: string, to: string, caption: string)

  /** One drawn arrow: its React key (the index of its action) and its two end points. */
  datatype Line = Line(key: nat, from: Point, to: Point)

  // ---------------------------------------------------------------------
  // Looking nodes up by id
  // ---------------------------------------------------------------------

  ghost predicate HasId(nodes: seq<Node>, id: string) {
    exists i :: 0 <= i < |nodes| && nodes[i].id == id
  }

  /** An action resolves when both of its end points name some node. */
  ghost predicate Resolves(nodes: seq<Node>, a: Action) {
    HasId(nodes, a.from) && HasId(nodes, a.to)
  }

  /** Node number i is the first node of the list whose id is `id`. */
  ghost predicate FirstWithId(nodes: seq<Node>, id: string, i: int) {
    0 <= i < |nodes| && nodes[i].id == id &&
    forall j :: 0 <= j < i ==> nodes[j].id != id
  }

  lemma FirstWithIdUnique(nodes: seq<Node>, id: string, i: int, j: int)
    requires FirstWithId(nodes, id, i) && FirstWithId(nodes, id, j)
    ensures i == j
  {
  }

  /** `nodes.find(n => n.id === id)`: the first node carrying `id`, if any. */
  function Find(nodes: seq<Node>, id: string): Option<Node> {
    if |nodes| == 0 then None
    else if nodes[0].id == id then Some(nodes[0])
    else Find(nodes[1..], id)
  }

  /** The lookup finds nothing exactly when no node has the id, and otherwise a first node with it. */
  lemma {:induction false} FindSpec(nodes: seq<Node>, id: string)
    ensures Find(nodes, id).None? <==> !HasId(nodes, id)
    ensures Find(nodes, id).Some? ==>
      exists i :: FirstWithId(nodes, id, i) && nodes[i] == Find(nodes, id).value
  {
    if |nodes| == 0 {
    } else if nodes[0].id == id {
      assert FirstWithId(nodes, id, 0);
    } else {
      var tail := nodes[1..];
      FindSpec(tail, id);
      assert HasId(tail, id) <==> HasId(nodes, id) by {
        if HasId(nodes, id) {
          var i :| 0 <= i < |nodes| && nodes[i].id == id;
          assert tail[i - 1].id == id;
        }
      }
      if Find(tail, id).Some? {
        var i :| FirstWithId(tail, id, i) && tail[i] == Find(tail, id).value;
        assert FirstWithId(nodes, id, i + 1);
      }
    }
  }

  /** The lookup returns the first node carrying the id. */
  lemma FindFirst(nodes: seq<Node>, id: string, i: int)
    requires FirstWithId(nodes, id, i)
    ensures Find(nodes, id) == Some(nodes[i])
  {
    FindSpec(nodes, id);
    assert HasId(nodes, id);
    var k :| FirstWithId(nodes, id, k) && nodes[k] == Find(nodes, id).value;
    FirstWithIdUnique(nodes, id, i, k);
  }

  // ---------------------------------------------------------------------
  // Repositioning
  // ---------------------------------------------------------------------

  /** The two lists hold the same nodes in the same order, up to positions. */
  ghost predicate SameShape(a: seq<Node>, b: seq<Node>) {
    |a| == |b| &&
    forall i :: 0 <= i < |a| ==>
      a[i].id == b[i].id && a[i].kind == b[i].kind && a[i].caption == b[i].caption
  }

  /**
   * The element-wise map of the mouse-move handler: every node whose id is
   * `id` is placed at `p`, every other node is kept as it is.
   */
  function Moved(nodes: seq<Node>, id: string, p: Point): (r: seq<Node>)
    ensures SameShape(r, nodes)
    ensures forall i :: 0 <= i < |nodes| && nodes[i].id == id ==> r[i].position == p
    ensures forall i :: 0 <= i < |nodes| && nodes[i].id != id ==> r[i] == nodes[i]
  {
    if |nodes| == 0 then []
    else
      var head := if nodes[0].id == id then nodes[0].(position := p) else nodes[0];
      var tail := Moved(nodes[1..], id, p);
      assert forall i :: 1 <= i < |nodes| ==> ([head] + tail)[i] == tail[i - 1];
      [head] + tail
  }

  /** A second move of the same id overrides the first one entirely. */
  lemma MovedLastWins(nodes: seq<Node>, id: string, p: Point, q: Point)
    ensures Moved(Moved(nodes, id, p), id, q) == Moved(nodes, id, q)
  {
  }

  // ---------------------------------------------------------------------
  // The drag state machine
  // ---------------------------------------------------------------------

  /** The component state: `nodes`, `draggingNode` and `offset`. */
  datatype Canvas = Canvas(nodes: seq<Node>, dragging: Option<string>, offset: Point)

  /** The state right after the component is mounted with `nodes`. */
  function Mounted(nodes: seq<Node>): Canvas {
    Canvas(nodes, None, Point(0, 0))
  }

  /**
   * JavaScript truthiness of `draggingNode`: both null and the empty
   * string are falsy, so a node whose id is "" is never moved.
   */
  predicate IsDragging(c: Canvas) {
    c.dragging.Some? && c.dragging.value != ""
  }

  /**
   * Mouse-down on node `id` at pointer `p` (container-local): record the id
   * and the pointer-minus-position offset of the first node with that id;
   * do nothing when no node has that id.  A drag already in progress is
   * replaced.
   */
  function AfterMouseDown(c: Canvas, id: string, p: Point): (r: Canvas)
    ensures r.nodes == c.nodes
    ensures !HasId(c.nodes, id) ==> r == c
    ensures HasId(c.nodes, id) ==>
      r.dragging == Some(id) &&
      exists i :: FirstWithId(c.nodes, id, i) && r.offset == Minus(p, c.nodes[i].position)
  {
    FindSpec(c.nodes, id);
    match Find(c.nodes, id)
    case None => c
    case Some(n) => c.(dragging := Some(id), offset := Minus(p, n.position))
  }

  /**
   * Mouse-move to pointer `p`: while dragging, every node carrying the
   * dragged id goes to pointer minus offset; otherwise nothing changes.
   */
  function AfterMouseMove(c: Canvas, p: Point): (r: Canvas)
    ensures r.dragging == c.dragging && r.offset == c.offset
    ensures SameShape(r.nodes, c.nodes)
    ensures !IsDragging(c) ==> r == c
    ensures IsDragging(c) ==>
      forall i :: 0 <= i < |c.nodes| ==>
        r.nodes[i].position ==
          if c.nodes[i].id == c.dragging.value then Minus(p, c.offset) else c.nodes[i].position
  {
    if !IsDragging(c) then c
    else c.(nodes := Moved(c.nodes, c.dragging.value, Minus(p, c.offset)))
  }

  /** Mouse-up: the drag ends; nodes and offset stay as they are. */
  function AfterMouseUp(c: Canvas): (r: Canvas)
    ensures r.nodes == c.nodes && r.offset == c.offset
    ensures r.dragging == None
    ensures !IsDragging(r)
  {
    c.(dragging := None)
  }

  /**
   * No jump: pressing on a node and moving the pointer to the very point
   * where it was pressed leaves that node exactly where it was.  Any other
   * node sharing its id lands on the same spot; nodes with other ids are
   * untouched.
   */
  lemma NoJump(c: Canvas, id: string, p: Point, i: int)
    requires FirstWithId(c.nodes, id, i)
    ensures AfterMouseMove(AfterMouseDown(c, id, p), p).nodes[i] == c.nodes[i]
  {
    PressThenMoveInPlace(c, id, p, i);
  }

  /**
   * Pressing on the first node with `id` and moving to the same pointer:
   * when the id is truthy, every node with that id lands on the pressed
   * node's position and every other node is untouched; otherwise nothing
   * moves at all.
   */
  lemma PressThenMoveInPlace(c: Canvas, id: string, p: Point, i: int)
    requires FirstWithId(c.nodes, id, i)
    ensures id != "" ==>
      AfterMouseMove(AfterMouseDown(c, id, p), p).nodes == Moved(c.nodes, id, c.nodes[i].position)
    ensures id == "" ==> AfterMouseMove(AfterMouseDown(c, id, p), p).nodes == c.nodes
  {
    var d := AfterMouseDown(c, id, p);
    assert HasId(c.nodes, id);
    var k :| FirstWithId(c.nodes, id, k) && d.offset == Minus(p, c.nodes[k].position);
    FirstWithIdUnique(c.nodes, id, i, k);
    assert Minus(p, d.offset) == c.nodes[i].position;
  }

  /**
   * The handler reads the node list captured when the drag started; since
   * each move overwrites the dragged node's position outright, a run of
   * moves ends where the last one alone would have put it.
   */
  lemma MoveLastWins(c: Canvas, p: Point, q: Point)
    ensures AfterMouseMove(AfterMouseMove(c, p), q) == AfterMouseMove(c, q)
  {
    if IsDragging(c) {
      MovedLastWins(c.nodes, c.dragging.value, Minus(p, c.offset), Minus(q, c.offset));
    }
  }

  /** A second mouse-down on an existing node replaces the first drag outright. */
  lemma MouseDownReplacesDrag(c: Canvas, a: string, p: Point, b: string, q: Point)
    requires HasId(c.nodes, b)
    ensures AfterMouseDown(AfterMouseDown(c, a, p), b, q) == AfterMouseDown(c, b, q)
  {
  }

  /** Mouse-up is idempotent, and once released, moving the pointer changes nothing. */
  lemma ReleaseEndsDrag(c: Canvas, p: Point)
    ensures AfterMouseUp(AfterMouseUp(c)) == AfterMouseUp(c)
    ensures AfterMouseMove(AfterMouseUp(c), p) == AfterMouseUp(c)
  {
  }

  /** One pointer event delivered to the component. */
  datatype Event = Press(id: string, at: Point) | MoveTo(at: Point) | Release

  function Step(c: Canvas, e: Event): Canvas {
    match e
    case Press(id, p) => AfterMouseDown(c, id, p)
    case MoveTo(p) => AfterMouseMove(c, p)
    case Release => AfterMouseUp(c)
  }

  /** The state after a whole run of events, delivered in order. */
  function Run(c: Canvas, events: seq<Event>): Canvas
    decreases |events|
  {
    if |events| == 0 then c else Run(Step(c, events[0]), events[1..])
  }

  /**
   * Whatever the events, the node list keeps its length, order, ids, types
   * and captions: the only write to it is the element-wise position update.
   */
  lemma {:induction false} RunKeepsShape(c: Canvas, events: seq<Event>)
    ensures SameShape(Run(c, events).nodes, c.nodes)
    decreases |events|
  {
    if |events| > 0 {
      var next := Step(c, events[0]);
      assert SameShape(next.nodes, c.nodes);
      RunKeepsShape(next, events[1..]);
    }
  }

  // ---------------------------------------------------------------------
  // Edge resolution
  // ---------------------------------------------------------------------

  /** The element `actions.map` produces for action number `key`: a line, or null for a dangling edge. */
  function ActionLine(nodes: seq<Node>, a: Action, key: nat): Option<Line> {
    match (Find(nodes, a.from), Find(nodes, a.to))
    case (Some(f), Some(t)) => Some(Line(key, f.position, t.position))
    case _ => None
  }

  /** An action yields a line exactly when both of its end points name a node. */
  lemma ActionLineSpec(nodes: seq<Node>, a: Action, key: nat)
    ensures ActionLine(nodes, a, key).Some? <==> Resolves(nodes, a)
  {
    FindSpec(nodes, a.from);
    FindSpec(nodes, a.to);
  }

  /** An action whose end points are first found at nodes i and j is drawn from node i to node j. */
  lemma ActionLineAt(nodes: seq<Node>, a: Action, key: nat, i: int, j: int)
    requires FirstWithId(nodes, a.from, i) && FirstWithId(nodes, a.to, j)
    ensures ActionLine(nodes, a, key) == Some(Line(key, nodes[i].position, nodes[j].position))
  {
    FindFirst(nodes, a.from, i);
    FindFirst(nodes, a.to, j);
  }

  /** The array `actions.map(...)` returns, nulls included, for the actions numbered from `base` on. */
  function ElementsFrom(nodes: seq<Node>, actions: seq<Action>, base: nat): seq<Option<Line>>
    decreases |actions|
  {
    if |actions| == 0 then []
    else [ActionLine(nodes, actions[0], base)] + ElementsFrom(nodes, actions[1..], base + 1)
  }

  function ActionElements(nodes: seq<Node>, actions: seq<Action>): seq<Option<Line>> {
    ElementsFrom(nodes, actions, 0)
  }

  /** The lines React draws: the non-null elements, in order. */
  function Drawn(elements: seq<Option<Line>>): seq<Line> {
    if |elements| == 0 then []
    else (if elements[0].Some? then [elements[0].value] else []) + Drawn(elements[1..])
  }

  /**
   * Edge resolution draws exactly one line per action whose both end
   * points name a node, in the order of the actions, each from the first
   * matching from-node to the first matching to-node; dangling actions
   * are dropped silently.
   */
  function RenderedLines(nodes: seq<Node>, actions: seq<Action>): seq<Line> {
    Drawn(ActionElements(nodes, actions))
  }

  /** Every element drawn comes from a non-null element keyed by its index. */
  lemma {:induction false} DrawnSound(s: seq<Option<Line>>, base: nat)
    requires forall j :: 0 <= j < |s| && s[j].Some? ==> s[j].value.key == base + j
    ensures |Drawn(s)| <= |s|
    ensures forall k :: 0 <= k < |Drawn(s)| ==>
      base <= Drawn(s)[k].key < base + |s| && s[Drawn(s)[k].key - base] == Some(Drawn(s)[k])
  {
    if |s| > 0 {
      var rest := Drawn(s[1..]);
      DrawnSound(s[1..], base + 1);
      var pre := if s[0].Some? then [s[0].value] else [];
      assert Drawn(s) == pre + rest;
      forall k | |pre| <= k < |Drawn(s)|
        ensures base <= Drawn(s)[k].key < base + |s| && s[Drawn(s)[k].key - base] == Some(Drawn(s)[k])
      {
        var line := rest[k - |pre|];
        assert Drawn(s)[k] == line;
        assert s[1..][line.key - (base + 1)] == s[line.key - base];
      }
    }
  }

  /** The drawn elements keep the order of the elements they come from. */
  lemma {:induction false} DrawnOrdered(s: seq<Option<Line>>, base: nat)
    requires forall j :: 0 <= j < |s| && s[j].Some? ==> s[j].value.key == base + j
    ensures forall k, l :: 0 <= k < l < |Drawn(s)| ==> Drawn(s)[k].key < Drawn(s)[l].key
  {
    if |s| > 0 {
      var rest := Drawn(s[1..]);
      DrawnOrdered(s[1..], base + 1);
      DrawnSound(s[1..], base + 1);
      var pre := if s[0].Some? then [s[0].value] else [];
      assert Drawn(s) == pre + rest;
    }
  }

  /** Every non-null element is drawn. */
  lemma {:induction false} DrawnComplete(s: seq<Option<Line>>, base: nat)
    requires forall j :: 0 <= j < |s| && s[j].Some? ==> s[j].value.key == base + j
    ensures forall j :: 0 <= j < |s| && s[j].Some? ==>
      exists k :: 0 <= k < |Drawn(s)| && Drawn(s)[k].key == base + j
  {
    if |s| > 0 {
      var rest := Drawn(s[1..]);
      DrawnComplete(s[1..], base + 1);
      var pre := if s[0].Some? then [s[0].value] else [];
      assert Drawn(s) == pre + rest;
      forall j | 0 <= j < |s| && s[j].Some?
        ensures exists k :: 0 <= k < |Drawn(s)| && Drawn(s)[k].key == base + j
      {
        if j == 0 {
          assert Drawn(s)[0].key == base;
        } else {
          assert s[1..][j - 1] == s[j];
          var k :| 0 <= k < |rest| && rest[k].key == base + 1 + (j - 1);
          assert Drawn(s)[|pre| + k] == rest[k];
        }
      }
    }
  }

  /** Element j of the mapped array is the element for action j, keyed by j. */
  lemma {:induction false} ElementsFromKeyed(nodes: seq<Node>, actions: seq<Action>, base: nat)
    ensures |ElementsFrom(nodes, actions, base)| == |actions|
    ensures forall j :: 0 <= j < |actions| ==>
      ElementsFrom(nodes, actions, base)[j] == ActionLine(nodes, actions[j], base + j)
    decreases |actions|
  {
    if |actions| > 0 {
      ElementsFromKeyed(nodes, actions[1..], base + 1);
      forall j | 1 <= j < |actions|
        ensures ElementsFrom(nodes, actions, base)[j] == ActionLine(nodes, actions[j], base + j)
      {
        assert actions[1..][j - 1] == actions[j];
      }
    }
  }

  lemma ActionElementsKeyed(nodes: seq<Node>, actions: seq<Action>)
    ensures |ActionElements(nodes, actions)| == |actions|
    ensures forall j :: 0 <= j < |actions| ==>
      ActionElements(nodes, actions)[j] == ActionLine(nodes, actions[j], j)
    ensures forall j :: 0 <= j < |actions| && ActionElements(nodes, actions)[j].Some? ==>
      ActionElements(nodes, actions)[j].value.key == j
  {
    ElementsFromKeyed(nodes, actions, 0);
  }

  /**
   * Edge resolution draws at most one line per action, in the order of the
   * actions, and each drawn line is the resolved line of its action (see
   * `ActionLineSpec` for its end points).
   */
  lemma RenderedLinesInOrder(nodes: seq<Node>, actions: seq<Action>)
    ensures |RenderedLines(nodes, actions)| <= |actions|
    ensures forall k :: 0 <= k < |RenderedLines(nodes, actions)| ==>
      RenderedLines(nodes, actions)[k].key < |actions| &&
      Some(RenderedLines(nodes, actions)[k]) ==
        ActionLine(nodes, actions[RenderedLines(nodes, actions)[k].key], RenderedLines(nodes, actions)[k].key)
    ensures forall k, l :: 0 <= k < l < |RenderedLines(nodes, actions)| ==>
      RenderedLines(nodes, actions)[k].key < RenderedLines(nodes, actions)[l].key
  {
    ActionElementsKeyed(nodes, actions);
    DrawnSound(ActionElements(nodes, actions), 0);
    DrawnOrdered(ActionElements(nodes, actions), 0);
  }

  /** Element i of the mapped array is non-null exactly when action i resolves. */
  lemma ActionElementsResolve(nodes: seq<Node>, actions: seq<Action>)
    ensures |ActionElements(nodes, actions)| == |actions|
    ensures forall i :: 0 <= i < |actions| ==>
      (ActionElements(nodes, actions)[i].Some? <==> Resolves(nodes, actions[i]))
  {
    ActionElementsKeyed(nodes, actions);
    forall i | 0 <= i < |actions|
      ensures ActionElements(nodes, actions)[i].Some? <==> Resolves(nodes, actions[i])
    {
      ActionLineSpec(nodes, actions[i], i);
    }
  }

  /** An action gets a drawn line exactly when it resolves; dangling actions are dropped silently. */
  lemma RenderedLinesKeepResolved(nodes: seq<Node>, actions: seq<Action>)
    ensures forall i :: 0 <= i < |actions| ==>
      (Resolves(nodes, actions[i]) <==>
       exists k :: 0 <= k < |RenderedLines(nodes, actions)| && RenderedLines(nodes, actions)[k].key == i)
  {
    var s := ActionElements(nodes, actions);
    var r := RenderedLines(nodes, actions);
    assert r == Drawn(s);
    ActionElementsKeyed(nodes, actions);
    ActionElementsResolve(nodes, actions);
    DrawnSound(s, 0);
    DrawnComplete(s, 0);
    forall i | 0 <= i < |actions|
      ensures Resolves(nodes, actions[i]) <==> exists k :: 0 <= k < |r| && r[k].key == i
    {
      if exists k :: 0 <= k < |r| && r[k].key == i {
        var k :| 0 <= k < |r| && r[k].key == i;
        assert s[i] == Some(r[k]);
      }
    }
  }

  /** When no element is null, every element is drawn, in order. */
  lemma {:induction false} DrawnAllPresent(s: seq<Option<Line>>)
    requires forall j :: 0 <= j < |s| ==> s[j].Some?
    ensures |Drawn(s)| == |s|
    ensures forall k :: 0 <= k < |s| ==> Drawn(s)[k] == s[k].value
  {
    if |s| > 0 {
      DrawnAllPresent(s[1..]);
      assert Drawn(s) == [s[0].value] + Drawn(s[1..]);
    }
  }

  /** When no action dangles, one line is drawn per action, in action order. */
  lemma AllResolvedDrawsAll(nodes: seq<Node>, actions: seq<Action>)
    requires forall i :: 0 <= i < |actions| ==> Resolves(nodes, actions[i])
    ensures |RenderedLines(nodes, actions)| == |actions|
    ensures forall k :: 0 <= k < |actions| ==>
      Some(RenderedLines(nodes, actions)[k]) == ActionLine(nodes, actions[k], k)
  {
    ActionElementsKeyed(nodes, actions);
    ActionElementsResolve(nodes, actions);
    DrawnAllPresent(ActionElements(nodes, actions));
  }

  // ---------------------------------------------------------------------
  // The component as an object updated in place
  // ---------------------------------------------------------------------

  class Visualizer {
    var nodes: seq<Node>
    var dragging: Option<string>
    var offset: Point
    /** The node list the component was mounted with. */
    ghost const initial: seq<Node>

    function State(): Canvas
      reads this
    {
      Canvas(nodes, dragging, offset)
    }

    /** Ids, types, captions and order of the nodes never change; only positions do. */
    ghost predicate Valid()
      reads this
    {
      SameShape(nodes, initial)
    }

    constructor (initialNodes: seq<Node>)
      ensures Valid() && initial == initialNodes
      ensures State() == Mounted(initialNodes)
    {
      nodes := initialNodes;
      dragging := None;
      offset := Point(0, 0);
      initial := initialNodes;
    }

    method MouseDown(id: string, p: Point)
      requires Valid()
      modifies this
      ensures Valid()
      ensures State() == AfterMouseDown(old(State()), id, p)
    {
      var node := Find(nodes, id);
      if node.None? {
        return;
      }
      dragging := Some(id);
      offset := Minus(p, node.value.position);
    }

    method MouseMove(p: Point)
      requires Valid()
      modifies this
      ensures Valid()
      ensures State() == AfterMouseMove(old(State()), p)
    {
      if dragging.None? || dragging.value == "" {
        return;
      }
      var target := Minus(p, offset);
      nodes := Moved(nodes, dragging.value, target);
    }

    method MouseUp()
      requires Valid()
      modifies this
      ensures Valid()
      ensures State() == AfterMouseUp(old(State()))
    {
      dragging := None;
    }
  }
}
