/**
 * The sample graph the workflow page hands to the visualizer, and worked
 * examples of dragging and edge resolution on small graphs.
 */
module WorkflowPage {
  import opened Wrappers
  import opened WorkflowVisualizer

  /** The four sample nodes, in the page's order. */
  function SampleNodes(): seq<Node> {
    [ Node("1", Llm, "Parse Input", Point(150, 150)),
      Node("2", Flow, "Process Data", Point(350, 150)),
      Node("3", Batch, "Batch Analysis", Point(550, 150)),
      Node("4", Async, "Async Tasks", Point(350, 300)) ]
  }

  /** The three sample actions. */
  function SampleActions(): seq<Action> {
    [ Action("1", "2", "Send parsed data"),
      Action("2", "3", "Process batch"),
      Action("2", "4", "Trigger async") ]
  }

  /** Every sample action resolves, so the sample draws all three arrows. */
  lemma SampleGraphFullyDrawn(ns: seq<Node>, acts: seq<Action>)
    requires ns == SampleNodes() && acts == SampleActions()
    ensures RenderedLines(ns, acts) ==
      [ Line(0, Point(150, 150), Point(350, 150)),
        Line(1, Point(350, 150), Point(550, 150)),
        Line(2, Point(350, 150), Point(350, 300)) ]
  {
    var e := ActionElements(ns, acts);
    ActionElementsKeyed(ns, acts);
    ActionLineAt(ns, acts[0], 0, 0, 1);
    ActionLineAt(ns, acts[1], 1, 1, 2);
    ActionLineAt(ns, acts[2], 2, 1, 3);
    DrawnAllPresent(e);
  }

  /** Nodes A and B with edges A to B and A to C: only the line from A to B is drawn. */
  lemma DanglingEdgeDropped()
    ensures RenderedLines([Node("A", Llm, "", Point(0, 0)), Node("B", Flow, "", Point(10, 0))],
                          [Action("A", "B", "x"), Action("A", "C", "y")]) ==
            [Line(0, Point(0, 0), Point(10, 0))]
  {
    var ns := [Node("A", Llm, "", Point(0, 0)), Node("B", Flow, "", Point(10, 0))];
    var acts := [Action("A", "B", "x"), Action("A", "C", "y")];
    ActionElementsKeyed(ns, acts);
    ActionLineAt(ns, acts[0], 0, 0, 1);
    FindSpec(ns, "C");
    var e := ActionElements(ns, acts);
    assert e == [Some(Line(0, Point(0, 0), Point(10, 0))), None];
    assert Drawn(e) == [Line(0, Point(0, 0), Point(10, 0))] + Drawn(e[1..]);
    assert Drawn(e[1..]) == [] + Drawn(e[1..][1..]);
  }

  /**
   * A node at (10, 10) pressed at (15, 15) keeps offset (5, 5): moving the
   * pointer to (100, 100) puts the node at (95, 95).
   */
  lemma DragExample()
    ensures AfterMouseMove(
              AfterMouseDown(Mounted([Node("A", Llm, "", Point(10, 10))]), "A", Point(15, 15)),
              Point(100, 100)).nodes ==
            [Node("A", Llm, "", Point(95, 95))]
  {
    var ns := [Node("A", Llm, "", Point(10, 10))];
    assert Find(ns, "A") == Some(ns[0]);
  }

  /**
   * The page's visualizer driven through its handlers: press on "Parse
   * Input" at (155, 160), drag to (200, 200), release.  The node ends up at
   * (195, 190) and nothing is being dragged any more.
   */
  method SampleDrag() returns (moved: Point, stillDragging: bool)
    ensures moved == Point(195, 190)
    ensures !stillDragging
  {
    var v := new Visualizer(SampleNodes());
    assert Find(v.nodes, "1") == Some(SampleNodes()[0]);
    v.MouseDown("1", Point(155, 160));
    v.MouseMove(Point(200, 200));
    v.MouseUp();
    moved := v.nodes[0].position;
    stillDragging := IsDragging(v.State());
  }
}
