# Workflow graph drag model and chat transcript model

This project models the two pieces of state logic in a front-end mockup of a
workflow builder, and proves properties about them.

- **The workflow graph visualizer** (`WorkflowVisualizer`). It shows positioned
  nodes that the user can drag with the mouse, and it draws an arrow for each
  action (a directed edge between two node ids).
  - The component state is the node list, the id of the node being dragged
    (or none) and the drag offset.
  - Mouse-down records the node and the pointer-minus-position offset.
  - Mouse-move puts every node that carries the dragged id at pointer minus
    offset.
  - Mouse-up ends the drag.
  - Edge resolution looks up both end points of each action, and React skips
    the `null` it returns for a dangling action.
- **The chat panel** (`ChatInterface`). Its state is a transcript and an input
  string. Sending a non-blank input appends the user's message and a fixed
  assistant reply. It then clears the input and passes a fixed-prefix code
  update to the page's `onUpdateCode` callback.

Layout:

- `wrappers.dfy`: `Option`.
- `workflow_visualizer.dfy`: module `WorkflowVisualizer`. It holds the node
  lookup (`Find`), the position update (`Moved`) and the drag transitions
  (`AfterMouseDown`, `AfterMouseMove`, `AfterMouseUp`) as functions on a
  `Canvas` value, plus edge resolution (`ActionLine`, `ActionElements`,
  `Drawn`, `RenderedLines`). It also holds the class `Visualizer`. Its fields
  `nodes`, `dragging` and `offset` are updated in place by its handler
  methods, which are proved to follow the transition functions. Its invariant
  `Valid()` says that only node positions ever change.
- `chat_interface.dfy`: module `ChatInterface`. It holds `trim` over
  ECMAScript's exact whitespace and line-terminator set, the send transition
  `Send`, the transcript invariant `WellFormed`, and the class `Chat` with
  `messages` and `input`.
- `workflow_page.dfy`: module `WorkflowPage`. It holds the sample graph the
  workflow page passes to the visualizer, and worked examples.

Modelling decisions:

- Pointer coordinates are container-local, meaning `clientX - rect.left` is
  passed in. The container's bounding box is therefore not modelled.
- JavaScript numbers (floating point) become `int`. The handlers only subtract
  them, so with integers `clientX - (rect.left + x)` and
  `(clientX - rect.left) - x` agree.
- The `onUpdateCode` callback is modelled as an out-parameter
  `update: Option<string>`. `None` means the callback is not called; `Some(s)`
  means it is called once with `s`.
- `label` is a reserved word in Dafny, so the label fields of nodes and
  actions are called `caption`.
- JavaScript truthiness is kept. `if (!draggingNode) return` treats an empty
  string like `null`. So after a mouse-down on a node whose id is `""`, the
  state records that id, but mouse-move does nothing (`IsDragging`).
  `if (!input.trim()) return` refuses exactly the inputs made only of
  trimmable characters (`TrimEmptyIffBlank`).

What the code does at its edges:

- A second mouse-down during a drag is not rejected. It replaces the drag
  (`MouseDownReplacesDrag`).
- Mouse-move repositions every node carrying the dragged id, not just one node.
  Mouse-down takes the offset from the first such node.
  `PressThenMoveInPlace` states what this does with duplicate ids.
- A drawn `<line>` carries only its React key (the action's index) and two end
  points (src/components/WorkflowVisualizer.tsx:127-136). The action's label is
  not drawn, so `Line` has no label.
- The workflow page's file explorer (src/pages/WorkflowPage.tsx:30-47) is a
  fixed literal with no insert or remove operations, so there is nothing of
  that kind to model.

## Model

| member | source | states |
|---|---|---|
| `WorkflowVisualizer.FindSpec` | src/components/WorkflowVisualizer.tsx:33-34 | the lookup finds nothing exactly when no node has the id; otherwise it returns a node that is the first one carrying the id |
| `WorkflowVisualizer.FindFirst` | src/components/WorkflowVisualizer.tsx:33 | whenever node i is the first carrying the id, the lookup returns node i |
| `WorkflowVisualizer.Moved` | src/components/WorkflowVisualizer.tsx:50-54 | the updated list keeps length, order, ids, types and captions; every node with the dragged id is at the target point and every other node is unchanged |
| `WorkflowVisualizer.MovedLastWins` | src/components/WorkflowVisualizer.tsx:50-54 | repositioning the same id twice equals doing only the second repositioning |
| `WorkflowVisualizer.AfterMouseDown` | src/components/WorkflowVisualizer.tsx:29-41 | nodes never change; an unknown id leaves the whole state unchanged; a known id becomes the dragged id and the offset is pointer minus the first matching node's position, whatever drag was in progress |
| `WorkflowVisualizer.AfterMouseMove` | src/components/WorkflowVisualizer.tsx:43-55 | with no truthy dragged id nothing changes; otherwise dragged id and offset are kept, node shape is kept, and each node's position is pointer minus offset if it carries the dragged id and is unchanged otherwise |
| `WorkflowVisualizer.AfterMouseUp` | src/components/WorkflowVisualizer.tsx:57-59 | the dragged id becomes null, so the drag ends, while nodes and offset are untouched |
| `WorkflowVisualizer.NoJump` | src/components/WorkflowVisualizer.tsx:37-48 | a press on a node followed by a move to the same pointer leaves that node exactly where it was |
| `WorkflowVisualizer.PressThenMoveInPlace` | src/components/WorkflowVisualizer.tsx:36-54 | after such a press and move, every node sharing the pressed node's (truthy) id is at the pressed node's position and all other nodes are unchanged; with the id `""` nothing moves |
| `WorkflowVisualizer.MoveLastWins` | src/components/WorkflowVisualizer.tsx:47-54 | two moves in a row end where the second move alone would have put the nodes |
| `WorkflowVisualizer.MouseDownReplacesDrag` | src/components/WorkflowVisualizer.tsx:36-40 | a mouse-down on an existing node overrides any earlier mouse-down completely |
| `WorkflowVisualizer.ReleaseEndsDrag` | src/components/WorkflowVisualizer.tsx:44-59 | mouse-up is idempotent, and moving the pointer after it changes nothing |
| `WorkflowVisualizer.RunKeepsShape` | src/components/WorkflowVisualizer.tsx:24-59 | after any sequence of mouse events the node list has the same length, order, ids, types and captions as before |
| `WorkflowVisualizer.ActionLineSpec` | src/components/WorkflowVisualizer.tsx:121-124 | an action yields a line exactly when both its end ids name a node, and yields null otherwise |
| `WorkflowVisualizer.ActionLineAt` | src/components/WorkflowVisualizer.tsx:121-131 | an action whose end ids are first found at nodes i and j yields the line keyed by its index from node i's position to node j's position |
| `WorkflowVisualizer.ActionElementsKeyed` | src/components/WorkflowVisualizer.tsx:120 | the mapped array has one element per action, and element j is action j's result, keyed by j |
| `WorkflowVisualizer.ActionElementsResolve` | src/components/WorkflowVisualizer.tsx:120-124 | element i of the mapped array is non-null exactly when action i resolves |
| `WorkflowVisualizer.RenderedLinesInOrder` | src/components/WorkflowVisualizer.tsx:120-138 | at most one line is drawn per action, lines follow action order (keys strictly increase), and each drawn line is the resolved line of its action |
| `WorkflowVisualizer.RenderedLinesKeepResolved` | src/components/WorkflowVisualizer.tsx:120-138 | an action has a drawn line exactly when both its end points name a node, so dangling actions are dropped silently |
| `WorkflowVisualizer.AllResolvedDrawsAll` | src/components/WorkflowVisualizer.tsx:120-138 | when no action dangles, line k is the resolved line of action k, for every action |
| `WorkflowVisualizer.Visualizer.constructor` | src/components/WorkflowVisualizer.tsx:24-26 | the state starts as the given nodes, no drag and offset (0,0) |
| `WorkflowVisualizer.Visualizer.MouseDown` | src/components/WorkflowVisualizer.tsx:29-41 | the fields change exactly as `AfterMouseDown` says, and `Valid` is kept |
| `WorkflowVisualizer.Visualizer.MouseMove` | src/components/WorkflowVisualizer.tsx:43-55 | the fields change exactly as `AfterMouseMove` says, and `Valid` is kept |
| `WorkflowVisualizer.Visualizer.MouseUp` | src/components/WorkflowVisualizer.tsx:57-59 | the fields change exactly as `AfterMouseUp` says, and `Valid` is kept |
| `WorkflowPage.SampleGraphFullyDrawn` | src/pages/WorkflowPage.tsx:16-28 | the page's sample graph draws all three arrows, with the exact end points of their nodes |
| `WorkflowPage.DanglingEdgeDropped` | src/components/WorkflowVisualizer.tsx:121-124 | with nodes A and B and edges A to B and A to C, exactly the line from A to B is drawn |
| `WorkflowPage.DragExample` | src/components/WorkflowVisualizer.tsx:37-48 | a node at (10,10) pressed at (15,15) and moved to (100,100) ends at (95,95) |
| `WorkflowPage.SampleDrag` | src/pages/WorkflowPage.tsx:279-282 | driving the object with the page's sample graph through press, move and release puts the node at pointer minus offset and ends the drag |
| `ChatInterface.LeadingCount` | src/components/ChatInterface.tsx:18 | counts the leading trimmable characters: all of them are trimmable and the next one is not |
| `ChatInterface.TrailingStart` | src/components/ChatInterface.tsx:18 | finds where the trailing run of trimmable characters starts: all of them are trimmable and the character before is not |
| `ChatInterface.TrimIsMiddleSlice` | src/components/ChatInterface.tsx:18 | `trim` returns a slice of the input with only trimmable characters cut on both sides, and the slice neither starts nor ends with one |
| `ChatInterface.TrimEmptyIffBlank` | src/components/ChatInterface.tsx:18 | the guard `!input.trim()` holds exactly when every character of the input is trimmable |
| `ChatInterface.Send` | src/components/ChatInterface.tsx:17-31 | a blank input changes nothing and emits nothing; otherwise the old messages stay as a prefix, exactly the untrimmed user message and the canned reply follow, the input becomes empty, and the update is the fixed prefix followed by the pre-clear input |
| `ChatInterface.SendKeepsWellFormed` | src/components/ChatInterface.tsx:14-25 | a send keeps the transcript even-length and alternating user/assistant from the start, with non-blank user messages and only the canned reply from the assistant |
| `ChatInterface.SecondSendDoesNothing` | src/components/ChatInterface.tsx:18-27 | a send right after a send changes nothing and emits nothing |
| `ChatInterface.Chat.constructor` | src/components/ChatInterface.tsx:14-15 | the panel starts with an empty, well-formed transcript and an empty input |
| `ChatInterface.Chat.SetInput` | src/components/ChatInterface.tsx:61 | the input becomes the typed text and the transcript is untouched |
| `ChatInterface.Chat.HandleSend` | src/components/ChatInterface.tsx:17-31 | the new fields and the emitted update are exactly what `Send` gives for the old fields, and the transcript stays well formed |
| `ChatInterface.ChatExample` | src/components/ChatInterface.tsx:17-31 | on a fresh panel, sending "hi" emits the prefixed update and sending a blank input emits nothing, leaving two messages |

## Left out

- Listener wiring: the `useEffect` registration on `window` and its removal
  (src/components/WorkflowVisualizer.tsx:61-70). It is not modelled. The
  listener is registered again only when `draggingNode` changes, so the move
  handler sees the node list and the `offset` captured at that time.
  - For the node list this is harmless. `MovedLastWins` and `MoveLastWins` show
    that every move overwrites the dragged nodes' positions outright.
  - For the offset it is not. A second press on the same node during a drag
    changes `offset` but not `draggingNode`, so the registered move handler
    keeps using the old offset. The model's `AfterMouseMove` always uses the
    current offset. The two agree in the ordinary order of events: press,
    moves, release.
- The `containerRef` null guards: the container is taken to be always mounted.
  Its bounding box is folded into the container-local pointer.
- Floating point: coordinates are integers. Rounding of JavaScript numbers is
  not captured.
- Rendering: JSX, icon and colour tables, SVG markers and styling. The
  component's `return` on a line of its own makes it return `undefined`, so
  the model claims nothing about what reaches the screen. `RenderedLines`
  models the edge-resolution expression as written.
- Keyboard wiring: the Enter key binding of the input field is not modelled.
  Only its target, the send handler, is.
- Unicode: strings are sequences of Unicode scalar values rather than UTF-16
  code units. So lone surrogates are not represented.
- The workflow page beyond its sample graph: a fixed file explorer, fixed code
  strings, a fake terminal and a logging stub for `onUpdateCode`. These are
  fixed data or output, with no logic.
- The settings, projects and home pages, the routing shell and the diagram
  renderer: these are presentation, random ids and navigation, with no state
  logic.
