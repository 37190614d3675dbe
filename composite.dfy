/**
 * The composite DOM tree: every node has a tag, its own `EventEmitter` and an
 * optional ordered list of children. `emit` fires the node's own listeners and
 * then emits on each child in order; `render` writes one line per node. Both are
 * the same pre-order, depth-first walk.
 *
 * A node is a value; its emitter is the one object whose state changes (by
 * `On`). The inductive datatype rules out cycles; the same node may still occur
 * twice in a tree, as the same object may be passed twice to a container.
 */
module Composite {
  import opened Emitter

  /** The optional `children` array: absent, or an ordered list. */
  datatype Children = Absent | Present(nodes: seq<DOMNode>)

  datatype DOMNode = DOMNode(tag: string, emitter: EventEmitter, children: Children)

  /** The payload every listener receives: the event name and the node now emitting. */
  datatype Event = Event(event: string, target: DOMNode)

  type Trace = seq<Invocation<Event>>

  /** `this.children || []`: an absent list is walked as an empty one. */
  function Kids(n: DOMNode): seq<DOMNode>
  {
    match n.children
    case Absent => []
    case Present(nodes) => nodes
  }

  // ---------------------------------------------------------------------------
  // The walks, as functions of the tree and the emitters' current state

  /** The emitters of every node of the subtree: what an emit reads. */
  function Footprint(n: DOMNode): set<EventEmitter>
    decreases n
  {
    {n.emitter} + match n.children
      case Absent => {}
      case Present(nodes) => ForestFootprint(nodes)
  }

  function ForestFootprint(nodes: seq<DOMNode>): set<EventEmitter>
    decreases nodes
  {
    if nodes == [] then {}
    else ForestFootprint(nodes[..|nodes| - 1]) + Footprint(nodes[|nodes| - 1])
  }

  /** What one node's own emitter records when it emits `event`. */
  function Own(n: DOMNode, event: string): Trace
    reads n.emitter
  {
    Deliver(n.emitter.Listeners(event), Event(event, n))
  }

  /** The invocations recorded by `n.emit(event)`. */
  function EmitTrace(n: DOMNode, event: string): Trace
    reads Footprint(n)
    decreases n
  {
    Own(n, event) + match n.children
      case Absent => []
      case Present(nodes) => ForestTrace(nodes, event)
  }

  /** The invocations recorded by emitting `event` on each of `nodes` in turn. */
  function ForestTrace(nodes: seq<DOMNode>, event: string): Trace
    reads ForestFootprint(nodes)
    decreases nodes
  {
    if nodes == [] then []
    else ForestTrace(nodes[..|nodes| - 1], event) + EmitTrace(nodes[|nodes| - 1], event)
  }

  /** `get_offset(depth)`: nothing at depth 0, else `depth` dashes and one space. */
  function Offset(depth: nat): (s: string)
    ensures depth == 0 ==> s == ""
    ensures depth > 0 ==> |s| == depth + 1 && s[depth] == ' '
    ensures forall i :: 0 <= i < depth ==> s[i] == '-'
  {
    if depth == 0 then "" else seq(depth, _ => '-') + " "
  }

  /** The lines printed by `n.render(depth)`. */
  function RenderLines(n: DOMNode, depth: nat): seq<string>
    decreases n
  {
    [Offset(depth) + n.tag] + match n.children
      case Absent => []
      case Present(nodes) => ForestLines(nodes, depth + 1)
  }

  /** The lines printed by rendering each of `nodes` at `depth` in turn. */
  function ForestLines(nodes: seq<DOMNode>, depth: nat): seq<string>
    decreases nodes
  {
    if nodes == [] then []
    else ForestLines(nodes[..|nodes| - 1], depth) + RenderLines(nodes[|nodes| - 1], depth)
  }

  /** Every emitter a tree reaches exists already, so a later call cannot swap it for a new one. */
  lemma {:induction false} FootprintAllocated(n: DOMNode)
    ensures forall o :: o in Footprint(n) ==> allocated(o)
    decreases n
  {
    match n.children {
      case Absent =>
      case Present(nodes) => ForestFootprintAllocated(nodes);
    }
  }

  lemma {:induction false} ForestFootprintAllocated(nodes: seq<DOMNode>)
    ensures forall o :: o in ForestFootprint(nodes) ==> allocated(o)
    decreases nodes
  {
    if nodes != [] {
      ForestFootprintAllocated(nodes[..|nodes| - 1]);
      FootprintAllocated(nodes[|nodes| - 1]);
    }
  }

  // ---------------------------------------------------------------------------
  // The source's operations

  /** `new Image(src, alt)`: tag "img", no children, a fresh emitter. */
  method NewImage(src: string, alt: string) returns (n: DOMNode)
    ensures n.tag == "img" && n.children == Absent
    ensures fresh(n.emitter) && n.emitter.listeners == map[]
  {
    var emitter := new EventEmitter();
    n := DOMNode("img", emitter, Absent);
  }

  /** `new DivContainer(children, innerText)`: tag "div", the given children; the text is dropped. */
  method NewDivContainer(children: Children, innerText: string) returns (n: DOMNode)
    ensures n.tag == "div" && n.children == children
    ensures fresh(n.emitter) && n.emitter.listeners == map[]
  {
    var emitter := new EventEmitter();
    n := DOMNode("div", emitter, children);
  }

  /** `n.on(event, fn)`: registers on this node's emitter and nowhere else. */
  method On(n: DOMNode, event: string, fn: CallbackId)
    modifies n.emitter
    ensures n.emitter.listeners == Register(old(n.emitter.listeners), event, fn)
  {
    n.emitter.On(event, fn);
  }

  /** `n.emit(event)`: own listeners with `{event, target: n}`, then the children. */
  method Emit(n: DOMNode, event: string) returns (trace: Trace)
    ensures trace == EmitTrace(n, event)
    decreases n
  {
    var _, own := n.emitter.Emit(event, Event(event, n));
    var rest := NotifyChildren(event, n.children);
    trace := own + rest;
  }

  /** `notify_children(event, nodes)`: emit on every child, in array order. */
  method NotifyChildren(event: string, children: Children) returns (trace: Trace)
    ensures trace == match children
      case Absent => []
      case Present(nodes) => ForestTrace(nodes, event)
    decreases children
  {
    trace := [];
    match children {
      case Absent =>
      case Present(nodes) =>
        var i := 0;
        while i < |nodes|
          invariant 0 <= i <= |nodes|
          invariant trace == ForestTrace(nodes[..i], event)
        {
          ForestFootprintAllocated(nodes[..i]);
          var sub := Emit(nodes[i], event);
          ForestTraceSnoc(nodes, i, event);
          trace := trace + sub;
          i := i + 1;
        }
        assert nodes[..i] == nodes;
    }
  }

  /** `n.render(depth)`: this node's line, then each child rendered one level deeper. */
  method Render(n: DOMNode, depth: nat) returns (lines: seq<string>)
    ensures lines == RenderLines(n, depth)
    decreases n
  {
    var line := Offset(depth) + n.tag;
    var below := [];
    match n.children {
      case Absent =>
      case Present(nodes) =>
        var i := 0;
        while i < |nodes|
          invariant 0 <= i <= |nodes|
          invariant below == ForestLines(nodes[..i], depth + 1)
        {
          var sub := Render(nodes[i], depth + 1);
          ForestLinesSnoc(nodes, i, depth + 1);
          below := below + sub;
          i := i + 1;
        }
        assert nodes[..i] == nodes;
    }
    lines := [line] + below;
  }

  lemma ForestLinesSnoc(nodes: seq<DOMNode>, i: nat, depth: nat)
    requires i < |nodes|
    ensures ForestLines(nodes[..i + 1], depth) == ForestLines(nodes[..i], depth) + RenderLines(nodes[i], depth)
  {
    assert nodes[..i + 1][..i] == nodes[..i];
  }

  lemma ForestTraceSnoc(nodes: seq<DOMNode>, i: nat, event: string)
    requires i < |nodes|
    ensures ForestTrace(nodes[..i + 1], event) == ForestTrace(nodes[..i], event) + EmitTrace(nodes[i], event)
  {
    assert nodes[..i + 1][..i] == nodes[..i];
  }
}
