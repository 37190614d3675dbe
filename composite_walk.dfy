/**
 * The pre-order, depth-first walk that `emit` and `render` share, defined once
 * on its own, and the lemmas that tie both operations to it.
 */
module PreOrderWalk {
  import opened Emitter
  import opened Composite

  /** A node reached by the walk, at its depth below the walk's start. */
  datatype Visit = Visit(node: DOMNode, depth: nat)

  /** Number of nodes in a subtree, counting a shared node once per occurrence. */
  function Size(n: DOMNode): nat
    decreases n
  {
    1 + match n.children
      case Absent => 0
      case Present(nodes) => ForestSize(nodes)
  }

  function ForestSize(nodes: seq<DOMNode>): nat
    decreases nodes
  {
    if nodes == [] then 0 else ForestSize(nodes[..|nodes| - 1]) + Size(nodes[|nodes| - 1])
  }

  /** Node first, then each child's subtree in array order, one level deeper. */
  function PreOrder(n: DOMNode, depth: nat): (vs: seq<Visit>)
    ensures |vs| >= 1 && vs[0] == Visit(n, depth)
    decreases n
  {
    [Visit(n, depth)] + match n.children
      case Absent => []
      case Present(nodes) => ForestPreOrder(nodes, depth)
  }

  /** The walks of `nodes`, children of a node at `depth`, concatenated in order. */
  function ForestPreOrder(nodes: seq<DOMNode>, depth: nat): seq<Visit>
    decreases nodes
  {
    if nodes == [] then []
    else ForestPreOrder(nodes[..|nodes| - 1], depth) + PreOrder(nodes[|nodes| - 1], depth + 1)
  }

  /** The walk makes one visit per node of the subtree, `Size(n)` visits in all. */
  lemma {:induction false} PreOrderSize(n: DOMNode, depth: nat)
    ensures |PreOrder(n, depth)| == Size(n)
    decreases n
  {
    match n.children {
      case Absent =>
      case Present(nodes) => ForestPreOrderSize(nodes, depth);
    }
  }

  lemma {:induction false} ForestPreOrderSize(nodes: seq<DOMNode>, depth: nat)
    ensures |ForestPreOrder(nodes, depth)| == ForestSize(nodes)
    decreases nodes
  {
    if nodes != [] {
      ForestPreOrderSize(nodes[..|nodes| - 1], depth);
      PreOrderSize(nodes[|nodes| - 1], depth + 1);
    }
  }

  lemma {:induction false} ForestPreOrderAppend(a: seq<DOMNode>, b: seq<DOMNode>, depth: nat)
    ensures ForestPreOrder(a + b, depth) == ForestPreOrder(a, depth) + ForestPreOrder(b, depth)
    decreases |b|
  {
    if b == [] {
      assert a + b == a;
    } else {
      var b' := b[..|b| - 1];
      assert (a + b)[..|a + b| - 1] == a + b';
      assert (a + b)[|a + b| - 1] == b[|b| - 1];
      ForestPreOrderAppend(a, b', depth);
    }
  }

  /**
   * The walk of the `k`-th child fills one contiguous block of its parent's
   * walk, one level deeper: the block starts after the parent's own visit and
   * the blocks of the earlier children, and is exactly as long as the child's
   * subtree.
   */
  lemma PreOrderChildBlock(n: DOMNode, depth: nat, k: nat)
    requires k < |Kids(n)|
    ensures var start := 1 + ForestSize(Kids(n)[..k]);
      && start + Size(Kids(n)[k]) <= |PreOrder(n, depth)|
      && PreOrder(n, depth)[start..start + Size(Kids(n)[k])] == PreOrder(Kids(n)[k], depth + 1)
  {
    var nodes := Kids(n);
    var before, child, after := nodes[..k], nodes[k], nodes[k + 1..];
    assert nodes == before + [child] + after;
    assert [child][..0] == [];
    assert ForestPreOrder([child], depth) == PreOrder(child, depth + 1);
    ForestPreOrderAppend(before + [child], after, depth);
    ForestPreOrderAppend(before, [child], depth);
    ForestPreOrderSize(before, depth);
    PreOrderSize(child, depth + 1);
    var x := [Visit(n, depth)] + ForestPreOrder(before, depth);
    var block := PreOrder(child, depth + 1);
    var rest := ForestPreOrder(after, depth);
    assert PreOrder(n, depth) == x + block + rest;
    assert |x| == 1 + ForestSize(before);
    assert (x + block + rest)[|x|..|x| + |block|] == block;
  }

  /** The same visits, each `shift` levels deeper. */
  function Shifted(vs: seq<Visit>, shift: nat): (r: seq<Visit>)
    ensures |r| == |vs|
    decreases |vs|
  {
    if vs == [] then []
    else
      var last := vs[|vs| - 1];
      Shifted(vs[..|vs| - 1], shift) + [Visit(last.node, last.depth + shift)]
  }

  /** Shifting keeps each visit's node and position and adds `shift` to its depth. */
  lemma {:induction false} ShiftedAt(vs: seq<Visit>, shift: nat, i: nat)
    requires i < |vs|
    ensures Shifted(vs, shift)[i] == Visit(vs[i].node, vs[i].depth + shift)
    decreases |vs|
  {
    if i < |vs| - 1 {
      ShiftedAt(vs[..|vs| - 1], shift, i);
    }
  }

  lemma {:induction false} ShiftedAppend(a: seq<Visit>, b: seq<Visit>, shift: nat)
    ensures Shifted(a + b, shift) == Shifted(a, shift) + Shifted(b, shift)
    decreases |b|
  {
    if b == [] {
      assert a + b == a;
    } else {
      var b' := b[..|b| - 1];
      assert (a + b)[..|a + b| - 1] == a + b';
      assert (a + b)[|a + b| - 1] == b[|b| - 1];
      ShiftedAppend(a, b', shift);
    }
  }

  /**
   * Starting the walk `shift` levels deeper visits the same nodes in the same
   * order, each `shift` levels deeper: depths are relative to the start.
   */
  lemma {:induction false} PreOrderShift(n: DOMNode, depth: nat, shift: nat)
    ensures PreOrder(n, depth + shift) == Shifted(PreOrder(n, depth), shift)
    decreases n
  {
    match n.children {
      case Absent =>
      case Present(nodes) =>
        ForestPreOrderShift(nodes, depth, shift);
        ShiftedAppend([Visit(n, depth)], ForestPreOrder(nodes, depth), shift);
    }
  }

  lemma {:induction false} ForestPreOrderShift(nodes: seq<DOMNode>, depth: nat, shift: nat)
    ensures ForestPreOrder(nodes, depth + shift) == Shifted(ForestPreOrder(nodes, depth), shift)
    decreases nodes
  {
    if nodes != [] {
      var init, last := nodes[..|nodes| - 1], nodes[|nodes| - 1];
      ForestPreOrderShift(init, depth, shift);
      PreOrderShift(last, depth + 1, shift);
      ShiftedAppend(ForestPreOrder(init, depth), PreOrder(last, depth + 1), shift);
      assert ForestPreOrder(nodes, depth + shift)
          == ForestPreOrder(init, depth + shift) + PreOrder(last, depth + 1 + shift);
    }
  }

  // ---------------------------------------------------------------------------
  // render

  /** The line `render` prints for each visit. */
  function LinesOf(vs: seq<Visit>): (lines: seq<string>)
    ensures |lines| == |vs|
    decreases |vs|
  {
    if vs == [] then []
    else
      var last := vs[|vs| - 1];
      LinesOf(vs[..|vs| - 1]) + [Offset(last.depth) + last.node.tag]
  }

  /** A visit's line is its tag after the offset of its depth. */
  lemma {:induction false} LinesOfAt(vs: seq<Visit>, i: nat)
    requires i < |vs|
    ensures LinesOf(vs)[i] == Offset(vs[i].depth) + vs[i].node.tag
    decreases |vs|
  {
    if i < |vs| - 1 {
      LinesOfAt(vs[..|vs| - 1], i);
    }
  }

  lemma {:induction false} LinesOfAppend(a: seq<Visit>, b: seq<Visit>)
    ensures LinesOf(a + b) == LinesOf(a) + LinesOf(b)
    decreases |b|
  {
    if b == [] {
      assert a + b == a;
    } else {
      var b' := b[..|b| - 1];
      assert (a + b)[..|a + b| - 1] == a + b';
      assert (a + b)[|a + b| - 1] == b[|b| - 1];
      LinesOfAppend(a, b');
    }
  }

  /** `render(depth)` prints exactly the lines of the pre-order walk started at `depth`. */
  lemma {:induction false} RenderIsPreOrder(n: DOMNode, depth: nat)
    ensures RenderLines(n, depth) == LinesOf(PreOrder(n, depth))
    decreases n
  {
    match n.children {
      case Absent =>
      case Present(nodes) =>
        ForestRenderIsPreOrder(nodes, depth + 1);
        LinesOfAppend([Visit(n, depth)], ForestPreOrder(nodes, depth));
    }
  }

  lemma {:induction false} ForestRenderIsPreOrder(nodes: seq<DOMNode>, depth: nat)
    requires depth >= 1
    ensures ForestLines(nodes, depth) == LinesOf(ForestPreOrder(nodes, depth - 1))
    decreases nodes
  {
    if nodes != [] {
      ForestRenderIsPreOrder(nodes[..|nodes| - 1], depth);
      RenderIsPreOrder(nodes[|nodes| - 1], depth);
      LinesOfAppend(ForestPreOrder(nodes[..|nodes| - 1], depth - 1), PreOrder(nodes[|nodes| - 1], depth));
    }
  }

  /**
   * `render(depth)` prints one line per node of the subtree, in pre-order; the
   * line of a node `k` levels below the root is `get_offset(depth + k)` followed
   * by its tag, and the first line is the root's own.
   */
  lemma RenderLinePerNode(n: DOMNode, depth: nat)
    ensures |RenderLines(n, depth)| == Size(n) == |PreOrder(n, 0)|
    ensures RenderLines(n, depth)[0] == Offset(depth) + n.tag
    ensures forall i :: 0 <= i < Size(n) ==>
      RenderLines(n, depth)[i] == Offset(depth + PreOrder(n, 0)[i].depth) + PreOrder(n, 0)[i].node.tag
  {
    PreOrderSize(n, 0);
    RenderLength(n, depth);
    RenderLineAt(n, depth, 0);
    assert Offset(depth + PreOrder(n, 0)[0].depth) == Offset(depth);
    forall i | 0 <= i < Size(n)
      ensures RenderLines(n, depth)[i] == Offset(depth + PreOrder(n, 0)[i].depth) + PreOrder(n, 0)[i].node.tag
    {
      RenderLineAt(n, depth, i);
    }
  }

  /** `render` prints one line per node of the subtree. */
  lemma RenderLength(n: DOMNode, depth: nat)
    ensures |RenderLines(n, depth)| == Size(n)
  {
    RenderIsPreOrder(n, depth);
    PreOrderSize(n, depth);
  }

  /** The `i`-th line is the `i`-th visited node's, indented by its depth plus `depth`. */
  lemma RenderLineAt(n: DOMNode, depth: nat, i: nat)
    requires i < |PreOrder(n, 0)|
    ensures i < |RenderLines(n, depth)|
    ensures RenderLines(n, depth)[i] == Offset(depth + PreOrder(n, 0)[i].depth) + PreOrder(n, 0)[i].node.tag
  {
    var vs := PreOrder(n, 0);
    RenderShifted(n, depth);
    ShiftedAt(vs, depth, i);
    var v := Shifted(vs, depth)[i];
    assert Offset(v.depth) == Offset(depth + vs[i].depth);
    LinesOfAt(Shifted(vs, depth), i);
  }

  /** `render(depth)` prints the lines of the walk started at 0, shifted by `depth`. */
  lemma RenderShifted(n: DOMNode, depth: nat)
    ensures RenderLines(n, depth) == LinesOf(Shifted(PreOrder(n, 0), depth))
  {
    PreOrderShift(n, 0, depth);
    assert PreOrder(n, depth) == Shifted(PreOrder(n, 0), depth);
    RenderIsPreOrder(n, depth);
  }

  // ---------------------------------------------------------------------------
  // emit

  /** The emitters of the nodes a walk visits. */
  function Emitters(vs: seq<Visit>): set<EventEmitter>
  {
    set i | 0 <= i < |vs| :: vs[i].node.emitter
  }

  /** Each visited node's own listeners fired in turn, with that node as target. */
  function FireAll(vs: seq<Visit>, event: string): Trace
    reads Emitters(vs)
  {
    if vs == [] then []
    else
      assert Emitters(vs[..|vs| - 1]) <= Emitters(vs);
      FireAll(vs[..|vs| - 1], event) + Own(vs[|vs| - 1].node, event)
  }

  lemma {:induction false} FireAllAppend(a: seq<Visit>, b: seq<Visit>, event: string)
    ensures FireAll(a + b, event) == FireAll(a, event) + FireAll(b, event)
    decreases |b|
  {
    if b == [] {
      assert a + b == a;
    } else {
      var b' := b[..|b| - 1];
      assert (a + b)[..|a + b| - 1] == a + b';
      assert (a + b)[|a + b| - 1] == b[|b| - 1];
      FireAllAppend(a, b', event);
    }
  }

  /**
   * `emit(event)` fires, for each node of the subtree in pre-order, that node's
   * own listeners in registration order, each with that node as target.
   */
  lemma {:induction false} EmitIsPreOrder(n: DOMNode, event: string, depth: nat)
    ensures EmitTrace(n, event) == FireAll(PreOrder(n, depth), event)
    decreases n
  {
    assert [Visit(n, depth)][..0] == [];
    match n.children {
      case Absent =>
      case Present(nodes) =>
        ForestEmitIsPreOrder(nodes, event, depth);
        FireAllAppend([Visit(n, depth)], ForestPreOrder(nodes, depth), event);
    }
  }

  lemma {:induction false} ForestEmitIsPreOrder(nodes: seq<DOMNode>, event: string, depth: nat)
    ensures ForestTrace(nodes, event) == FireAll(ForestPreOrder(nodes, depth), event)
    decreases nodes
  {
    if nodes != [] {
      ForestEmitIsPreOrder(nodes[..|nodes| - 1], event, depth);
      EmitIsPreOrder(nodes[|nodes| - 1], event, depth + 1);
      FireAllAppend(ForestPreOrder(nodes[..|nodes| - 1], depth), PreOrder(nodes[|nodes| - 1], depth + 1), event);
    }
  }

  lemma {:induction false} ForestTraceAppend(a: seq<DOMNode>, b: seq<DOMNode>, event: string)
    ensures ForestTrace(a + b, event) == ForestTrace(a, event) + ForestTrace(b, event)
    decreases |b|
  {
    if b == [] {
      assert a + b == a;
    } else {
      var b' := b[..|b| - 1];
      assert (a + b)[..|a + b| - 1] == a + b';
      assert (a + b)[|a + b| - 1] == b[|b| - 1];
      ForestTraceAppend(a, b', event);
    }
  }

  /**
   * A child's whole subtree is delivered after the node's own listeners and the
   * subtrees of the earlier siblings, and before those of the later siblings.
   */
  lemma EmitSiblingOrder(n: DOMNode, event: string, i: nat)
    requires i < |Kids(n)|
    ensures EmitTrace(n, event)
      == Own(n, event) + ForestTrace(Kids(n)[..i], event) + EmitTrace(Kids(n)[i], event)
         + ForestTrace(Kids(n)[i + 1..], event)
  {
    var nodes := Kids(n);
    assert nodes == nodes[..i] + [nodes[i]] + nodes[i + 1..];
    assert [nodes[i]][..0] == [];
    ForestTraceAppend(nodes[..i] + [nodes[i]], nodes[i + 1..], event);
    ForestTraceAppend(nodes[..i], [nodes[i]], event);
  }

  /**
   * `emit` on a node without children (every `Image`) fires that node's own
   * listeners, in registration order, and nothing else.
   */
  lemma EmitOnLeaf(n: DOMNode, event: string)
    requires Kids(n) == []
    ensures |EmitTrace(n, event)| == |n.emitter.Listeners(event)|
    ensures forall i :: 0 <= i < |EmitTrace(n, event)| ==>
      EmitTrace(n, event)[i] == Invocation(n.emitter.Listeners(event)[i], Event(event, n))
  {
  }

  /** Every invocation of a walk's firing carries the event and targets a visited node. */
  lemma {:induction false} FireAllTargets(vs: seq<Visit>, event: string)
    ensures forall i :: 0 <= i < |FireAll(vs, event)| ==>
      && FireAll(vs, event)[i].payload.event == event
      && exists j :: 0 <= j < |vs| && FireAll(vs, event)[i].payload.target == vs[j].node
    decreases |vs|
  {
    if vs != [] {
      var init, last := vs[..|vs| - 1], vs[|vs| - 1];
      FireAllTargets(init, event);
      var t, head := FireAll(vs, event), FireAll(init, event);
      forall i | 0 <= i < |t|
        ensures t[i].payload.event == event
        ensures exists j :: 0 <= j < |vs| && t[i].payload.target == vs[j].node
      {
        if i < |head| {
          var j :| 0 <= j < |init| && head[i].payload.target == init[j].node;
          assert vs[j] == init[j];
        } else {
          assert t[i] == Own(last.node, event)[i - |head|];
          assert t[i].payload.target == vs[|vs| - 1].node;
        }
      }
    }
  }

  /**
   * Every listener receives the emitted event name; the node's own listeners get
   * the node itself as target, and every later one a node that the walk of the
   * subtree visits after the node: the target is the node emitting at that
   * point, not where emit began.
   */
  lemma EmitTargets(n: DOMNode, event: string)
    ensures forall i :: 0 <= i < |EmitTrace(n, event)| ==>
      && EmitTrace(n, event)[i].payload.event == event
      && (i < |n.emitter.Listeners(event)| ==> EmitTrace(n, event)[i].payload.target == n)
      && (i >= |n.emitter.Listeners(event)| ==>
            exists j :: 1 <= j < |PreOrder(n, 0)| && EmitTrace(n, event)[i].payload.target == PreOrder(n, 0)[j].node)
  {
    var vs := PreOrder(n, 0);
    var rest := vs[1..];
    EmitIsPreOrder(n, event, 0);
    assert vs == [Visit(n, 0)] + rest;
    FireAllAppend([Visit(n, 0)], rest, event);
    assert [Visit(n, 0)][..0] == [];
    assert FireAll([Visit(n, 0)], event) == Own(n, event);
    FireAllTargets(rest, event);
    var own, t := Own(n, event), EmitTrace(n, event);
    assert t == own + FireAll(rest, event);
    forall i | 0 <= i < |t|
      ensures t[i].payload.event == event
      ensures i < |n.emitter.Listeners(event)| ==> t[i].payload.target == n
      ensures i >= |n.emitter.Listeners(event)| ==> exists j :: 1 <= j < |vs| && t[i].payload.target == vs[j].node
    {
      if i >= |own| {
        var j :| 0 <= j < |rest| && FireAll(rest, event)[i - |own|].payload.target == rest[j].node;
        assert rest[j] == vs[j + 1];
      }
    }
  }
}
