/**
 * The scenario at the end of composite.ts: three images with one click listener
 * each, a fourth image with its own listener inside a nested container, and an
 * outer container with a listener of its own. The callbacks are numbered 1 to 3
 * for the first three images, 4 for the fourth and 5 for the container.
 */
module CompositeDemo {
  import opened Emitter
  import opened Composite

  /** An image: tag "img" and no children. */
  predicate IsImage(n: DOMNode)
  {
    n.tag == "img" && n.children == Absent
  }

  /** The shape of the demo tree: div[img, img, img, div[img]]. */
  predicate IsDemoTree(container: DOMNode)
  {
    && container.tag == "div"
    && container.children.Present?
    && |container.children.nodes| == 4
    && IsImage(container.children.nodes[0])
    && IsImage(container.children.nodes[1])
    && IsImage(container.children.nodes[2])
    && container.children.nodes[3].tag == "div"
    && container.children.nodes[3].children.Present?
    && |container.children.nodes[3].children.nodes| == 1
    && IsImage(container.children.nodes[3].children.nodes[0])
  }

  lemma {:induction false} LeafClick(n: DOMNode, fn: CallbackId)
    requires IsImage(n) && n.emitter.Listeners("click") == [fn]
    ensures EmitTrace(n, "click") == [Invocation(fn, Event("click", n))]
  {
    assert Own(n, "click") == [Invocation(fn, Event("click", n))];
  }

  /** The listeners the demo registers for "click". */
  predicate HasDemoListeners(container: DOMNode)
    requires IsDemoTree(container)
    reads container.emitter, container.children.nodes[0].emitter, container.children.nodes[1].emitter,
      container.children.nodes[2].emitter, container.children.nodes[3].emitter,
      container.children.nodes[3].children.nodes[0].emitter
  {
    var kids := container.children.nodes;
    && container.emitter.Listeners("click") == [5]
    && kids[0].emitter.Listeners("click") == [1]
    && kids[1].emitter.Listeners("click") == [2]
    && kids[2].emitter.Listeners("click") == [3]
    && kids[3].emitter.Listeners("click") == []
    && kids[3].children.nodes[0].emitter.Listeners("click") == [4]
  }

  /** Clicking the nested container reaches only the fourth image's listener. */
  lemma InnerClick(inner: DOMNode, fn: CallbackId)
    requires inner.children.Present? && |inner.children.nodes| == 1
    requires IsImage(inner.children.nodes[0])
    requires inner.emitter.Listeners("click") == []
    requires inner.children.nodes[0].emitter.Listeners("click") == [fn]
    ensures EmitTrace(inner, "click") == [Invocation(fn, Event("click", inner.children.nodes[0]))]
  {
    var image := inner.children.nodes[0];
    LeafClick(image, fn);
    assert Own(inner, "click") == [];
    assert ForestTrace([image], "click") == EmitTrace(image, "click") by {
      assert [image][..0] == [];
    }
    assert inner.children.nodes == [image];
  }

  /** Clicking the first three images in turn calls 1, 2 and 3. */
  lemma ImagesClick(kids: seq<DOMNode>)
    requires |kids| == 4 && IsImage(kids[0]) && IsImage(kids[1]) && IsImage(kids[2])
    requires kids[0].emitter.Listeners("click") == [1]
    requires kids[1].emitter.Listeners("click") == [2]
    requires kids[2].emitter.Listeners("click") == [3]
    ensures ForestTrace(kids[..3], "click") == [
      Invocation(1, Event("click", kids[0])),
      Invocation(2, Event("click", kids[1])),
      Invocation(3, Event("click", kids[2]))]
  {
    var e := "click";
    LeafClick(kids[0], 1);
    LeafClick(kids[1], 2);
    LeafClick(kids[2], 3);
    assert ForestTrace(kids[..1], e) == EmitTrace(kids[0], e) by {
      assert kids[..1][..0] == [];
    }
    ForestTraceSnoc(kids, 1, e);
    ForestTraceSnoc(kids, 2, e);
  }

  /**
   * Clicking the demo container fires the container's listener, then those of
   * the first three images, then the fourth image's, each with its own node as
   * target.
   */
  lemma DemoClick(container: DOMNode)
    requires IsDemoTree(container) && HasDemoListeners(container)
    ensures var kids := container.children.nodes;
      EmitTrace(container, "click") == [
        Invocation(5, Event("click", container)),
        Invocation(1, Event("click", kids[0])),
        Invocation(2, Event("click", kids[1])),
        Invocation(3, Event("click", kids[2])),
        Invocation(4, Event("click", kids[3].children.nodes[0]))]
  {
    var kids := container.children.nodes;
    var e := "click";
    InnerClick(kids[3], 4);
    ImagesClick(kids);
    ForestTraceSnoc(kids, 3, e);
    assert kids[..4] == kids;
    assert Own(container, e) == [Invocation(5, Event(e, container))];
  }

  lemma {:induction false} LeafRender(n: DOMNode, depth: nat)
    requires IsImage(n)
    ensures RenderLines(n, depth) == [Offset(depth) + "img"]
  {
  }

  /** Rendering the demo container prints div, three images, then the nested div and its image. */
  lemma DemoRender(container: DOMNode)
    requires IsDemoTree(container)
    ensures RenderLines(container, 0) == ["div", "- img", "- img", "- img", "- div", "-- img"]
  {
    var kids := container.children.nodes;
    var image4 := kids[3].children.nodes[0];
    var img1, img2 := "- img", "-- img";
    assert Offset(1) + "img" == img1;
    assert Offset(2) + "img" == img2;
    LeafRender(kids[0], 1);
    LeafRender(kids[1], 1);
    LeafRender(kids[2], 1);
    LeafRender(image4, 2);
    assert ForestLines([image4], 2) == [img2] by {
      assert [image4][..0] == [];
    }
    assert RenderLines(kids[3], 1) == [Offset(1) + "div", img2];
    assert ForestLines(kids[..1], 1) == [img1] by {
      assert kids[..1][..0] == [];
    }
    assert ForestLines(kids[..2], 1) == [img1, img1] by {
      assert kids[..2][..1] == kids[..1];
    }
    assert ForestLines(kids[..3], 1) == [img1, img1, img1] by {
      assert kids[..3][..2] == kids[..2];
    }
    assert ForestLines(kids, 1) == ForestLines(kids[..3], 1) + RenderLines(kids[3], 1);
    var div1 := "- div";
    assert Offset(1) + "div" == div1;
    assert Offset(0) + container.tag == "div";
    assert RenderLines(container, 0) == ["div"] + [img1, img1, img1] + [div1, img2];
  }

  /** `new Image(src, alt)` followed by one `on("click", fn)`. */
  method NewClickableImage(src: string, alt: string, fn: CallbackId) returns (image: DOMNode)
    ensures IsImage(image) && fresh(image.emitter) && image.emitter.Listeners("click") == [fn]
  {
    image := NewImage(src, alt);
    On(image, "click", fn);
  }

  /** Lines 72-93 of composite.ts: build the tree and register the listeners. */
  method BuildDemo() returns (container: DOMNode)
    ensures IsDemoTree(container) && HasDemoListeners(container)
  {
    var image1 := NewClickableImage("https://example.org?img_name=1.png", "first_image", 1);
    var image2 := NewClickableImage("https://example.org?img_name=2.png", "second_image", 2);
    var image3 := NewClickableImage("https://example.org?img_name=3.png", "third_image", 3);
    var image4 := NewClickableImage("https://example.org?img_name=4.png", "fourth_image", 4);
    var childContainer := NewDivContainer(Present([image4]), "");
    container := NewDivContainer(Present([image1, image2, image3, childContainer]), "inner_text");
    On(container, "click", 5);
  }

  /** Lines 95-97 of composite.ts: `container.emit("click")`, then `container.render()`. */
  method ClickDemo() returns (trace: Trace, lines: seq<string>)
    ensures |trace| == 5
    ensures forall i :: 0 <= i < 5 ==> trace[i].payload.event == "click"
    ensures [trace[0].callback, trace[1].callback, trace[2].callback, trace[3].callback, trace[4].callback]
      == [5, 1, 2, 3, 4]
    ensures trace[0].payload.target.tag == "div" && trace[4].payload.target.tag == "img"
    ensures lines == ["div", "- img", "- img", "- img", "- div", "-- img"]
  {
    var container := BuildDemo();
    trace := Emit(container, "click");
    DemoClick(container);
    lines := Render(container, 0);
    DemoRender(container);
  }
}
