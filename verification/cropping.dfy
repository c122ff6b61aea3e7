/**
  The crop tool: it adds a numbered frame rectangle to the canvas and, while
  the user scales it, bakes the scale into the frame's width and height so the
  one-pixel outline never thickens.
 */
module Cropping {
  import opened JsPrims
  import opened Scene

  const FrameLeft: real := 100.0
  const FrameTop: real := 100.0
  const FrameSize: real := 200.0
  const FrameFill := "transparent"
  const FrameStroke := "#07FE3D"

  /** `canvas.getObjects(kind).length`. */
  function CountKind(objs: seq<SceneObject>, kind: string): (n: nat)
    ensures n <= |objs|
    ensures n == 0 <==> forall i :: 0 <= i < |objs| ==> objs[i].kind != kind
  {
    if |objs| == 0 then 0
    else
      assert forall i :: 1 <= i < |objs| ==> objs[i] == objs[1..][i - 1];
      (if objs[0].kind == kind then 1 else 0) + CountKind(objs[1..], kind)
  }

  /** Counting over a concatenation adds the counts. */
  lemma {:induction false} CountKindAppend(a: seq<SceneObject>, b: seq<SceneObject>, kind: string)
    ensures CountKind(a + b, kind) == CountKind(a, kind) + CountKind(b, kind)
    decreases |a|
  {
    if |a| > 0 {
      assert (a + b)[1..] == a[1..] + b;
      CountKindAppend(a[1..], b, kind);
    } else {
      assert a + b == b;
    }
  }

  /** The name of the next frame: `Frame <number of rectangles + 1>`. */
  function FrameName(rects: nat): string {
    "Frame " + NatToString(rects + 1)
  }

  /** A fresh frame as Fabric builds it: a transparent 200 x 200 rectangle at
      (100, 100) with a one-pixel green outline; every other property takes
      Fabric's default (unit scale, full opacity, visible, no id yet). */
  function NewFrame(name: string): SceneObject {
    SceneObject(
      id := "", kind := "rect", name := Some(name),
      opacity := 1.0, prevOpacity := None, zIndex := None,
      left := FrameLeft, top := FrameTop, width := FrameSize, height := FrameSize, radius := 0.0,
      scaleX := 1.0, scaleY := 1.0,
      fill := FrameFill, stroke := FrameStroke, strokeWidth := 1.0,
      styleId := None, visible := true)
  }

  /** `addFrameToCanvas`: append a new frame named after the current number of
      rectangles; everything already on the canvas stays as it was. */
  function AddFrameToCanvas(c: Canvas): (r: Canvas)
    ensures |r.objects| == |c.objects| + 1
    ensures r.objects[..|c.objects|] == c.objects
    ensures r == c.(objects := r.objects)
    ensures var f := r.objects[|c.objects|];
            && f.kind == "rect" && f.id == ""
            && f.name == Some("Frame " + NatToString(CountKind(c.objects, "rect") + 1))
            && f.left == 100.0 && f.top == 100.0 && f.width == 200.0 && f.height == 200.0
            && f.scaleX == 1.0 && f.scaleY == 1.0
            && f.strokeWidth == 1.0 && f.fill == "transparent" && f.visible
  {
    c.(objects := c.objects + [NewFrame(FrameName(CountKind(c.objects, "rect")))])
  }

  /** Frames added one after another are numbered consecutively. */
  lemma ConsecutiveFramesNumbered(c: Canvas)
    ensures var c1 := AddFrameToCanvas(c);
            var c2 := AddFrameToCanvas(c1);
            && c1.objects[|c.objects|].name == Some(FrameName(CountKind(c.objects, "rect")))
            && c2.objects[|c1.objects|].name == Some(FrameName(CountKind(c.objects, "rect") + 1))
  {
    var f := NewFrame(FrameName(CountKind(c.objects, "rect")));
    CountKindAppend(c.objects, [f], "rect");
    assert CountKind([f], "rect") == 1;
  }

  /** `maintainStrokeWidth`: fold the scale into width and height (a zero
      scale counts as 1, `object.scaleX || 1`), reset both scale factors to 1
      and the outline to one pixel. */
  function MaintainStrokeWidth(o: SceneObject): (r: SceneObject)
    ensures r == o.(width := r.width, height := r.height, scaleX := 1.0, scaleY := 1.0, strokeWidth := 1.0)
    ensures o.scaleX != 0.0 ==> r.width * r.scaleX == o.width * o.scaleX
    ensures o.scaleY != 0.0 ==> r.height * r.scaleY == o.height * o.scaleY
    ensures o.scaleX == 0.0 ==> r.width == o.width
    ensures o.scaleY == 0.0 ==> r.height == o.height
  {
    o.(width := o.width * OrOne(o.scaleX),
       height := o.height * OrOne(o.scaleY),
       scaleX := 1.0, scaleY := 1.0, strokeWidth := 1.0)
  }

  /** Normalising an already normalised frame changes nothing. */
  lemma MaintainStrokeWidthIdempotent(o: SceneObject)
    ensures MaintainStrokeWidth(MaintainStrokeWidth(o)) == MaintainStrokeWidth(o)
  {
  }

  /** A 200 x 200 frame stretched by 2 horizontally and 0.5 vertically
      becomes a 400 x 100 frame at unit scale with a one-pixel outline. */
  lemma StretchedFrameExample(o: SceneObject)
    requires o.width == 200.0 && o.height == 200.0 && o.scaleX == 2.0 && o.scaleY == 0.5
    ensures var r := MaintainStrokeWidth(o);
            r.width == 400.0 && r.height == 100.0 && r.scaleX == 1.0 && r.scaleY == 1.0 && r.strokeWidth == 1.0
  {
  }
}
