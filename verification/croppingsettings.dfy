/**
  The crop panel: it lists the frame rectangles on the canvas, lets the user
  pick one, and exports the picked frame's region as a PNG with the other
  frames hidden and the picked frame's outline removed for the capture.

  The panel holds its frames and the selected frame as positions in the
  canvas's object sequence.
 */
module CroppingSettings {
  import opened JsPrims
  import opened Scene
  import Cropping

  /** The panel's state: the frames it lists and the selected frame. */
  datatype CropPanel = CropPanel(frames: seq<nat>, selected: Option<nat>)

  /** The canvas next to the crop panel. */
  datatype CropView = CropView(canvas: Canvas, panel: CropPanel)

  /** The rectangle handed to `canvas.toDataURL`. */
  datatype Region = Region(left: real, top: real, width: real, height: real)

  /** What the export captures: the scene as it stands at capture time, the
      region and the download file name. */
  datatype Capture = Capture(scene: seq<SceneObject>, region: Region, fileName: string)

  datatype Export = Export(view: CropView, capture: Option<Capture>)

  /** A frame is a rectangle whose name starts with "Frame". */
  predicate IsFrame(o: SceneObject) {
    o.kind == "rect" && o.name.Some? && StartsWith("Frame", o.name.value)
  }

  /** The panel only refers to objects that are on the canvas. */
  predicate RefsValid(v: CropView) {
    && (forall k :: 0 <= k < |v.panel.frames| ==> v.panel.frames[k] < |v.canvas.objects|)
    && (v.panel.selected.Some? ==> v.panel.selected.value < |v.canvas.objects|)
  }

  /** The positions at or after `from` that hold a frame, in canvas order. */
  function FramesFrom(objs: seq<SceneObject>, from: nat): (r: seq<nat>)
    requires from <= |objs|
    ensures forall k :: 0 <= k < |r| ==> from <= r[k] < |objs| && IsFrame(objs[r[k]])
    ensures forall i :: from <= i < |objs| && IsFrame(objs[i]) ==> i in r
    ensures forall a, b :: 0 <= a < b < |r| ==> r[a] < r[b]
    decreases |objs| - from
  {
    if from == |objs| then []
    else (if IsFrame(objs[from]) then [from] else []) + FramesFrom(objs, from + 1)
  }

  /** `updateFrames`: list every frame on the canvas in canvas order; when
      there is at least one, the first becomes the selected frame, otherwise
      the selection is kept. */
  function UpdateFrames(v: CropView): (r: CropView)
    ensures r.canvas == v.canvas
    ensures forall k :: 0 <= k < |r.panel.frames| ==>
              r.panel.frames[k] < |v.canvas.objects| && IsFrame(v.canvas.objects[r.panel.frames[k]])
    ensures forall i :: 0 <= i < |v.canvas.objects| && IsFrame(v.canvas.objects[i]) ==> i in r.panel.frames
    ensures forall a, b :: 0 <= a < b < |r.panel.frames| ==> r.panel.frames[a] < r.panel.frames[b]
    ensures |r.panel.frames| > 0 ==>
              && r.panel.selected.Some?
              && r.panel.selected.value < |v.canvas.objects|
              && IsFrame(v.canvas.objects[r.panel.selected.value])
              && forall i :: 0 <= i < r.panel.selected.value ==> !IsFrame(v.canvas.objects[i])
    ensures |r.panel.frames| == 0 ==> r.panel.selected == v.panel.selected
  {
    var frames := FramesFrom(v.canvas.objects, 0);
    if |frames| > 0 then
      assert forall i :: 0 <= i < frames[0] && IsFrame(v.canvas.objects[i]) ==> i in frames;
      CropView(v.canvas, CropPanel(frames, Some(frames[0])))
    else CropView(v.canvas, CropPanel(frames, v.panel.selected))
  }

  /** A frame added by the crop tool shows up as the last entry of the list. */
  lemma AddedFrameIsListed(v: CropView)
    ensures var r := UpdateFrames(v.(canvas := Cropping.AddFrameToCanvas(v.canvas)));
            |r.panel.frames| > 0 && r.panel.frames[|r.panel.frames| - 1] == |v.canvas.objects|
  {
    var c := Cropping.AddFrameToCanvas(v.canvas);
    var n := |v.canvas.objects|;
    var name := c.objects[n].name.value;
    assert name[..|"Frame"|] == "Frame";
    assert IsFrame(c.objects[n]);
    var r := UpdateFrames(v.(canvas := c));
    var fs := r.panel.frames;
    assert n in fs;
    var k :| 0 <= k < |fs| && fs[k] == n;
  }

  /** The first listed frame whose name equals `value`, as a position in the list. */
  function FindFrameByName(objs: seq<SceneObject>, frames: seq<nat>, value: string): (r: Option<nat>)
    requires forall k :: 0 <= k < |frames| ==> frames[k] < |objs|
    ensures r.Some? ==> r.value < |frames| && objs[frames[r.value]].name == Some(value)
    ensures r.Some? ==> forall m :: 0 <= m < r.value ==> objs[frames[m]].name != Some(value)
    ensures r.None? <==> forall k :: 0 <= k < |frames| ==> objs[frames[k]].name != Some(value)
  {
    if |frames| == 0 then None
    else if objs[frames[0]].name == Some(value) then Some(0)
    else
      match FindFrameByName(objs, frames[1..], value)
      case None => None
      case Some(k) => Some(k + 1)
  }

  /** `handleFrameSelect`: the first listed frame named `value` becomes the
      selected frame and the canvas's active object. An unlisted name clears
      the selected frame. */
  function HandleFrameSelect(v: CropView, value: string): (r: CropView)
    requires RefsValid(v)
    ensures RefsValid(r)
    ensures r.panel.frames == v.panel.frames
    ensures r.panel.selected.Some? <==>
              exists k :: 0 <= k < |v.panel.frames| && v.canvas.objects[v.panel.frames[k]].name == Some(value)
    ensures r.panel.selected.None? ==> r.canvas == v.canvas
    ensures r.panel.selected.Some? ==>
              && r.panel.selected.value in v.panel.frames
              && v.canvas.objects[r.panel.selected.value].name == Some(value)
              && r.canvas == v.canvas.(active := r.panel.selected)
              && exists m :: 0 <= m < |v.panel.frames| && v.panel.frames[m] == r.panel.selected.value &&
                   forall j :: 0 <= j < m ==> v.canvas.objects[v.panel.frames[j]].name != Some(value)
  {
    match FindFrameByName(v.canvas.objects, v.panel.frames, value)
    case None => v.(panel := v.panel.(selected := None))
    case Some(k) =>
      var f := v.panel.frames[k];
      CropView(v.canvas.(active := Some(f)), v.panel.(selected := Some(f)))
  }

  /** Choosing the name of a listed frame that no earlier listed frame shares
      selects that frame and makes it active, and changes nothing else. */
  lemma SelectListedFrame(v: CropView, k: nat)
    requires RefsValid(v)
    requires k < |v.panel.frames| && v.canvas.objects[v.panel.frames[k]].name.Some?
    requires forall j :: 0 <= j < k ==>
               v.canvas.objects[v.panel.frames[j]].name != v.canvas.objects[v.panel.frames[k]].name
    ensures var f := v.panel.frames[k];
            HandleFrameSelect(v, v.canvas.objects[f].name.value) ==
              CropView(v.canvas.(active := Some(f)), v.panel.(selected := Some(f)))
  {
    var f := v.panel.frames[k];
    var found := FindFrameByName(v.canvas.objects, v.panel.frames, v.canvas.objects[f].name.value);
    assert found.Some?;
    assert found.value == k;
  }

  /** After a refresh, choosing the selected frame's name in the drop-down
      keeps that frame selected and makes it the active object. */
  lemma RefreshThenSelectFirst(v: CropView)
    requires |UpdateFrames(v).panel.frames| > 0
    ensures var u := UpdateFrames(v);
            var f := u.panel.selected.value;
            && RefsValid(u)
            && v.canvas.objects[f].name.Some?
            && HandleFrameSelect(u, v.canvas.objects[f].name.value) ==
                 CropView(v.canvas.(active := Some(f)), u.panel)
  {
    var u := UpdateFrames(v);
    assert u.panel.selected == Some(u.panel.frames[0]);
    SelectListedFrame(u, 0);
  }

  /** The file name part of a template literal `${name}`. */
  function NameText(name: Option<string>): string {
    match name
    case None => "undefined"
    case Some(n) => n
  }

  /** Set `visible := v` on every listed position. */
  function SetVisibility(objs: seq<SceneObject>, frames: seq<nat>, v: bool): (r: seq<SceneObject>)
    ensures |r| == |objs|
    ensures forall k :: 0 <= k < |objs| && k in frames ==> r[k] == objs[k].(visible := v)
    ensures forall k :: 0 <= k < |objs| && k !in frames ==> r[k] == objs[k]
  {
    seq(|objs|, k requires 0 <= k < |objs| => if k in frames then objs[k].(visible := v) else objs[k])
  }

  /** `exportFrameAsPNG`: hide every listed frame, show the selected one
      without outline, capture its region, then give it back its one-pixel
      outline and show every listed frame again. Without a selected frame
      nothing happens. */
  function ExportFrameAsPNG(v: CropView): (r: Export)
    requires RefsValid(v)
    ensures v.panel.selected.None? ==> r.view == v && r.capture.None?
    ensures v.panel.selected.Some? ==>
              var s := v.panel.selected.value;
              var objs := v.canvas.objects;
              var f := objs[s];
              && r.capture.Some?
              && r.view.panel == v.panel
              && r.view.canvas == v.canvas.(objects := r.view.canvas.objects)
              && |r.capture.value.scene| == |objs|
              && |r.view.canvas.objects| == |objs|
              // at capture time
              && r.capture.value.scene[s] == f.(visible := true, strokeWidth := 0.0)
              && (forall k :: 0 <= k < |objs| && k != s && k in v.panel.frames ==>
                    r.capture.value.scene[k] == objs[k].(visible := false))
              && (forall k :: 0 <= k < |objs| && k != s && k !in v.panel.frames ==>
                    r.capture.value.scene[k] == objs[k])
              && r.capture.value.region == Region(f.left, f.top, f.width * f.scaleX, f.height * f.scaleY)
              && r.capture.value.fileName == NameText(f.name) + ".png"
              // afterwards
              && r.view.canvas.objects[s] == f.(visible := true, strokeWidth := 1.0)
              && (forall k :: 0 <= k < |objs| && k != s && k in v.panel.frames ==>
                    r.view.canvas.objects[k] == objs[k].(visible := true))
              && (forall k :: 0 <= k < |objs| && k != s && k !in v.panel.frames ==>
                    r.view.canvas.objects[k] == objs[k])
  {
    match v.panel.selected
    case None => Export(v, None)
    case Some(s) =>
      var objs := v.canvas.objects;
      var hidden := SetVisibility(objs, v.panel.frames, false);
      var scene := hidden[s := hidden[s].(strokeWidth := 0.0, visible := true)];
      var f := scene[s];
      var region := Region(f.left, f.top, f.width * f.scaleX, f.height * f.scaleY);
      var outlined := scene[s := scene[s].(strokeWidth := 1.0)];
      var after := SetVisibility(outlined, v.panel.frames, true);
      Export(v.(canvas := v.canvas.(objects := after)),
             Some(Capture(scene, region, NameText(objs[s].name) + ".png")))
  }

  /** On a canvas where every listed frame is shown and the selected frame
      has its one-pixel outline, exporting leaves the canvas exactly as it was. */
  lemma ExportRestoresCanvas(v: CropView)
    requires RefsValid(v)
    requires forall k :: 0 <= k < |v.panel.frames| ==> v.canvas.objects[v.panel.frames[k]].visible
    requires v.panel.selected.Some? ==>
               v.canvas.objects[v.panel.selected.value].visible &&
               v.canvas.objects[v.panel.selected.value].strokeWidth == 1.0
    ensures ExportFrameAsPNG(v).view == v
  {
    if v.panel.selected.Some? {
      var r := ExportFrameAsPNG(v);
      var objs := v.canvas.objects;
      assert forall k :: 0 <= k < |objs| && k in v.panel.frames ==> objs[k].visible;
      assert r.view.canvas.objects == objs;
    }
  }

  /** After an export the canvas is one on which exporting again changes nothing. */
  lemma ExportSettles(v: CropView)
    requires RefsValid(v)
    ensures RefsValid(ExportFrameAsPNG(v).view)
    ensures ExportFrameAsPNG(ExportFrameAsPNG(v).view).view == ExportFrameAsPNG(v).view
  {
    var r1 := ExportFrameAsPNG(v);
    if v.panel.selected.Some? {
      assert forall k :: 0 <= k < |v.panel.frames| ==> r1.view.canvas.objects[v.panel.frames[k]].visible;
      ExportRestoresCanvas(r1.view);
    }
  }

  /** A second export captures exactly what the first one captured. */
  lemma ExportCapturesAgain(v: CropView)
    requires RefsValid(v)
    requires RefsValid(ExportFrameAsPNG(v).view)
    ensures ExportFrameAsPNG(ExportFrameAsPNG(v).view).capture == ExportFrameAsPNG(v).capture
  {
    var r1 := ExportFrameAsPNG(v);
    if v.panel.selected.Some? {
      var s := v.panel.selected.value;
      var objs := v.canvas.objects;
      var r2 := ExportFrameAsPNG(r1.view);
      assert r2.capture.value.region == r1.capture.value.region;
      assert r2.capture.value.fileName == r1.capture.value.fileName;
      forall k | 0 <= k < |objs|
        ensures r2.capture.value.scene[k] == r1.capture.value.scene[k]
      {
        if k != s && k in v.panel.frames {
          assert r1.view.canvas.objects[k] == objs[k].(visible := true);
        }
      }
      assert r2.capture.value.scene == r1.capture.value.scene;
    }
  }

  /** Exporting twice captures the same picture and ends in the same state as
      exporting once. */
  lemma ExportRepeatable(v: CropView)
    requires RefsValid(v)
    ensures RefsValid(ExportFrameAsPNG(v).view)
    ensures ExportFrameAsPNG(ExportFrameAsPNG(v).view) == ExportFrameAsPNG(v)
  {
    ExportSettles(v);
    ExportCapturesAgain(v);
  }
}
