/**
  The Fabric canvas as the editor's components see it: an ordered sequence of
  object records (index 0 is the back-most object), the active object, the
  background colour and the canvas size.

  Fabric objects are mutable and shared by reference; here an object is an
  immutable record and a component that holds "the active object" or "the
  selected frame" holds its position in `objects`.
 */
module Scene {
  import opened JsPrims

  /** One Fabric object, reduced to the properties the components read or write.
      `id == ""` stands for an object without an id (`!object.id` holds for
      both `undefined` and the empty string). `kind` is Fabric's `type`
      ("rect", "circle", "textbox", ...). */
  datatype SceneObject = SceneObject(
    id: string,
    kind: string,
    name: Option<string>,
    opacity: real,
    prevOpacity: Option<real>,
    zIndex: Option<int>,
    left: real,
    top: real,
    width: real,
    height: real,
    radius: real,
    scaleX: real,
    scaleY: real,
    fill: string,
    stroke: string,
    strokeWidth: real,
    styleId: Option<string>,
    visible: bool)

  /** The canvas: its objects in stacking order, the position of the active
      object, the background colour and the size in pixels. */
  datatype Canvas = Canvas(
    objects: seq<SceneObject>,
    active: Option<nat>,
    background: string,
    width: int,
    height: int)

  /** The active object, when there is one, is one of the canvas's objects. */
  predicate ValidCanvas(c: Canvas) {
    c.active.Some? ==> c.active.value < |c.objects|
  }

  /** `objects.find(obj => obj.id === id)`, as a position: the first object
      carrying `id`, or `None` when no object does. */
  function IndexOfId(objs: seq<SceneObject>, id: string): (r: Option<nat>)
    ensures r.Some? ==> r.value < |objs| && objs[r.value].id == id
    ensures r.Some? ==> forall k :: 0 <= k < r.value ==> objs[k].id != id
    ensures r.None? <==> forall k :: 0 <= k < |objs| ==> objs[k].id != id
  {
    if |objs| == 0 then None
    else if objs[0].id == id then Some(0)
    else
      match IndexOfId(objs[1..], id)
      case None => None
      case Some(i) => Some(i + 1)
  }

  /** Finding an id only looks at ids: objects may change in every other
      respect without moving the answer. */
  lemma {:induction false} IndexOfIdOnlyReadsIds(a: seq<SceneObject>, b: seq<SceneObject>, id: string)
    requires |a| == |b|
    requires forall k :: 0 <= k < |a| ==> a[k].id == b[k].id
    ensures IndexOfId(a, id) == IndexOfId(b, id)
    decreases |a|
  {
    if |a| > 0 && a[0].id != id {
      IndexOfIdOnlyReadsIds(a[1..], b[1..], id);
    }
  }
}
