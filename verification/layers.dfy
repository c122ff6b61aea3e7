/**
  The layer panel: it gives every canvas object an id, keeps each object's
  `zIndex` equal to its stacking position, shows the objects front-most first
  (leaving out the snapping guide lines), mirrors the selection in both
  directions, moves the selected layer one step up or down and hides or shows
  it by saving and restoring its opacity.
 */
module LayersList {
  import opened JsPrims
  import opened Scene

  /** One row of the panel: a read-only projection of a canvas object. */
  datatype LayerEntry = LayerEntry(id: string, zIndex: Option<int>, kind: string, opacity: real)

  /** The panel's notion of the selected layer. */
  datatype SelectedLayer = SelectedLayer(id: string, opacity: real)

  datatype Direction = Up | Down

  /** The canvas together with the panel's own state: the rows it shows and the
      selected layer. */
  datatype Panel = Panel(canvas: Canvas, layers: seq<LayerEntry>, selected: Option<SelectedLayer>)

  // ---------------------------------------------------------------------------
  // Identity and ranks
  // ---------------------------------------------------------------------------

  /** The id an object without one receives: its type and the clock reading. */
  function FreshId(kind: string, now: nat): string {
    kind + "_" + NatToString(now)
  }

  /** Gives an object without an id the id `type_timestamp`; an object that
      already has one is left alone. */
  function EnsureObjectHasId(o: SceneObject, now: nat): (r: SceneObject)
    ensures r.id != ""
    ensures r == o.(id := r.id)
    ensures o.id != "" ==> r == o
    ensures o.id == "" ==> StartsWith(o.kind + "_", r.id)
  {
    if o.id == "" then o.(id := FreshId(o.kind, now)) else o
  }

  /** Assigning ids is idempotent, whatever the clock reads the second time. */
  lemma EnsureObjectHasIdIdempotent(o: SceneObject, t1: nat, t2: nat)
    ensures EnsureObjectHasId(EnsureObjectHasId(o, t1), t2) == EnsureObjectHasId(o, t1)
  {
  }

  /** Two id-less objects of one type seen in the same clock tick receive the
      same id: the assigner alone does not make ids unique. */
  lemma SameTickSameId(a: SceneObject, b: SceneObject, now: nat)
    requires a.id == "" && b.id == "" && a.kind == b.kind
    ensures EnsureObjectHasId(a, now).id == EnsureObjectHasId(b, now).id
  {
  }

  /** Two id-less objects of one type seen at different clock readings receive
      different ids. */
  lemma DistinctTicksDistinctIds(a: SceneObject, b: SceneObject, t1: nat, t2: nat)
    requires a.id == "" && b.id == "" && a.kind == b.kind
    requires t1 != t2
    ensures EnsureObjectHasId(a, t1).id != EnsureObjectHasId(b, t2).id
  {
    var p := a.kind + "_";
    if FreshId(a.kind, t1) == FreshId(b.kind, t2) {
      assert NatToString(t1) == FreshId(a.kind, t1)[|p|..];
      assert NatToString(t2) == FreshId(b.kind, t2)[|p|..];
      NatToStringInjective(t1, t2);
    }
  }

  /** Every object has an id and its `zIndex` is its position. */
  predicate Ranked(objs: seq<SceneObject>) {
    forall i :: 0 <= i < |objs| ==> objs[i].id != "" && objs[i].zIndex == Some(i)
  }

  /** `a` is `b` after a rank recomputation: the id is present (and is `b`'s
      when `b` had one); nothing but the id and `zIndex` differs. */
  predicate Reranked(a: SceneObject, b: SceneObject) {
    && a == b.(id := a.id, zIndex := a.zIndex)
    && a.id != ""
    && (b.id != "" ==> a.id == b.id)
  }

  /** `canvas.updateZIndices()`: every object gets an id and `zIndex := index`. */
  function UpdateZIndices(objs: seq<SceneObject>, now: nat): (r: seq<SceneObject>)
    ensures |r| == |objs|
    ensures Ranked(r)
    ensures forall i :: 0 <= i < |objs| ==> Reranked(r[i], objs[i])
  {
    seq(|objs|, i requires 0 <= i < |objs| => EnsureObjectHasId(objs[i], now).(zIndex := Some(i)))
  }

  /** The ranks of a ranked sequence are exactly `0 .. N-1`, each once. */
  lemma RanksArePermutation(objs: seq<SceneObject>)
    requires Ranked(objs)
    ensures (set i | 0 <= i < |objs| :: objs[i].zIndex) == (set k | 0 <= k < |objs| :: Some(k))
    ensures forall i, j :: 0 <= i < j < |objs| ==> objs[i].zIndex != objs[j].zIndex
  {
    var ranks := set i | 0 <= i < |objs| :: objs[i].zIndex;
    forall x | x in (set k | 0 <= k < |objs| :: Some(k))
      ensures x in ranks
    {
      var k :| 0 <= k < |objs| && x == Some(k);
      assert objs[k].zIndex == x;
    }
  }

  /** Recomputing ranks on an already ranked sequence changes nothing. */
  lemma UpdateZIndicesIdempotent(objs: seq<SceneObject>, t1: nat, t2: nat)
    ensures UpdateZIndices(UpdateZIndices(objs, t1), t2) == UpdateZIndices(objs, t1)
  {
  }

  // ---------------------------------------------------------------------------
  // The derived layer list
  // ---------------------------------------------------------------------------

  /** The snapping guide lines carry ids starting `vertical-` or `horizontal-`;
      they are not layers. */
  predicate IsHelper(o: SceneObject) {
    StartsWith("vertical-", o.id) || StartsWith("horizontal-", o.id)
  }

  function Project(o: SceneObject): LayerEntry {
    LayerEntry(o.id, o.zIndex, o.kind, o.opacity)
  }

  /** The rows for the non-helper objects, in canvas order (back-most first). */
  function VisibleEntries(objs: seq<SceneObject>): (r: seq<LayerEntry>)
    ensures |r| <= |objs|
    ensures forall e :: e in r <==> exists i :: 0 <= i < |objs| && !IsHelper(objs[i]) && e == Project(objs[i])
  {
    if |objs| == 0 then []
    else
      var rest := VisibleEntries(objs[1..]);
      assert forall i :: 1 <= i < |objs| ==> objs[i] == objs[1..][i - 1];
      (if IsHelper(objs[0]) then [] else [Project(objs[0])]) + rest
  }

  /** Appending one object adds at most its row at the end. */
  lemma {:induction false} VisibleEntriesSnoc(a: seq<SceneObject>, x: SceneObject)
    ensures VisibleEntries(a + [x]) == VisibleEntries(a) + (if IsHelper(x) then [] else [Project(x)])
    decreases |a|
  {
    if |a| > 0 {
      assert (a + [x])[1..] == a[1..] + [x];
      VisibleEntriesSnoc(a[1..], x);
    } else {
      assert a + [x] == [x];
    }
  }

  /** Row `e` stands above row `f`: both carry a rank and `e`'s is larger. */
  predicate Above(e: LayerEntry, f: LayerEntry) {
    e.zIndex.Some? && f.zIndex.Some? && e.zIndex.value > f.zIndex.value
  }

  /** Objects ranked `base, base+1, ...` give rows whose ranks rise strictly
      and stay in `[base, base + |objs|)`. */
  lemma {:induction false} VisibleEntriesAscending(objs: seq<SceneObject>, base: int)
    requires forall i :: 0 <= i < |objs| ==> objs[i].zIndex == Some(base + i)
    ensures forall e :: e in VisibleEntries(objs) ==>
              e.zIndex.Some? && base <= e.zIndex.value < base + |objs|
    ensures forall a, b :: 0 <= a < b < |VisibleEntries(objs)| ==>
              Above(VisibleEntries(objs)[b], VisibleEntries(objs)[a])
    decreases |objs|
  {
    if |objs| > 0 {
      var tail := objs[1..];
      assert forall i :: 0 <= i < |tail| ==> tail[i].zIndex == Some((base + 1) + i);
      VisibleEntriesAscending(tail, base + 1);
      var rest := VisibleEntries(tail);
      var r := VisibleEntries(objs);
      if !IsHelper(objs[0]) {
        assert r == [Project(objs[0])] + rest;
        forall a, b | 0 <= a < b < |r|
          ensures Above(r[b], r[a])
        {
          assert r[b] == rest[b - 1] && r[b] in rest;
          if a > 0 {
            assert r[a] == rest[a - 1];
          }
        }
      } else {
        assert r == rest;
      }
    } else {
      assert VisibleEntries(objs) == [];
    }
  }

  function Reverse<T>(s: seq<T>): (r: seq<T>)
    ensures |r| == |s|
    ensures forall i :: 0 <= i < |s| ==> r[i] == s[|s| - 1 - i]
  {
    seq(|s|, i requires 0 <= i < |s| => s[|s| - 1 - i])
  }

  /** The rows the panel shows: the non-helper objects, front-most first. */
  function LayerList(objs: seq<SceneObject>): seq<LayerEntry> {
    Reverse(VisibleEntries(objs))
  }

  /** The rows are exactly the rows of the non-helper objects. */
  lemma LayerListMembers(objs: seq<SceneObject>)
    ensures forall e :: e in LayerList(objs) <==>
              exists i :: 0 <= i < |objs| && !IsHelper(objs[i]) && e == Project(objs[i])
  {
    var v := VisibleEntries(objs);
    var l := LayerList(objs);
    forall e | e in v ensures e in l {
      var k :| 0 <= k < |v| && v[k] == e;
      assert l[|v| - 1 - k] == e;
    }
    forall e | e in l ensures e in v {
      var k :| 0 <= k < |l| && l[k] == e;
      assert v[|v| - 1 - k] == e;
    }
  }

  /** On a ranked canvas each row is the projection of the object its rank
      points at. */
  lemma LayerListEntriesProject(objs: seq<SceneObject>)
    requires Ranked(objs)
    ensures forall a :: 0 <= a < |LayerList(objs)| ==>
              var e := LayerList(objs)[a];
              e.zIndex.Some? && 0 <= e.zIndex.value < |objs| &&
              !IsHelper(objs[e.zIndex.value]) && e == Project(objs[e.zIndex.value])
  {
    var v := VisibleEntries(objs);
    var l := LayerList(objs);
    forall a | 0 <= a < |l|
      ensures l[a].zIndex.Some? && 0 <= l[a].zIndex.value < |objs|
      ensures !IsHelper(objs[l[a].zIndex.value]) && l[a] == Project(objs[l[a].zIndex.value])
    {
      assert l[a] == v[|v| - 1 - a] && l[a] in v;
      var i :| 0 <= i < |objs| && !IsHelper(objs[i]) && l[a] == Project(objs[i]);
      assert objs[i].zIndex == Some(i);
    }
  }

  /** On a ranked canvas the rows' ranks fall strictly (front-most first). */
  lemma LayerListDescending(objs: seq<SceneObject>)
    requires Ranked(objs)
    ensures forall a, b :: 0 <= a < b < |LayerList(objs)| ==>
              Above(LayerList(objs)[a], LayerList(objs)[b])
  {
    VisibleEntriesAscending(objs, 0);
    ReverseOfRising(VisibleEntries(objs));
    assert LayerList(objs) == Reverse(VisibleEntries(objs));
  }

  /** Rows whose ranks rise strictly, read backwards, have strictly falling ranks. */
  lemma ReverseOfRising(v: seq<LayerEntry>)
    requires forall a, b :: 0 <= a < b < |v| ==> Above(v[b], v[a])
    ensures forall a, b :: 0 <= a < b < |Reverse(v)| ==> Above(Reverse(v)[a], Reverse(v)[b])
  {
    var l := Reverse(v);
    forall a, b | 0 <= a < b < |l|
      ensures Above(l[a], l[b])
    {
      var x, y := |v| - 1 - b, |v| - 1 - a;
      assert l[a] == v[y] && l[b] == v[x];
    }
  }

  /** On a ranked canvas the panel shows exactly the non-helper objects, each
      row equal to its object's `{id, zIndex, type, opacity}`, in strictly
      falling rank order (front-most first). */
  lemma LayerListShape(objs: seq<SceneObject>)
    requires Ranked(objs)
    ensures forall e :: e in LayerList(objs) <==>
              exists i :: 0 <= i < |objs| && !IsHelper(objs[i]) && e == Project(objs[i])
    ensures forall a :: 0 <= a < |LayerList(objs)| ==>
              var e := LayerList(objs)[a];
              e.zIndex.Some? && 0 <= e.zIndex.value < |objs| &&
              !IsHelper(objs[e.zIndex.value]) && e == Project(objs[e.zIndex.value])
    ensures forall a, b :: 0 <= a < b < |LayerList(objs)| ==>
              Above(LayerList(objs)[a], LayerList(objs)[b])
  {
    LayerListMembers(objs);
    LayerListEntriesProject(objs);
    LayerListDescending(objs);
  }

  /** The panel agrees with the canvas: ranks are fresh and the rows are the
      ones derived from the current objects. */
  predicate Synced(p: Panel) {
    Ranked(p.canvas.objects) && p.layers == LayerList(p.canvas.objects)
  }

  /** `updateLayers`: recompute ranks, then rebuild the rows. */
  function UpdateLayers(p: Panel, now: nat): (r: Panel)
    ensures Synced(r)
    ensures r.selected == p.selected
    ensures r.canvas == p.canvas.(objects := r.canvas.objects)
    ensures |r.canvas.objects| == |p.canvas.objects|
    ensures forall k :: 0 <= k < |p.canvas.objects| ==> Reranked(r.canvas.objects[k], p.canvas.objects[k])
  {
    var objs := UpdateZIndices(p.canvas.objects, now);
    p.(canvas := p.canvas.(objects := objs), layers := LayerList(objs))
  }

  // ---------------------------------------------------------------------------
  // Selection mirroring
  // ---------------------------------------------------------------------------

  function RecordOf(o: SceneObject): SelectedLayer {
    SelectedLayer(o.id, o.opacity)
  }

  /** `selection:created` / `selection:updated`: record `{id, opacity}` of the
      first selected object, or nothing when the selection is empty. */
  function HandleObjectSelected(p: Panel, selected: seq<SceneObject>): (r: Panel)
    ensures r.canvas == p.canvas && r.layers == p.layers
    ensures r.selected.None? <==> |selected| == 0
    ensures |selected| > 0 ==> r.selected.value.id == selected[0].id && r.selected.value.opacity == selected[0].opacity
  {
    if |selected| > 0 then p.(selected := Some(RecordOf(selected[0]))) else p.(selected := None)
  }

  /** `selection:cleared`. */
  function SelectionCleared(p: Panel): (r: Panel)
    ensures r.selected.None?
    ensures r.canvas == p.canvas && r.layers == p.layers
  {
    p.(selected := None)
  }

  /** `selectLayerInCanvas`: a click on a row makes the object with that id
      active and records its `{id, opacity}`; an unknown id changes nothing. */
  function SelectLayerInCanvas(p: Panel, layerId: string): (r: Panel)
    ensures IndexOfId(p.canvas.objects, layerId).None? ==> r == p
    ensures IndexOfId(p.canvas.objects, layerId).Some? ==>
              var i := IndexOfId(p.canvas.objects, layerId).value;
              && r.canvas == p.canvas.(active := Some(i))
              && r.canvas.objects[i].id == layerId
              && r.selected == Some(SelectedLayer(layerId, p.canvas.objects[i].opacity))
              && r.layers == p.layers
  {
    match IndexOfId(p.canvas.objects, layerId)
    case None => p
    case Some(i) =>
      p.(canvas := p.canvas.(active := Some(i)), selected := Some(RecordOf(p.canvas.objects[i])))
  }

  /** Panel to scene and back: after a row click, the selection event the
      canvas would report for its active object records the same layer. */
  lemma PanelSelectionConverges(p: Panel, layerId: string)
    requires IndexOfId(p.canvas.objects, layerId).Some?
    ensures var r := SelectLayerInCanvas(p, layerId);
            && r.canvas.active.Some? && r.canvas.active.value < |r.canvas.objects|
            && r.canvas.objects[r.canvas.active.value].id == layerId
            && HandleObjectSelected(r, [r.canvas.objects[r.canvas.active.value]]) == r
  {
  }

  /** Scene to panel and back: clicking the row of the object the canvas
      reported as selected activates that same object and keeps the record. */
  lemma SceneSelectionConverges(p: Panel, k: nat)
    requires k < |p.canvas.objects|
    requires forall m :: 0 <= m < k ==> p.canvas.objects[m].id != p.canvas.objects[k].id
    ensures var q := HandleObjectSelected(p, [p.canvas.objects[k]]);
            SelectLayerInCanvas(q, p.canvas.objects[k].id) == q.(canvas := q.canvas.(active := Some(k)))
  {
    var objs := p.canvas.objects;
    var i := IndexOfId(objs, objs[k].id);
    assert i.Some?;
    assert i.value == k;
  }

  // ---------------------------------------------------------------------------
  // Hide / show
  // ---------------------------------------------------------------------------

  /** The eye toggle on one object: a hidden object (opacity 0) gets back its
      saved opacity (or 1) and forgets it; a shown one saves its opacity and
      drops to 0. */
  function ToggleOpacity(o: SceneObject): (r: SceneObject)
    ensures r == o.(opacity := r.opacity, prevOpacity := r.prevOpacity)
    ensures r.opacity == 0.0 <==> o.opacity != 0.0
    ensures o.opacity != 0.0 ==> r.prevOpacity == Some(o.opacity)
    ensures o.opacity == 0.0 ==> r.prevOpacity.None?
    ensures o.opacity == 0.0 && o.prevOpacity.Some? && o.prevOpacity.value != 0.0 ==> r.opacity == o.prevOpacity.value
    ensures o.opacity == 0.0 && (o.prevOpacity.None? || o.prevOpacity.value == 0.0) ==> r.opacity == 1.0
  {
    if o.opacity == 0.0 then o.(opacity := OptOrOne(o.prevOpacity), prevOpacity := None)
    else o.(prevOpacity := Some(OrOne(o.opacity)), opacity := 0.0)
  }

  /** Hiding then showing (or showing then hiding) restores the opacity. */
  lemma ToggleTwiceRestoresOpacity(o: SceneObject)
    ensures ToggleOpacity(ToggleOpacity(o)).opacity == o.opacity
  {
  }

  /** A shown object with nothing saved comes back exactly as it was. */
  lemma ToggleTwiceOnShownObject(o: SceneObject)
    requires o.opacity != 0.0 && o.prevOpacity.None?
    ensures ToggleOpacity(ToggleOpacity(o)) == o
  {
  }

  /** A saved opacity is only ever held by a hidden object, and is non-zero. */
  predicate HiddenStateConsistent(o: SceneObject) {
    o.prevOpacity.Some? ==> o.opacity == 0.0 && o.prevOpacity.value != 0.0
  }

  /** The toggle keeps the save/restore pair consistent. */
  lemma ToggleKeepsHiddenStateConsistent(o: SceneObject)
    requires HiddenStateConsistent(o)
    ensures HiddenStateConsistent(ToggleOpacity(o))
  {
  }

  /** `hideSelectedLayer`: toggle the selected object's visibility, refresh the
      panel and copy the new opacity into the selection record. Without a
      selection, or when its id is no longer on the canvas, nothing happens. */
  function HideSelectedLayer(p: Panel, now: nat): (r: Panel)
    ensures p.selected.None? ==> r == p
    ensures p.selected.Some? && IndexOfId(p.canvas.objects, p.selected.value.id).None? ==> r == p
    ensures p.selected.Some? && IndexOfId(p.canvas.objects, p.selected.value.id).Some? ==>
              var objs := p.canvas.objects;
              var i := IndexOfId(objs, p.selected.value.id).value;
              && Synced(r)
              && r.canvas == p.canvas.(objects := r.canvas.objects)
              && |r.canvas.objects| == |objs|
              && Reranked(r.canvas.objects[i], ToggleOpacity(objs[i]))
              && (forall k :: 0 <= k < |objs| && k != i ==> Reranked(r.canvas.objects[k], objs[k]))
              && r.selected == Some(p.selected.value.(opacity := r.canvas.objects[i].opacity))
  {
    if p.selected.None? then p
    else
      match IndexOfId(p.canvas.objects, p.selected.value.id)
      case None => p
      case Some(i) =>
        var objs := p.canvas.objects;
        var q := UpdateLayers(p.(canvas := p.canvas.(objects := objs[i := ToggleOpacity(objs[i])])), now);
        q.(selected := Some(p.selected.value.(opacity := q.canvas.objects[i].opacity)))
  }

  /** One press of the eye on an object found by id: its opacity pair is
      toggled, every other opacity and every id with a value is kept, and the
      record keeps its id. */
  lemma HideOnce(p: Panel, now: nat)
    requires p.selected.Some? && IndexOfId(p.canvas.objects, p.selected.value.id).Some?
    ensures var q := HideSelectedLayer(p, now);
            var objs := p.canvas.objects;
            var i := IndexOfId(objs, p.selected.value.id).value;
            && |q.canvas.objects| == |objs|
            && q.canvas.objects[i].opacity == ToggleOpacity(objs[i]).opacity
            && q.canvas.objects[i].prevOpacity == ToggleOpacity(objs[i]).prevOpacity
            && (forall k :: 0 <= k < |objs| && k != i ==> q.canvas.objects[k].opacity == objs[k].opacity)
            && (forall k :: 0 <= k < |objs| && objs[k].id != "" ==> q.canvas.objects[k].id == objs[k].id)
            && q.selected == Some(p.selected.value.(opacity := q.canvas.objects[i].opacity))
  {
    var objs := p.canvas.objects;
    var i := IndexOfId(objs, p.selected.value.id).value;
    var q := HideSelectedLayer(p, now);
    assert Reranked(q.canvas.objects[i], ToggleOpacity(objs[i]));
  }

  /** Pressing the eye twice on a ranked canvas restores every object's
      opacity, and the selection record ends with the object's opacity. */
  lemma HideTwiceRestoresOpacity(p: Panel, t1: nat, t2: nat)
    requires Ranked(p.canvas.objects)
    requires p.selected.Some? && IndexOfId(p.canvas.objects, p.selected.value.id).Some?
    ensures var r := HideSelectedLayer(HideSelectedLayer(p, t1), t2);
            var i := IndexOfId(p.canvas.objects, p.selected.value.id).value;
            && |r.canvas.objects| == |p.canvas.objects|
            && (forall k :: 0 <= k < |p.canvas.objects| ==> r.canvas.objects[k].opacity == p.canvas.objects[k].opacity)
            && r.selected == Some(p.selected.value.(opacity := p.canvas.objects[i].opacity))
  {
    var objs := p.canvas.objects;
    var id := p.selected.value.id;
    var i := IndexOfId(objs, id).value;
    var q := HideSelectedLayer(p, t1);
    HideOnce(p, t1);
    IndexOfIdOnlyReadsIds(q.canvas.objects, objs, id);
    HideOnce(q, t2);
    ToggleTwiceRestoresOpacity(objs[i]);
  }

  // ---------------------------------------------------------------------------
  // Reordering
  // ---------------------------------------------------------------------------

  /** Exchange the objects at `i` and `j`. */
  function Swap(objs: seq<SceneObject>, i: nat, j: nat): (r: seq<SceneObject>)
    requires i < |objs| && j < |objs|
    ensures |r| == |objs| && r[i] == objs[j] && r[j] == objs[i]
    ensures forall k :: 0 <= k < |objs| && k != i && k != j ==> r[k] == objs[k]
    ensures multiset(r) == multiset(objs)
  {
    objs[i := objs[j]][j := objs[i]]
  }

  /** Where the object at `i` of `n` ends up: one step towards the front
      (`Up`) or the back (`Down`), unless it is already at that end. */
  function MoveTarget(i: nat, n: nat, dir: Direction): (j: nat)
    requires i < n
    ensures j < n
    ensures dir == Up && i < n - 1 ==> j == i + 1
    ensures dir == Down && i > 0 ==> j == i - 1
    ensures (dir == Up && i == n - 1) || (dir == Down && i == 0) ==> j == i
  {
    match dir
    case Up => if i < n - 1 then i + 1 else i
    case Down => if i > 0 then i - 1 else i
  }

  /** `moveSelectedLayer`: swap the selected object with its neighbour in the
      requested direction (not past either end), rebuild the canvas in the new
      order with the same background, recompute the ranks, keep the moved
      object active and refresh the rows. Without a selection, or when its id
      is no longer on the canvas, nothing happens. */
  function MoveSelectedLayer(p: Panel, dir: Direction, now: nat): (r: Panel)
    ensures p.selected.None? ==> r == p
    ensures p.selected.Some? && IndexOfId(p.canvas.objects, p.selected.value.id).None? ==> r == p
    ensures p.selected.Some? && IndexOfId(p.canvas.objects, p.selected.value.id).Some? ==>
              var objs := p.canvas.objects;
              var i := IndexOfId(objs, p.selected.value.id).value;
              var j := MoveTarget(i, |objs|, dir);
              && Synced(r)
              && ValidCanvas(r.canvas)
              && |r.canvas.objects| == |objs|
              && Reranked(r.canvas.objects[j], objs[i])
              && Reranked(r.canvas.objects[i], objs[j])
              && (forall k :: 0 <= k < |objs| && k != i && k != j ==> Reranked(r.canvas.objects[k], objs[k]))
              && r.canvas.active == Some(j)
              && r.canvas.background == p.canvas.background
              && r.canvas.width == p.canvas.width && r.canvas.height == p.canvas.height
              && r.selected == p.selected
  {
    if p.selected.None? then p
    else
      match IndexOfId(p.canvas.objects, p.selected.value.id)
      case None => p
      case Some(i) =>
        var objs := p.canvas.objects;
        var j := MoveTarget(i, |objs|, dir);
        var rebuilt := p.canvas.(objects := Swap(objs, i, j), active := Some(j));
        UpdateLayers(p.(canvas := rebuilt), now)
  }

  /** The moved object is the active one and still carries the selected id. */
  lemma MovedObjectIsActive(p: Panel, dir: Direction, now: nat)
    requires p.selected.Some? && p.selected.value.id != ""
    requires IndexOfId(p.canvas.objects, p.selected.value.id).Some?
    ensures var r := MoveSelectedLayer(p, dir, now);
            && r.canvas.active.Some? && r.canvas.active.value < |r.canvas.objects|
            && r.canvas.objects[r.canvas.active.value].id == p.selected.value.id
  {
  }

  /** Moving the front-most object up, or the back-most down, keeps the order. */
  lemma MoveAtBoundaryKeepsOrder(p: Panel, dir: Direction, now: nat)
    requires p.selected.Some? && IndexOfId(p.canvas.objects, p.selected.value.id).Some?
    requires var i := IndexOfId(p.canvas.objects, p.selected.value.id).value;
             (dir == Up && i == |p.canvas.objects| - 1) || (dir == Down && i == 0)
    ensures var r := MoveSelectedLayer(p, dir, now);
            |r.canvas.objects| == |p.canvas.objects| &&
            forall k :: 0 <= k < |p.canvas.objects| ==> Reranked(r.canvas.objects[k], p.canvas.objects[k])
  {
  }

  /** An object with its rank forgotten, so that objects can be compared
      across reorders. */
  function Unranked(objs: seq<SceneObject>): (r: seq<SceneObject>)
    ensures |r| == |objs|
    ensures forall k :: 0 <= k < |objs| ==> r[k] == objs[k].(zIndex := None)
  {
    seq(|objs|, k requires 0 <= k < |objs| => objs[k].(zIndex := None))
  }

  /** On a ranked canvas a move permutes the objects: apart from the ranks, the
      canvas holds the same objects, each as often as before. */
  lemma MovePermutes(p: Panel, dir: Direction, now: nat)
    requires Ranked(p.canvas.objects)
    ensures multiset(Unranked(MoveSelectedLayer(p, dir, now).canvas.objects)) == multiset(Unranked(p.canvas.objects))
  {
    var r := MoveSelectedLayer(p, dir, now);
    var objs := p.canvas.objects;
    if p.selected.Some? && IndexOfId(objs, p.selected.value.id).Some? {
      var i := IndexOfId(objs, p.selected.value.id).value;
      var j := MoveTarget(i, |objs|, dir);
      var u := Unranked(objs);
      assert Unranked(r.canvas.objects) == Swap(u, i, j);
    }
  }

  // ---------------------------------------------------------------------------
  // Button states
  // ---------------------------------------------------------------------------

  /** The up arrow is disabled without a selection or when the selected layer
      is the first row (the front-most layer). */
  predicate UpDisabled(p: Panel) {
    p.selected.None? || (|p.layers| > 0 && p.layers[0].id == p.selected.value.id)
  }

  /** The down arrow is disabled without a selection or when the selected layer
      is the last row (the back-most layer). */
  predicate DownDisabled(p: Panel) {
    p.selected.None? || (|p.layers| > 0 && p.layers[|p.layers| - 1].id == p.selected.value.id)
  }

  /** The eye is disabled without a selection. */
  predicate HideDisabled(p: Panel) {
    p.selected.None?
  }

  /** A disabled eye or arrow guards nothing the handler does not already
      refuse: without a selection, hiding and moving leave everything as it was. */
  lemma HideDisabledMeansNoOp(p: Panel, dir: Direction, now: nat)
    requires HideDisabled(p)
    ensures HideSelectedLayer(p, now) == p
    ensures MoveSelectedLayer(p, dir, now) == p
    ensures UpDisabled(p) && DownDisabled(p)
  {
  }

  /** When the up arrow is enabled for a layer that is on the canvas, pressing
      it really moves the object one step towards the front. */
  lemma UpEnabledMeansRoomAbove(p: Panel)
    requires Synced(p)
    requires !UpDisabled(p)
    requires IndexOfId(p.canvas.objects, p.selected.value.id).Some?
    requires !IsHelper(p.canvas.objects[IndexOfId(p.canvas.objects, p.selected.value.id).value])
    ensures IndexOfId(p.canvas.objects, p.selected.value.id).value < |p.canvas.objects| - 1
  {
    var objs := p.canvas.objects;
    var i := IndexOfId(objs, p.selected.value.id).value;
    if i == |objs| - 1 {
      assert objs == objs[..i] + [objs[i]];
      VisibleEntriesSnoc(objs[..i], objs[i]);
      assert false;
    }
  }

  /** When the down arrow is enabled for a layer that is on the canvas,
      pressing it really moves the object one step towards the back. */
  lemma DownEnabledMeansRoomBelow(p: Panel)
    requires Synced(p)
    requires !DownDisabled(p)
    requires IndexOfId(p.canvas.objects, p.selected.value.id).Some?
    requires !IsHelper(p.canvas.objects[IndexOfId(p.canvas.objects, p.selected.value.id).value])
    ensures IndexOfId(p.canvas.objects, p.selected.value.id).value > 0
  {
    var objs := p.canvas.objects;
    var i := IndexOfId(objs, p.selected.value.id).value;
    if i == 0 {
      assert false;
    }
  }
}
