/**
  The style palette: a list of named colours. The user adds colours, edits
  them, applies one to the active object (which then remembers the colour's
  id), and saves the palette, which recolours every object that refers to a
  palette entry.
 */
module StyleEditor {
  import opened JsPrims
  import opened Scene

  /** One palette entry. */
  datatype StyleEntry = StyleEntry(id: string, color: string)

  /** The id a new palette entry receives: `color` followed by the clock reading. */
  function ColorId(now: nat): string {
    "color" + NatToString(now)
  }

  /** `addColor`: append the colour being edited under a fresh id. */
  function AddColor(colors: seq<StyleEntry>, newColor: string, now: nat): (r: seq<StyleEntry>)
    ensures |r| == |colors| + 1
    ensures r[..|colors|] == colors
    ensures r[|colors|].color == newColor
    ensures r[|colors|].id == "color" + NatToString(now)
  {
    colors + [StyleEntry(ColorId(now), newColor)]
  }

  /** Colours added at different clock readings receive different ids. */
  lemma DistinctTicksDistinctColorIds(colors: seq<StyleEntry>, a: string, b: string, t1: nat, t2: nat)
    requires t1 != t2
    ensures AddColor(colors, a, t1)[|colors|].id != AddColor(colors, b, t2)[|colors|].id
  {
    if ColorId(t1) == ColorId(t2) {
      assert NatToString(t1) == ColorId(t1)[|"color"|..];
      assert NatToString(t2) == ColorId(t2)[|"color"|..];
      NatToStringInjective(t1, t2);
    }
  }

  /** `updateColor`: every entry with the id takes the new colour; all other
      entries, and the order, stay as they were. */
  function UpdateColor(colors: seq<StyleEntry>, id: string, newColor: string): (r: seq<StyleEntry>)
    ensures |r| == |colors|
    ensures forall k :: 0 <= k < |colors| && colors[k].id == id ==> r[k] == StyleEntry(id, newColor)
    ensures forall k :: 0 <= k < |colors| && colors[k].id != id ==> r[k] == colors[k]
  {
    seq(|colors|, k requires 0 <= k < |colors| =>
      if colors[k].id == id then colors[k].(color := newColor) else colors[k])
  }

  /** Only the last edit of an entry counts. */
  lemma UpdateColorLastWins(colors: seq<StyleEntry>, id: string, a: string, b: string)
    ensures UpdateColor(UpdateColor(colors, id, a), id, b) == UpdateColor(colors, id, b)
  {
  }

  /** Editing a colour just added under a fresh id is the same as adding the
      edited colour in the first place. */
  lemma EditFreshColor(colors: seq<StyleEntry>, first: string, edited: string, now: nat)
    requires forall k :: 0 <= k < |colors| ==> colors[k].id != ColorId(now)
    ensures UpdateColor(AddColor(colors, first, now), ColorId(now), edited) == AddColor(colors, edited, now)
  {
  }

  /** `colors.find(color => color.id === styleID)?.color`: the colour of the
      first entry with the object's style id. An object without a style id
      matches nothing. */
  function FindColor(colors: seq<StyleEntry>, styleId: Option<string>): (r: Option<string>)
    ensures styleId.None? ==> r.None?
    ensures r.None? <==> styleId.None? || forall k :: 0 <= k < |colors| ==> colors[k].id != styleId.value
    ensures r.Some? ==> exists k :: 0 <= k < |colors| && colors[k].id == styleId.value && colors[k].color == r.value &&
                          forall m :: 0 <= m < k ==> colors[m].id != styleId.value
  {
    if styleId.None? || |colors| == 0 then None
    else if colors[0].id == styleId.value then Some(colors[0].color)
    else
      var r := FindColor(colors[1..], styleId);
      if r.Some? then
        var k :| 0 <= k < |colors[1..]| && colors[1..][k].id == styleId.value && colors[1..][k].color == r.value &&
                 forall m :: 0 <= m < k ==> colors[1..][m].id != styleId.value;
        assert colors[k + 1] == colors[1..][k];
        r
      else r
  }

  /** After an edit, looking up the edited id yields the new colour. */
  lemma FindColorAfterUpdate(colors: seq<StyleEntry>, id: string, newColor: string)
    requires exists k :: 0 <= k < |colors| && colors[k].id == id
    ensures FindColor(UpdateColor(colors, id, newColor), Some(id)) == Some(newColor)
  {
    var r := FindColor(UpdateColor(colors, id, newColor), Some(id));
    var u := UpdateColor(colors, id, newColor);
    var k :| 0 <= k < |colors| && colors[k].id == id;
    assert u[k].id == id;
  }

  /** One object's share of `saveColors`: take the palette colour its style id
      refers to, if any. */
  function Recolor(o: SceneObject, colors: seq<StyleEntry>): (r: SceneObject)
    ensures r == o.(fill := r.fill)
    ensures FindColor(colors, o.styleId).None? ==> r == o
    ensures FindColor(colors, o.styleId).Some? ==> r.fill == FindColor(colors, o.styleId).value
  {
    match FindColor(colors, o.styleId)
    case None => o
    case Some(c) => if o.fill != c then o.(fill := c) else o
  }

  /** The object-recolouring part of `saveColors`. */
  function SaveColors(objs: seq<SceneObject>, colors: seq<StyleEntry>): (r: seq<SceneObject>)
    ensures |r| == |objs|
    ensures forall k :: 0 <= k < |objs| ==> r[k] == objs[k].(fill := r[k].fill)
    ensures forall k :: 0 <= k < |objs| && FindColor(colors, objs[k].styleId).None? ==> r[k] == objs[k]
    ensures forall k :: 0 <= k < |objs| && FindColor(colors, objs[k].styleId).Some? ==>
              r[k].fill == FindColor(colors, objs[k].styleId).value
  {
    seq(|objs|, k requires 0 <= k < |objs| => Recolor(objs[k], colors))
  }

  /** Saving twice recolours nothing more than saving once. */
  lemma SaveColorsIdempotent(objs: seq<SceneObject>, colors: seq<StyleEntry>)
    ensures SaveColors(SaveColors(objs, colors), colors) == SaveColors(objs, colors)
  {
  }

  /** After a palette edit and a save, every object referring to the edited
      entry wears the new colour. */
  lemma EditThenSavePropagates(objs: seq<SceneObject>, colors: seq<StyleEntry>, id: string, newColor: string)
    requires exists k :: 0 <= k < |colors| && colors[k].id == id
    ensures forall k :: 0 <= k < |objs| && objs[k].styleId == Some(id) ==>
              SaveColors(objs, UpdateColor(colors, id, newColor))[k].fill == newColor
  {
    FindColorAfterUpdate(colors, id, newColor);
  }

  /** `applyStyle`: the active object takes the colour and remembers the
      entry's id; without an active object nothing happens. */
  function ApplyStyle(c: Canvas, color: string, id: string): (r: Canvas)
    requires ValidCanvas(c)
    ensures ValidCanvas(r)
    ensures c.active.None? ==> r == c
    ensures c.active.Some? ==>
              && r == c.(objects := r.objects)
              && |r.objects| == |c.objects|
              && r.objects[c.active.value] == c.objects[c.active.value].(fill := color, styleId := Some(id))
              && forall k :: 0 <= k < |c.objects| && k != c.active.value ==> r.objects[k] == c.objects[k]
  {
    match c.active
    case None => c
    case Some(i) => c.(objects := c.objects[i := c.objects[i].(fill := color, styleId := Some(id))])
  }

  /** A colour applied from the palette survives saving the unchanged palette. */
  lemma ApplyThenSaveKeepsFill(c: Canvas, colors: seq<StyleEntry>, k: nat)
    requires ValidCanvas(c) && c.active.Some?
    requires k < |colors|
    requires forall m :: 0 <= m < k ==> colors[m].id != colors[k].id
    ensures var r := ApplyStyle(c, colors[k].color, colors[k].id);
            SaveColors(r.objects, colors)[c.active.value] == r.objects[c.active.value]
  {
    var r := ApplyStyle(c, colors[k].color, colors[k].id);
    var i := c.active.value;
    var found := FindColor(colors, Some(colors[k].id));
    assert found.Some?;
    var j :| 0 <= j < |colors| && colors[j].id == colors[k].id && colors[j].color == found.value &&
             forall m :: 0 <= m < j ==> colors[m].id != colors[k].id;
    assert j == k;
  }
}
