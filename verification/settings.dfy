/**
  The object settings panel: it shows the selected rectangle's width and
  height, or the selected circle's diameter, rounded to whole pixels, and its
  fill colour; typed sizes are written back into the object so that the shown
  value is what the object measures on screen.

  The panel holds the selected object itself; the handlers return it updated.
 */
module Settings {
  import opened JsPrims
  import opened Scene

  /** A numeric input: empty, or the integer last typed or shown. */
  datatype Field = Blank | Num(n: int)

  datatype SettingsPanel = SettingsPanel(
    selected: Option<SceneObject>,
    width: Field,
    height: Field,
    diameter: Field,
    color: string)

  /** The panel before anything is selected. */
  const InitialPanel := SettingsPanel(None, Blank, Blank, Blank, "")

  predicate IsRect(o: Option<SceneObject>) {
    o.Some? && o.value.kind == "rect"
  }

  predicate IsCircle(o: Option<SceneObject>) {
    o.Some? && o.value.kind == "circle"
  }

  /** `handleObjectSelection` (on `selection:created`, `selection:updated`,
      `object:modified` and `object:scaling`): remember the object and show
      its on-screen size and fill. A missing object changes nothing; an
      object that is neither a rectangle nor a circle only becomes the
      selected object. */
  function HandleObjectSelection(p: SettingsPanel, obj: Option<SceneObject>): (r: SettingsPanel)
    ensures obj.None? ==> r == p
    ensures obj.Some? ==> r.selected == obj
    ensures IsRect(obj) ==>
              var o := obj.value;
              && r.width.Num? && r.width.n as real - 0.5 <= o.width * o.scaleX < r.width.n as real + 0.5
              && r.height.Num? && r.height.n as real - 0.5 <= o.height * o.scaleY < r.height.n as real + 0.5
              && r.color == o.fill && r.diameter == Blank
    ensures IsCircle(obj) ==>
              var o := obj.value;
              && r.diameter.Num? && r.diameter.n as real - 0.5 <= o.radius * 2.0 * o.scaleX < r.diameter.n as real + 0.5
              && r.color == o.fill && r.width == Blank && r.height == Blank
    ensures obj.Some? && !IsRect(obj) && !IsCircle(obj) ==> r == p.(selected := obj)
  {
    match obj
    case None => p
    case Some(o) =>
      if o.kind == "rect" then
        p.(selected := obj,
           width := Num(Round(o.width * o.scaleX)),
           height := Num(Round(o.height * o.scaleY)),
           color := o.fill,
           diameter := Blank)
      else if o.kind == "circle" then
        p.(selected := obj,
           diameter := Num(Round(o.radius * 2.0 * o.scaleX)),
           color := o.fill,
           width := Blank,
           height := Blank)
      else p.(selected := obj)
  }

  /** `clearSettings`: empty all four inputs. */
  function ClearSettings(p: SettingsPanel): (r: SettingsPanel)
    ensures r.width == Blank && r.height == Blank && r.diameter == Blank && r.color == ""
    ensures r.selected == p.selected
  {
    p.(width := Blank, height := Blank, color := "", diameter := Blank)
  }

  /** `selection:cleared`: forget the object and empty the inputs. */
  function SelectionCleared(p: SettingsPanel): (r: SettingsPanel)
    ensures r == InitialPanel
  {
    ClearSettings(p.(selected := None))
  }

  /** What the input shows after typing: the integer, or empty on `NaN`. */
  function FieldOf(v: Option<int>): (f: Field)
    ensures v.None? <==> f == Blank
    ensures v.Some? ==> f == Num(v.value)
  {
    match v
    case None => Blank
    case Some(n) => Num(n)
  }

  /** A typed size is written back only when it is a number and not negative. */
  predicate Accepts(v: Option<int>) {
    v.Some? && v.value >= 0
  }

  /** `n / scale`: the unscaled length that measures `n` on screen. */
  function Unscale(n: int, scale: real): (x: real)
    requires scale != 0.0
    ensures x * scale == n as real
  {
    n as real / scale
  }

  /** `n / 2 / scale`: the unscaled radius of a circle `n` wide on screen. */
  function UnscaleHalf(n: int, scale: real): (x: real)
    requires scale != 0.0
    ensures x * 2.0 * scale == n as real
  {
    var h := n as real / 2.0;
    assert (h / scale) * scale == h;
    h / scale
  }

  /** `handleWidthChange` after parsing: show the typed width; for a selected
      rectangle and a non-negative number, set the object's width so that
      width times horizontal scale is the typed value. */
  function ApplyWidth(p: SettingsPanel, v: Option<int>): (r: SettingsPanel)
    requires IsRect(p.selected) ==> p.selected.value.scaleX != 0.0
    ensures r.width == FieldOf(v)
    ensures r.height == p.height && r.diameter == p.diameter && r.color == p.color
    ensures IsRect(p.selected) && Accepts(v) ==>
              var o := p.selected.value;
              && r.selected.Some? && r.selected.value == o.(width := r.selected.value.width)
              && r.selected.value.width * o.scaleX == v.value as real
    ensures !(IsRect(p.selected) && Accepts(v)) ==> r.selected == p.selected
  {
    var shown := p.(width := FieldOf(v));
    if IsRect(p.selected) && Accepts(v) then
      var o := p.selected.value;
      shown.(selected := Some(o.(width := Unscale(v.value, o.scaleX))))
    else shown
  }

  /** `handleWidthChange`: strip commas, parse, then `ApplyWidth`. */
  function HandleWidthChange(p: SettingsPanel, input: string): (r: SettingsPanel)
    requires IsRect(p.selected) ==> p.selected.value.scaleX != 0.0
    ensures r.width == FieldOf(InputValue(input))
    ensures !Accepts(InputValue(input)) ==> r.selected == p.selected
  {
    ApplyWidth(p, InputValue(input))
  }

  /** `handleHeightChange` after parsing: as the width, with the height and
      the vertical scale. */
  function ApplyHeight(p: SettingsPanel, v: Option<int>): (r: SettingsPanel)
    requires IsRect(p.selected) ==> p.selected.value.scaleY != 0.0
    ensures r.height == FieldOf(v)
    ensures r.width == p.width && r.diameter == p.diameter && r.color == p.color
    ensures IsRect(p.selected) && Accepts(v) ==>
              var o := p.selected.value;
              && r.selected.Some? && r.selected.value == o.(height := r.selected.value.height)
              && r.selected.value.height * o.scaleY == v.value as real
    ensures !(IsRect(p.selected) && Accepts(v)) ==> r.selected == p.selected
  {
    var shown := p.(height := FieldOf(v));
    if IsRect(p.selected) && Accepts(v) then
      var o := p.selected.value;
      shown.(selected := Some(o.(height := Unscale(v.value, o.scaleY))))
    else shown
  }

  /** `handleHeightChange`: strip commas, parse, then `ApplyHeight`. */
  function HandleHeightChange(p: SettingsPanel, input: string): (r: SettingsPanel)
    requires IsRect(p.selected) ==> p.selected.value.scaleY != 0.0
    ensures r.height == FieldOf(InputValue(input))
    ensures !Accepts(InputValue(input)) ==> r.selected == p.selected
  {
    ApplyHeight(p, InputValue(input))
  }

  /** `handleDiameterChange` after parsing: for a selected circle and a
      non-negative number, set the radius so that twice the radius times
      horizontal scale is the typed value. */
  function ApplyDiameter(p: SettingsPanel, v: Option<int>): (r: SettingsPanel)
    requires IsCircle(p.selected) ==> p.selected.value.scaleX != 0.0
    ensures r.diameter == FieldOf(v)
    ensures r.width == p.width && r.height == p.height && r.color == p.color
    ensures IsCircle(p.selected) && Accepts(v) ==>
              var o := p.selected.value;
              && r.selected.Some? && r.selected.value == o.(radius := r.selected.value.radius)
              && r.selected.value.radius * 2.0 * o.scaleX == v.value as real
    ensures !(IsCircle(p.selected) && Accepts(v)) ==> r.selected == p.selected
  {
    var shown := p.(diameter := FieldOf(v));
    if IsCircle(p.selected) && Accepts(v) then
      var o := p.selected.value;
      shown.(selected := Some(o.(radius := UnscaleHalf(v.value, o.scaleX))))
    else shown
  }

  /** `handleDiameterChange`: strip commas, parse, then `ApplyDiameter`. */
  function HandleDiameterChange(p: SettingsPanel, input: string): (r: SettingsPanel)
    requires IsCircle(p.selected) ==> p.selected.value.scaleX != 0.0
    ensures r.diameter == FieldOf(InputValue(input))
    ensures !Accepts(InputValue(input)) ==> r.selected == p.selected
  {
    ApplyDiameter(p, InputValue(input))
  }

  /** `handleColorChange`: show the colour and fill any selected object with
      it, whatever its type. */
  function HandleColorChange(p: SettingsPanel, value: string): (r: SettingsPanel)
    ensures r.color == value
    ensures r.width == p.width && r.height == p.height && r.diameter == p.diameter
    ensures p.selected.None? ==> r.selected.None?
    ensures p.selected.Some? ==> r.selected == Some(p.selected.value.(fill := value))
  {
    var shown := p.(color := value);
    match p.selected
    case None => shown
    case Some(o) => shown.(selected := Some(o.(fill := value)))
  }

  /** A colour typed for a selected rectangle or circle is what the panel
      shows when the object is next reported. */
  lemma ColorChangeShownOnReport(p: SettingsPanel, value: string)
    requires IsRect(p.selected) || IsCircle(p.selected)
    ensures var r := HandleColorChange(p, value);
            HandleObjectSelection(r, r.selected).color == value
  {
  }

  /** A width written into a rectangle is shown back unchanged when the
      object is next reported (after a move, say). */
  lemma ApplyWidthShowsValue(p: SettingsPanel, n: nat)
    requires IsRect(p.selected) && p.selected.value.scaleX != 0.0
    ensures var r := ApplyWidth(p, Some(n));
            HandleObjectSelection(r, r.selected).width == Num(n)
  {
    RoundOfInt(n);
  }

  /** The same for the height. */
  lemma ApplyHeightShowsValue(p: SettingsPanel, n: nat)
    requires IsRect(p.selected) && p.selected.value.scaleY != 0.0
    ensures var r := ApplyHeight(p, Some(n));
            HandleObjectSelection(r, r.selected).height == Num(n)
  {
    RoundOfInt(n);
  }

  /** The same for a circle's diameter. */
  lemma ApplyDiameterShowsValue(p: SettingsPanel, n: nat)
    requires IsCircle(p.selected) && p.selected.value.scaleX != 0.0
    ensures var r := ApplyDiameter(p, Some(n));
            HandleObjectSelection(r, r.selected).diameter == Num(n)
  {
    RoundOfInt(n);
  }

  /** Typing a decimal number into the width of a selected rectangle: the
      panel shows that number again when the object is next reported. */
  lemma WidthRoundTrip(p: SettingsPanel, n: nat)
    requires IsRect(p.selected) && p.selected.value.scaleX != 0.0
    ensures var r := HandleWidthChange(p, NatToString(n));
            HandleObjectSelection(r, r.selected).width == Num(n)
  {
    ParsesTo(n);
    ApplyWidthShowsValue(p, n);
  }

  /** The same round trip for the height. */
  lemma HeightRoundTrip(p: SettingsPanel, n: nat)
    requires IsRect(p.selected) && p.selected.value.scaleY != 0.0
    ensures var r := HandleHeightChange(p, NatToString(n));
            HandleObjectSelection(r, r.selected).height == Num(n)
  {
    ParsesTo(n);
    ApplyHeightShowsValue(p, n);
  }

  /** The same round trip for a circle's diameter. */
  lemma DiameterRoundTrip(p: SettingsPanel, n: nat)
    requires IsCircle(p.selected) && p.selected.value.scaleX != 0.0
    ensures var r := HandleDiameterChange(p, NatToString(n));
            HandleObjectSelection(r, r.selected).diameter == Num(n)
  {
    ParsesTo(n);
    ApplyDiameterShowsValue(p, n);
  }

  /** A rendered natural number passes through comma stripping and parsing
      unchanged. */
  lemma ParsesTo(n: nat)
    ensures InputValue(NatToString(n)) == Some(n)
  {
    ParseIntOfNatToString(n);
  }

  /** Input with no digit shows an empty field and leaves the object alone. */
  lemma NonNumericWidthIgnored(p: SettingsPanel, input: string)
    requires IsRect(p.selected) ==> p.selected.value.scaleX != 0.0
    requires forall i :: 0 <= i < |input| ==> !IsDigit(input[i])
    ensures HandleWidthChange(p, input) == p.(width := Blank)
  {
    var s := StripCommas(input);
    forall i | 0 <= i < |s| ensures !IsDigit(s[i]) {
      assert multiset(s)[s[i]] > 0;
      assert multiset(input)[s[i]] > 0;
    }
    ParseIntNoDigits(s);
  }

  /** A negative size is shown but never written into the object. */
  lemma NegativeWidthIgnored(p: SettingsPanel, n: nat)
    requires IsRect(p.selected) ==> p.selected.value.scaleX != 0.0
    requires n > 0
    ensures HandleWidthChange(p, "-" + NatToString(n)) == p.(width := Num(-(n as int)))
  {
    var s := "-" + NatToString(n);
    assert StripCommas(s) == s;
    ParseIntOfNegative(n);
  }
}
