/**
  The canvas-size panel: two inputs for the canvas width and height, 500 x 500
  at first; a typed value is taken only when it parses to a non-negative
  integer, and the canvas follows the panel.
 */
module CanvasSettings {
  import opened JsPrims
  import opened Scene

  datatype CanvasSize = CanvasSize(width: int, height: int)

  /** The size the panel starts with. */
  const InitialSize := CanvasSize(500, 500)

  /** `handleWidthChange`: a non-negative number becomes the width; `NaN` and
      negative numbers are ignored; the height is never touched. */
  function HandleWidthChange(s: CanvasSize, input: string): (r: CanvasSize)
    ensures r.height == s.height
    ensures InputValue(input).Some? && InputValue(input).value >= 0 ==> r.width == InputValue(input).value
    ensures !(InputValue(input).Some? && InputValue(input).value >= 0) ==> r == s
  {
    match InputValue(input)
    case Some(n) => if n >= 0 then s.(width := n) else s
    case None => s
  }

  /** `handleHeightChange`: as the width, for the height. */
  function HandleHeightChange(s: CanvasSize, input: string): (r: CanvasSize)
    ensures r.width == s.width
    ensures InputValue(input).Some? && InputValue(input).value >= 0 ==> r.height == InputValue(input).value
    ensures !(InputValue(input).Some? && InputValue(input).value >= 0) ==> r == s
  {
    match InputValue(input)
    case Some(n) => if n >= 0 then s.(height := n) else s
    case None => s
  }

  /** The effect that runs on every change: the canvas takes the panel's size. */
  function ApplySize(c: Canvas, s: CanvasSize): (r: Canvas)
    ensures r.width == s.width && r.height == s.height
    ensures r.objects == c.objects && r.active == c.active && r.background == c.background
  {
    c.(width := s.width, height := s.height)
  }

  /** A typed decimal number is the new width. */
  lemma TypedWidthTaken(s: CanvasSize, n: nat)
    ensures HandleWidthChange(s, NatToString(n)) == s.(width := n)
  {
    ParseIntOfNatToString(n);
  }

  /** A typed decimal number is the new height. */
  lemma TypedHeightTaken(s: CanvasSize, n: nat)
    ensures HandleHeightChange(s, NatToString(n)) == s.(height := n)
  {
    ParseIntOfNatToString(n);
  }

  /** A negative number leaves the size as it was. */
  lemma NegativeWidthIgnored(s: CanvasSize, n: nat)
    requires n > 0
    ensures HandleWidthChange(s, "-" + NatToString(n)) == s
  {
    var t := "-" + NatToString(n);
    assert StripCommas(t) == t;
    ParseIntOfNegative(n);
  }

  /** Commas anywhere in the input make no difference. */
  lemma CommasIgnored(s: CanvasSize, input: string)
    ensures HandleWidthChange(s, input) == HandleWidthChange(s, StripCommas(input))
    ensures HandleHeightChange(s, input) == HandleHeightChange(s, StripCommas(input))
  {
    StripCommasIdempotent(input);
  }
}
