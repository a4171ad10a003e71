/**
 * The whole extraction as a function of the image: direction detection, the
 * two-colour short-circuit, and the stop search between the two end colours.
 */
module Extraction {
  import opened Options
  import opened Colors
  import opened Bitmaps
  import opened Directions
  import opened StopSearch

  /**
   * The result of one extraction: the direction and colour list, or one of
   * the two ways the model stops without one.
   */
  datatype Outcome =
    | Ok(start: Direction, colors: seq<Rgb>)
    | NoCornerPattern   // no corner pattern holds; the source leaves its direction unset
    | FuelExhausted     // the stop search was still running when the fuel ran out

  /**
   * Exactly two colours are emitted: for a diagonal, for an axis shorter than
   * 3 pixels, and when the axis midpoint matches the average of the end colours.
   */
  predicate TwoColours(su: Setup)
  {
    || su.start == TopLeft
    || su.start == TopRight
    || su.l < 3
    || (su.mid.Some? && Equal(su.mid.value, Avg(su.first, su.last)))
  }

  function Calculate(image: Bitmap, fuel: nat): (r: Outcome)
    ensures r.NoCornerPattern? <==> NoCornerMatch(ReadCorners(image))
    ensures r.FuelExhausted? ==> !TwoColours(Detect(image).value)
    ensures r.Ok? ==> r.start == Detect(image).value.start
  {
    match Detect(image)
    case None => NoCornerPattern
    case Some(su) =>
      if TwoColours(su) then Ok(su.start, [su.first, su.last])
      else
        match Run(image, su.start, su.l, Init(), fuel)
        case None => FuelExhausted
        case Some(t) => Ok(su.start, [su.first] + StopsAt(image, su.start, su.l, t.marks) + [su.last])
  }

  /** The short-circuit cases give exactly the two end colours, whatever the fuel. */
  lemma TwoColoursResult(image: Bitmap, fuel: nat)
    requires Detect(image).Some? && TwoColours(Detect(image).value)
    ensures var su := Detect(image).value;
      Calculate(image, fuel) == Ok(su.start, [su.first, su.last])
  {
  }

  /**
   * Every finished extraction: at least two colours, so the source's
   * "not supported" check on zero colours never fires; the start colour first
   * and the end colour last, both without a position; interior stops only for
   * the two axis directions, with percentages in [0, 99] that never decrease
   * on axes up to `MaxExactPosAxis` pixels.
   */
  lemma ExtractedShape(image: Bitmap, fuel: nat)
    requires Calculate(image, fuel).Ok?
    ensures var r := Calculate(image, fuel);
      var su := Detect(image).value;
      && 2 <= |r.colors|
      && r.colors[0] == su.first && r.colors[|r.colors| - 1] == su.last
      && r.colors[0].pos == NoPos && r.colors[|r.colors| - 1].pos == NoPos
      && (2 < |r.colors| ==> r.start == Top || r.start == Left)
      && (forall k :: 0 < k < |r.colors| - 1 ==> 0 <= r.colors[k].pos <= 99)
      && (su.l <= MaxExactPosAxis ==>
            forall j, k :: 0 < j < k < |r.colors| - 1 ==> r.colors[j].pos <= r.colors[k].pos)
  {
    var su := Detect(image).value;
    if !TwoColours(su) {
      var d: AxisDirection := su.start;
      SearchResult(image, d, su.l, fuel);
      var t := Run(image, d, su.l, Init(), fuel).value;
      var stops := StopsAt(image, d, su.l, t.marks);
      var colors := [su.first] + stops + [su.last];
      assert Calculate(image, fuel).colors == colors;
      forall k | 0 < k < |colors| - 1
        ensures colors[k] == stops[k - 1]
      {
      }
    }
  }

  /** Extra fuel does not change a finished extraction: the fuel only bounds the search. */
  lemma CalculateMoreFuel(image: Bitmap, fuel: nat, more: nat)
    requires fuel <= more && Calculate(image, fuel).Ok?
    ensures Calculate(image, more) == Calculate(image, fuel)
  {
    var su := Detect(image).value;
    if !TwoColours(su) {
      RunMoreFuel(image, su.start, su.l, Init(), fuel, more);
    }
  }
}
