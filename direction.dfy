/**
 * Direction detection: the four corner pixels decide along which axis the
 * gradient runs, first matching pattern wins.
 */
module Directions {
  import opened Options
  import opened Colors
  import opened Bitmaps

  /** The directions the extractor assigns, in the order of the source's `point` enumeration. */
  datatype Direction = Left | Top | TopLeft | TopRight

  /** The two directions along which a stop search runs. */
  type AxisDirection = d: Direction | d == Left || d == Top witness Left

  /** Which coordinate varies along the axis: 0 (x) for `Left`, 1 (y) for `Top`. */
  function AxisSlot(d: AxisDirection): nat
  {
    if d == Left then 0 else 1
  }

  /** The coordinate at `axis` along the gradient axis and `other` across it. */
  function Coord(d: AxisDirection, axis: nat, other: nat): (p: XY)
    ensures d == Left ==> p.x == axis && p.y == other
    ensures d == Top ==> p.y == axis && p.x == other
  {
    if AxisSlot(d) == 0 then XY(axis, other) else XY(other, axis)
  }

  /** The pixel at index `a` on row 0 (for `Left`) or column 0 (for `Top`). */
  function AxisPixel(image: Bitmap, d: AxisDirection, a: nat): Rgb
  {
    var p := Coord(d, a, 0);
    GetPixel(image, p.x, p.y)
  }

  /**
   * The midpoint colour of the whole axis of length `l`: the middle pixel when
   * `l` is odd, else the average of the two pixels around the middle.
   */
  function AxisMid(image: Bitmap, d: AxisDirection, l: nat): Rgb
    requires l >= 1
  {
    if l % 2 == 1 then AxisPixel(image, d, l / 2)
    else Avg(AxisPixel(image, d, l / 2), AxisPixel(image, d, l / 2 - 1))
  }

  /** The four corner colours. */
  datatype Corners = Corners(tl: Rgb, tr: Rgb, bl: Rgb, br: Rgb)

  function ReadCorners(image: Bitmap): Corners
  {
    Corners(GetPixel(image, 0, 0),
            GetPixel(image, image.width - 1, 0),
            GetPixel(image, 0, image.height - 1),
            GetPixel(image, image.width - 1, image.height - 1))
  }

  /** No corner pattern applies: the source then leaves its direction unset. */
  predicate NoCornerMatch(c: Corners)
  {
    !Equal(c.tl, c.tr) && !Equal(c.tl, c.bl) && (Equal(c.tr, c.bl) <==> Equal(c.tl, c.br))
  }

  /**
   * What direction detection hands on: the direction, the axis length, the
   * start and end colours, and (for the two axis directions only) the midpoint
   * colour of the sampled row or column.
   */
  datatype Setup = Setup(start: Direction, l: nat, first: Rgb, last: Rgb, mid: Option<Rgb>)

  function Detect(image: Bitmap): (r: Option<Setup>)
    ensures var c := ReadCorners(image);
      && (r.None? <==> NoCornerMatch(c))
      && (r.Some? ==> (r.value.start == Top <==> Equal(c.tl, c.tr)))
      && (r.Some? ==> (r.value.start == Left <==> !Equal(c.tl, c.tr) && Equal(c.tl, c.bl)))
      && (r.Some? ==> (r.value.start == TopLeft <==> !Equal(c.tl, c.tr) && !Equal(c.tl, c.bl) && Equal(c.tr, c.bl)))
      && (r.Some? ==> (r.value.start == TopRight <==> !Equal(c.tl, c.tr) && !Equal(c.tl, c.bl) && !Equal(c.tr, c.bl)))
      && (r.Some? ==> r.value.l == if r.value.start == Left then image.width else image.height)
      && (r.Some? ==> r.value.first == if r.value.start == TopRight then c.tr else c.tl)
      && (r.Some? ==> r.value.last == if r.value.start == TopRight then c.bl else c.br)
      && (r.Some? && r.value.start == Top ==> r.value.mid == Some(AxisMid(image, Top, image.height)))
      && (r.Some? && r.value.start == Left ==> r.value.mid == Some(AxisMid(image, Left, image.width)))
      && (r.Some? && (r.value.start == TopLeft || r.value.start == TopRight) ==> r.value.mid.None?)
  {
    var c := ReadCorners(image);
    if Equal(c.tl, c.tr) then
      Some(Setup(Top, image.height, c.tl, c.br, Some(AxisMid(image, Top, image.height))))
    else if Equal(c.tl, c.bl) then
      Some(Setup(Left, image.width, c.tl, c.br, Some(AxisMid(image, Left, image.width))))
    else if Equal(c.tr, c.bl) && !Equal(c.tl, c.br) then
      Some(Setup(TopLeft, image.height, c.tl, c.br, None))
    else if Equal(c.tl, c.br) && !Equal(c.tr, c.bl) then
      Some(Setup(TopRight, image.height, c.tr, c.bl, None))
    else
      None
  }
}
