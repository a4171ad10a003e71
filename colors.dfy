/** Small option type used for values the extractor may leave unset. */
module Options {
  datatype Option<+T> = None | Some(value: T)
}

/**
 * Colours as the extractor handles them: three channels and a stop position,
 * the tolerant comparison used everywhere, and the channel-wise average.
 */
module Colors {

  /** One byte of the decoded image buffer. */
  type Byte = x: int | 0 <= x < 256

  /** The first three bytes of a pixel, red first. */
  datatype Triad = Triad(r: Byte, g: Byte, b: Byte)

  /** The `pos` value of a colour that carries no explicit stop position. */
  const NoPos: int := -1

  /**
   * A colour: three channels and `pos`, a stop percentage or `NoPos`. The
   * source stores the channels in `int` so that two of them can be summed
   * without overflow; every colour it builds comes from image bytes or from
   * averages of them, so each channel holds a byte value.
   */
  datatype Rgb = Rgb(r: Byte, g: Byte, b: Byte, pos: int)

  /** Converts three bytes into a colour without a position. */
  function Byte2Rgb(t: Triad): Rgb
  {
    Rgb(t.r, t.g, t.b, NoPos)
  }

  /** The bytes of a pixel can be read back from its colour, which carries no position. */
  lemma Byte2RgbRoundTrip(t: Triad)
    ensures var c := Byte2Rgb(t);
      Triad(c.r, c.g, c.b) == t && c.pos == NoPos
  {
  }

  /**
   * Channel-wise mean of two colours. The source divides a nonnegative `int`
   * sum by two, so the quotient is the floor. It leaves the position of the
   * average unset; nothing reads it, and the model gives it `NoPos`.
   */
  function Avg(a: Rgb, b: Rgb): Rgb
  {
    Rgb((a.r + b.r) / 2, (a.g + b.g) / 2, (a.b + b.b) / 2, NoPos)
  }

  /** `x` lies between `a` and `b`, whichever of the two is smaller. */
  predicate Between(x: int, a: int, b: int)
  {
    (a <= x <= b) || (b <= x <= a)
  }

  /**
   * Each channel of the average is half the sum of the two channels, rounded
   * down, and so lies between them; the average carries no position.
   */
  lemma AvgBounds(a: Rgb, b: Rgb)
    ensures var c := Avg(a, b);
      && 2 * c.r <= a.r + b.r <= 2 * c.r + 1
      && 2 * c.g <= a.g + b.g <= 2 * c.g + 1
      && 2 * c.b <= a.b + b.b <= 2 * c.b + 1
      && Between(c.r, a.r, b.r) && Between(c.g, a.g, b.g) && Between(c.b, a.b, b.b)
      && c.pos == NoPos
  {
  }

  /** The distance between two channel values. */
  function Dist(x: int, y: int): nat
  {
    if x <= y then y - x else x - y
  }

  /** The tolerance of the colour comparison, in channel units. */
  const Tolerance: nat := 2

  /** Tolerant colour equality, compared channel by channel; the position is ignored. */
  predicate Equal(a: Rgb, b: Rgb)
  {
    a.r <= b.r + Tolerance && a.r >= b.r - Tolerance
    && a.g <= b.g + Tolerance && a.g >= b.g - Tolerance
    && a.b <= b.b + Tolerance && a.b >= b.b - Tolerance
  }

  /** Two colours match exactly when every channel is within the tolerance of the other's. */
  lemma EqualWithinTolerance(a: Rgb, b: Rgb)
    ensures Equal(a, b) <==> Dist(a.r, b.r) <= Tolerance && Dist(a.g, b.g) <= Tolerance && Dist(a.b, b.b) <= Tolerance
  {
  }

  /** Every colour matches itself, whatever its position. */
  lemma EqualReflexive(a: Rgb)
    ensures Equal(a, a)
  {
  }

  /** The comparison does not depend on the order of its arguments. */
  lemma EqualSymmetric(a: Rgb, b: Rgb)
    ensures Equal(a, b) <==> Equal(b, a)
  {
  }

  /** The tolerance does not chain: matching is not transitive. */
  lemma EqualNotTransitive()
    ensures Equal(Rgb(0, 0, 0, NoPos), Rgb(2, 0, 0, NoPos))
    ensures Equal(Rgb(2, 0, 0, NoPos), Rgb(4, 0, 0, NoPos))
    ensures !Equal(Rgb(0, 0, 0, NoPos), Rgb(4, 0, 0, NoPos))
  {
  }

  /** Averaging a colour with itself gives back its channels. */
  lemma AvgSelf(c: Rgb)
    ensures Avg(c, c).r == c.r && Avg(c, c).g == c.g && Avg(c, c).b == c.b
  {
  }

  /** Averaging does not depend on the order of its arguments. */
  lemma AvgSymmetric(a: Rgb, b: Rgb)
    ensures Avg(a, b) == Avg(b, a)
  {
  }
}
