/**
 * Concrete images and what the extractor makes of them.
 */
module Examples {
  import opened Options
  import opened Colors
  import opened Bitmaps
  import opened Directions
  import opened StopSearch
  import opened Extraction

  /** A pixel with red channel `r` and no green or blue. */
  function Red(r: Byte): Triad
  {
    Triad(r, 0, 0)
  }

  /** The `w` by `h` image whose pixel (x, y) holds `f(x, y)`. */
  function Image(w: Dim, h: Dim, f: (nat, nat) -> Triad): Bitmap
  {
    Bitmap(w, h, (n: nat) => f(n % w, n / w))
  }

  /** Division by `w` recovers the quotient and the remainder of `w * q + r` when `r < w`. */
  lemma DivModOf(w: nat, q: nat, r: nat)
    requires r < w
    ensures (w * q + r) / w == q && (w * q + r) % w == r
  {
    var k := w * q + r;
    var q', r' := k / w, k % w;
    assert k == (q' * w) + r';
    if q' < q {
      assert (q' + 1) * w == q' * w + w;
      MulLe(q' + 1, q, w);
    } else if q < q' {
      assert (q + 1) * w == q * w + w;
      MulLe(q + 1, q', w);
    }
  }

  /** Reading pixel (x, y) inside a row of `Image(w, h, f)` gives the colour of `f(x, y)`. */
  lemma ImagePixel(w: Dim, h: Dim, f: (nat, nat) -> Triad, x: nat, y: nat)
    requires x < w
    ensures GetPixel(Image(w, h, f), x, y) == Byte2Rgb(f(x, y))
  {
    assert y * w + x == w * y + x;
    DivModOf(w, y, x);
  }

  /** A 256 by 1 ramp from black to full red. */
  function Ramp(): Bitmap
  {
    Image(256, 1, RampPixel)
  }

  function RampPixel(x: nat, y: nat): Triad
  {
    Red(if x < 256 then x else 0)
  }

  /** The pixels of `Ramp` that direction detection reads: both ends and the two middle pixels of row 0. */
  predicate RampPixels(image: Bitmap)
  {
    && image.width == 256 && image.height == 1
    && GetPixel(image, 0, 0) == Byte2Rgb(Red(0)) && GetPixel(image, 255, 0) == Byte2Rgb(Red(255))
    && GetPixel(image, 127, 0) == Byte2Rgb(Red(127)) && GetPixel(image, 128, 0) == Byte2Rgb(Red(128))
  }

  /** The ramp's top corners differ and its left corners agree: it runs left to right. */
  lemma RampSetup(image: Bitmap)
    requires RampPixels(image)
    ensures Detect(image) == Some(Setup(Left, 256, Rgb(0, 0, 0, NoPos), Rgb(255, 0, 0, NoPos), Some(Rgb(127, 0, 0, NoPos))))
  {
    assert ReadCorners(image) == Corners(Rgb(0, 0, 0, NoPos), Rgb(255, 0, 0, NoPos), Rgb(0, 0, 0, NoPos), Rgb(255, 0, 0, NoPos));
    assert AxisMid(image, Left, 256) == Rgb(127, 0, 0, NoPos);
  }

  /** The ramp runs left to right, and its midpoint matches the ends' average: two colours only. */
  lemma RampIsTwoColours(fuel: nat)
    ensures Calculate(Ramp(), fuel) == Ok(Left, [Rgb(0, 0, 0, NoPos), Rgb(255, 0, 0, NoPos)])
  {
    var image := Ramp();
    ImagePixel(256, 1, RampPixel, 0, 0);
    ImagePixel(256, 1, RampPixel, 255, 0);
    ImagePixel(256, 1, RampPixel, 127, 0);
    ImagePixel(256, 1, RampPixel, 128, 0);
    RampSetup(image);
    TwoColoursResult(image, fuel);
  }

  /** A 1 by 100 column: red on rows 0 to 49, blue below. */
  function HardStep(): Bitmap
  {
    Image(1, 100, HardStepPixel)
  }

  function HardStepPixel(x: nat, y: nat): Triad
  {
    if y < 50 then Triad(255, 0, 0) else Triad(0, 0, 255)
  }

  /**
   * A hard colour step in the middle of a column still gives two colours:
   * the average of the two middle pixels equals the average of the ends.
   */
  lemma HardStepIsTwoColours(fuel: nat)
    ensures Calculate(HardStep(), fuel) == Ok(Top, [Rgb(255, 0, 0, NoPos), Rgb(0, 0, 255, NoPos)])
  {
    var image := HardStep();
    ImagePixel(1, 100, HardStepPixel, 0, 0);
    ImagePixel(1, 100, HardStepPixel, 0, 99);
    assert GetPixel(image, 0, 0) == Byte2Rgb(Triad(255, 0, 0)) && GetPixel(image, 0, 99) == Byte2Rgb(Triad(0, 0, 255));
    ImagePixel(1, 100, HardStepPixel, 0, 49);
    ImagePixel(1, 100, HardStepPixel, 0, 50);
    assert GetPixel(image, 0, 49) == Byte2Rgb(Triad(255, 0, 0)) && GetPixel(image, 0, 50) == Byte2Rgb(Triad(0, 0, 255));
    assert AxisMid(image, Top, 100) == Rgb(127, 0, 127, NoPos);
    TwoColoursResult(image, fuel);
  }

  /** A 2 by 5 image whose rows are black, half red, red, half red, black. */
  function Triangle(): Bitmap
  {
    Image(2, 5, TrianglePixel)
  }

  function TrianglePixel(x: nat, y: nat): Triad
  {
    Red(if y == 2 then 100 else if y == 1 || y == 3 then 50 else 0)
  }

  /** The pixels of `Triangle` that the search reads: column 0 and the pixel at (1, 2). */
  predicate TrianglePixels(image: Bitmap)
  {
    && image.width == 2
    && GetPixel(image, 0, 0) == Byte2Rgb(Red(0)) && GetPixel(image, 0, 1) == Byte2Rgb(Red(50)) && GetPixel(image, 0, 2) == Byte2Rgb(Red(100))
    && GetPixel(image, 0, 3) == Byte2Rgb(Red(50)) && GetPixel(image, 0, 4) == Byte2Rgb(Red(0))
    && GetPixel(image, 1, 2) == Byte2Rgb(Red(100))
  }

  /** Pass 1: the window over rows 0 to 2 is linear but not converged, so it is widened to row 4. */
  lemma TrianglePass1(image: Bitmap)
    requires TrianglePixels(image)
    ensures Step(image, Top, 5, Init()) == Search(0, 2, 4, 4, [])
  {
    assert Linear(image, Top, Init());
  }

  /** Pass 2: the window over rows 0 to 4 is not linear, so it is halved to row 3. */
  lemma TrianglePass2(image: Bitmap)
    requires TrianglePixels(image)
    ensures Step(image, Top, 5, Search(0, 2, 4, 4, [])) == Search(0, 2, 4, 3, [])
  {
    assert !Linear(image, Top, Search(0, 2, 4, 4, []));
  }

  /** Pass 3: the window over rows 0 to 3 is not linear, so it is halved to row 2. */
  lemma TrianglePass3(image: Bitmap)
    requires TrianglePixels(image)
    ensures Step(image, Top, 5, Search(0, 2, 4, 3, [])) == Search(0, 2, 3, 2, [])
  {
    assert !Linear(image, Top, Search(0, 2, 4, 3, []));
  }

  /** Pass 4: the window over rows 0 to 2 is linear and converged: the stop at row 2 is committed. */
  lemma TrianglePass4(image: Bitmap)
    requires TrianglePixels(image)
    ensures Step(image, Top, 5, Search(0, 2, 3, 2, [])) == Search(2, 0, 2, 2, [2])
  {
    var s := Search(0, 2, 3, 2, []);
    assert WindowAvg(image, Top, s) == Rgb(50, 0, 0, NoPos);
    assert WindowMid(image, Top, s) == Rgb(50, 0, 0, NoPos);
    assert Linear(image, Top, s) && Converged(s);
  }

  /** Pass 5: the window over rows 2 to 4 is linear, and its widening is clamped to the last row. */
  lemma TrianglePass5(image: Bitmap)
    requires TrianglePixels(image)
    ensures Step(image, Top, 5, Search(2, 0, 2, 2, [2])) == Search(2, 2, 2, 2, [2])
  {
    assert Linear(image, Top, Search(2, 0, 2, 2, [2]));
  }

  /** Pass 6: the same window is now converged and ends at the last row, which is skipped. */
  lemma TrianglePass6(image: Bitmap)
    requires TrianglePixels(image)
    ensures Step(image, Top, 5, Search(2, 2, 2, 2, [2])) == Search(2, 2, 2, 3, [2])
  {
    assert Linear(image, Top, Search(2, 2, 2, 2, [2]));
  }

  /** The search on the triangle ends after six passes with one stop, at row 2. */
  lemma TriangleRun(image: Bitmap)
    requires TrianglePixels(image)
    ensures Run(image, Top, 5, Init(), 10) == Some(Search(2, 2, 2, 3, [2]))
  {
    TrianglePass1(image);
    RunUnfold(image, Top, 5, Init(), 10, 9);
    TrianglePass2(image);
    RunUnfold(image, Top, 5, Search(0, 2, 4, 4, []), 9, 8);
    TrianglePass3(image);
    RunUnfold(image, Top, 5, Search(0, 2, 4, 3, []), 8, 7);
    TrianglePass4(image);
    RunUnfold(image, Top, 5, Search(0, 2, 3, 2, []), 7, 6);
    TrianglePass5(image);
    RunUnfold(image, Top, 5, Search(2, 0, 2, 2, [2]), 6, 5);
    TrianglePass6(image);
    RunUnfold(image, Top, 5, Search(2, 2, 2, 2, [2]), 5, 4);
  }

  /** The stop at row 2 of 5 is the peak colour at 40 percent. */
  lemma TriangleStop(image: Bitmap)
    requires TrianglePixels(image)
    ensures StopsAt(image, Top, 5, [2]) == [Rgb(100, 0, 0, 40)]
  {
    assert StopPos(2, 5) == 40;
  }

  /** The triangle's corners and midpoint: it runs top to bottom, and its peak rules out the two-colour short-circuit. */
  lemma TriangleSetup() returns (su: Setup)
    ensures su == Setup(Top, 5, Rgb(0, 0, 0, NoPos), Rgb(0, 0, 0, NoPos), Some(Rgb(100, 0, 0, NoPos)))
    ensures TrianglePixels(Triangle())
    ensures Detect(Triangle()) == Some(su) && !TwoColours(su)
  {
    var image := Triangle();
    ImagePixel(2, 5, TrianglePixel, 0, 0);
    ImagePixel(2, 5, TrianglePixel, 0, 1);
    ImagePixel(2, 5, TrianglePixel, 0, 2);
    assert GetPixel(image, 0, 0) == Byte2Rgb(Red(0)) && GetPixel(image, 0, 1) == Byte2Rgb(Red(50)) && GetPixel(image, 0, 2) == Byte2Rgb(Red(100));
    ImagePixel(2, 5, TrianglePixel, 0, 3);
    ImagePixel(2, 5, TrianglePixel, 0, 4);
    assert GetPixel(image, 0, 3) == Byte2Rgb(Red(50)) && GetPixel(image, 0, 4) == Byte2Rgb(Red(0));
    ImagePixel(2, 5, TrianglePixel, 1, 0);
    ImagePixel(2, 5, TrianglePixel, 1, 2);
    ImagePixel(2, 5, TrianglePixel, 1, 4);
    assert GetPixel(image, 1, 0) == Byte2Rgb(Red(0)) && GetPixel(image, 1, 2) == Byte2Rgb(Red(100)) && GetPixel(image, 1, 4) == Byte2Rgb(Red(0));
    su := Setup(Top, 5, Rgb(0, 0, 0, NoPos), Rgb(0, 0, 0, NoPos), Some(Rgb(100, 0, 0, NoPos)));
  }

  /** On an image with the triangle's corners, midpoint and column, the search finds one stop. */
  lemma TriangleOutcome(image: Bitmap, su: Setup)
    requires TrianglePixels(image) && Detect(image) == Some(su)
    requires su == Setup(Top, 5, Rgb(0, 0, 0, NoPos), Rgb(0, 0, 0, NoPos), Some(Rgb(100, 0, 0, NoPos)))
    ensures Calculate(image, 10) == Ok(Top, [Rgb(0, 0, 0, NoPos), Rgb(100, 0, 0, 40), Rgb(0, 0, 0, NoPos)])
  {
    TriangleRun(image);
    TriangleStop(image);
    var colors := [su.first] + StopsAt(image, Top, 5, [2]) + [su.last];
    assert Calculate(image, 10) == Ok(Top, colors);
    assert colors == [Rgb(0, 0, 0, NoPos), Rgb(100, 0, 0, 40), Rgb(0, 0, 0, NoPos)];
  }

  /** The peak of the triangle is found as one stop at 40 percent. */
  lemma TriangleStops()
    ensures Calculate(Triangle(), 10)
              == Ok(Top, [Rgb(0, 0, 0, NoPos), Rgb(100, 0, 0, 40), Rgb(0, 0, 0, NoPos)])
  {
    var su := TriangleSetup();
    TriangleOutcome(Triangle(), su);
  }

  /**
   * A 2 by 3 image on which the search never ends: column 0 is black, black,
   * red, and column 1 is black, red, red.
   */
  function Cycle(): Bitmap
  {
    Image(2, 3, CyclePixel)
  }

  function CyclePixel(x: nat, y: nat): Triad
  {
    Red(if (x == 1 && y >= 1) || (x == 0 && y == 2) then 100 else 0)
  }

  /** The pixels of `Cycle` that the search reads: column 0 and the pixel at (1, 1). */
  predicate CyclePixels(image: Bitmap)
  {
    && image.width == 2
    && GetPixel(image, 0, 0) == Byte2Rgb(Red(0)) && GetPixel(image, 0, 1) == Byte2Rgb(Red(0)) && GetPixel(image, 0, 2) == Byte2Rgb(Red(100))
    && GetPixel(image, 1, 1) == Byte2Rgb(Red(100))
  }

  /** The fresh window over rows 0 to 2 fails the linearity test and is halved. */
  lemma CycleFirstPass(image: Bitmap, marks: seq<nat>, fuel: nat, rest: nat)
    requires CyclePixels(image) && fuel == rest + 1
    ensures Run(image, Top, 3, Search(0, 0, 2, 2, marks), fuel)
              == Run(image, Top, 3, Search(0, 0, 2, 1, marks), rest)
  {
    assert Step(image, Top, 3, Search(0, 0, 2, 2, marks)) == Search(0, 0, 2, 1, marks);
    RunUnfold(image, Top, 3, Search(0, 0, 2, 2, marks), fuel, rest);
  }

  /**
   * The window over rows 0 to 1 fails too: its odd end index makes it average
   * in the off-axis pixel (1, 1).
   */
  lemma CycleSecondPass(image: Bitmap, marks: seq<nat>, fuel: nat, rest: nat)
    requires CyclePixels(image) && fuel == rest + 1
    ensures Run(image, Top, 3, Search(0, 0, 2, 1, marks), fuel)
              == Run(image, Top, 3, Search(0, 0, 1, 0, marks), rest)
  {
    assert Step(image, Top, 3, Search(0, 0, 2, 1, marks)) == Search(0, 0, 1, 0, marks);
    RunUnfold(image, Top, 3, Search(0, 0, 2, 1, marks), fuel, rest);
  }

  /** The one-pixel window at row 0 passes and commits a stop at row 0, restarting the search there. */
  lemma CycleThirdPass(image: Bitmap, marks: seq<nat>, fuel: nat, rest: nat)
    requires CyclePixels(image) && fuel == rest + 1
    ensures Run(image, Top, 3, Search(0, 0, 1, 0, marks), fuel)
              == Run(image, Top, 3, Search(0, 0, 2, 2, marks + [0]), rest)
  {
    assert Step(image, Top, 3, Search(0, 0, 1, 0, marks)) == Search(0, 0, 2, 2, marks + [0]);
    RunUnfold(image, Top, 3, Search(0, 0, 1, 0, marks), fuel, rest);
  }

  /** Three passes lead from a fresh window at row 0 back to one, with one more stop at row 0. */
  lemma CycleRound(image: Bitmap, marks: seq<nat>, fuel: nat)
    requires CyclePixels(image) && 3 <= fuel
    ensures Run(image, Top, 3, Search(0, 0, 2, 2, marks), fuel)
              == Run(image, Top, 3, Search(0, 0, 2, 2, marks + [0]), fuel - 3)
  {
    CycleFirstPass(image, marks, fuel, fuel - 1);
    CycleSecondPass(image, marks, fuel - 1, fuel - 2);
    CycleThirdPass(image, marks, fuel - 2, fuel - 3);
  }

  /** Fewer than three passes leave the search on `Cycle` running. */
  lemma CycleShort(image: Bitmap, marks: seq<nat>, fuel: nat)
    requires CyclePixels(image) && fuel < 3
    ensures Run(image, Top, 3, Search(0, 0, 2, 2, marks), fuel) == None
  {
    if 0 < fuel {
      CycleFirstPass(image, marks, fuel, fuel - 1);
      if 1 < fuel {
        CycleSecondPass(image, marks, fuel - 1, fuel - 2);
      }
    }
  }

  /** However much fuel it is given, the search on `Cycle` from a fresh window at row 0 is still running. */
  lemma {:induction false} CycleNeverEnds(image: Bitmap, marks: seq<nat>, fuel: nat)
    requires CyclePixels(image)
    ensures Run(image, Top, 3, Search(0, 0, 2, 2, marks), fuel) == None
    decreases fuel
  {
    if fuel < 3 {
      CycleShort(image, marks, fuel);
    } else {
      CycleRound(image, marks, fuel);
      CycleNeverEnds(image, marks + [0], fuel - 3);
    }
  }

  /** The extraction never finishes on `Cycle`: no fuel is enough. */
  lemma CycleExhaustsFuel(fuel: nat)
    ensures Calculate(Cycle(), fuel) == FuelExhausted
  {
    var image := Cycle();
    ImagePixel(2, 3, CyclePixel, 0, 0);
    ImagePixel(2, 3, CyclePixel, 1, 0);
    ImagePixel(2, 3, CyclePixel, 0, 1);
    assert GetPixel(image, 0, 0) == Byte2Rgb(Red(0)) && GetPixel(image, 1, 0) == Byte2Rgb(Red(0)) && GetPixel(image, 0, 1) == Byte2Rgb(Red(0));
    ImagePixel(2, 3, CyclePixel, 0, 2);
    ImagePixel(2, 3, CyclePixel, 1, 2);
    ImagePixel(2, 3, CyclePixel, 1, 1);
    assert GetPixel(image, 0, 2) == Byte2Rgb(Red(100)) && GetPixel(image, 1, 2) == Byte2Rgb(Red(100)) && GetPixel(image, 1, 1) == Byte2Rgb(Red(100));
    var su := Setup(Top, 3, Rgb(0, 0, 0, NoPos), Rgb(100, 0, 0, NoPos), Some(Rgb(0, 0, 0, NoPos)));
    assert Detect(image) == Some(su);
    assert !TwoColours(su);
    CycleNeverEnds(image, [], fuel);
  }

  /** A 2 by 2 checkerboard: black on the main diagonal, red on the other. */
  function Checkerboard(): Bitmap
  {
    Image(2, 2, CheckerboardPixel)
  }

  function CheckerboardPixel(x: nat, y: nat): Triad
  {
    Red(if x == y then 0 else 100)
  }

  /**
   * Both diagonals match, so neither diagonal pattern applies (each asks the
   * other diagonal to differ) and no direction is found.
   */
  lemma CheckerboardHasNoDirection(fuel: nat)
    ensures Calculate(Checkerboard(), fuel) == NoCornerPattern
  {
    var image := Checkerboard();
    ImagePixel(2, 2, CheckerboardPixel, 0, 0);
    ImagePixel(2, 2, CheckerboardPixel, 1, 1);
    assert GetPixel(image, 0, 0) == Byte2Rgb(Red(0)) && GetPixel(image, 1, 1) == Byte2Rgb(Red(0));
    ImagePixel(2, 2, CheckerboardPixel, 1, 0);
    ImagePixel(2, 2, CheckerboardPixel, 0, 1);
    assert GetPixel(image, 1, 0) == Byte2Rgb(Red(100)) && GetPixel(image, 0, 1) == Byte2Rgb(Red(100));
  }
}
