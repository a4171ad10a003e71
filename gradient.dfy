/**
 * The extractor as the source runs it: one procedure that fills in a gradient
 * record in place, growing its colour list as the search commits stops.
 */
module Gradients {
  import opened Options
  import opened Colors
  import opened Bitmaps
  import opened Directions
  import opened StopSearch
  import opened Extraction

  /** The gradient record: its direction, the number of colours and the colours. */
  class Gradient {
    var start: Direction
    var ncolors: int
    var colors: seq<Rgb>
  }

  /** How the extraction ended. */
  datatype Status = Finished | NoDirection | OutOfFuel

  function StatusOf(r: Outcome): Status
  {
    match r
    case Ok(_, _) => Finished
    case NoCornerPattern => NoDirection
    case FuelExhausted => OutOfFuel
  }

  /**
   * Fills `g` from `image`. The search loop runs at most `fuel` passes; when
   * it finishes, `g` holds exactly what `Calculate` describes.
   */
  method CalculateGradient(image: Bitmap, g: Gradient, fuel: nat) returns (status: Status)
    modifies g
    ensures status == StatusOf(Calculate(image, fuel))
    ensures status == Finished ==>
              && g.start == Calculate(image, fuel).start
              && g.colors == Calculate(image, fuel).colors
              && g.ncolors == |g.colors|
    ensures status == NoDirection ==> unchanged(g)
  {
    var tl := GetPixel(image, 0, 0);
    var tr := GetPixel(image, image.width - 1, 0);
    var bl := GetPixel(image, 0, image.height - 1);
    var br := GetPixel(image, image.width - 1, image.height - 1);
    var l: nat;
    var mid: Option<Rgb> := None;

    if Equal(tl, tr) {
      g.start := Top;
      l := image.height;
      if l % 2 == 1 {
        mid := Some(GetPixel(image, 0, l / 2));
      } else {
        mid := Some(Avg(GetPixel(image, 0, l / 2), GetPixel(image, 0, l / 2 - 1)));
      }
    } else if Equal(tl, bl) {
      g.start := Left;
      l := image.width;
      if l % 2 == 1 {
        mid := Some(GetPixel(image, l / 2, 0));
      } else {
        mid := Some(Avg(GetPixel(image, l / 2, 0), GetPixel(image, l / 2 - 1, 0)));
      }
    } else if Equal(tr, bl) && !Equal(tl, br) {
      g.start := TopLeft;
      l := image.height;
    } else if Equal(tl, br) && !Equal(tr, bl) {
      g.start := TopRight;
      l := image.height;
      tl := tr;
      br := bl;
    } else {
      return NoDirection;
    }
    ghost var su := Setup(g.start, l, tl, br, mid);
    assert Detect(image) == Some(su);

    g.colors := [tl, br];
    g.ncolors := 2;

    if g.start == TopLeft || g.start == TopRight || l < 3 || Equal(mid.value, Avg(tl, br)) {
      return Finished;
    }

    var finished := SearchStops(image, g, g.start, l, tl, br, fuel);
    if !finished {
      return OutOfFuel;
    }
    return Finished;
  }

  /** `xy` holds the window start `base` on the axis slot and 0 across the axis, for both ends. */
  ghost predicate WindowCoords(xy: array2<nat>, d: AxisDirection, base: nat)
    reads xy
  {
    var ax := AxisSlot(d);
    && xy.Length0 == 2 && xy.Length1 == 2
    && xy[0, ax] == base && xy[0, 1 - ax] == 0 && xy[1, 1 - ax] == 0
  }

  /** Reads the window's end average and midpoint colour through the coordinates in `xy`. */
  method ReadWindow(image: Bitmap, xy: array2<nat>, last: nat, ghost d: AxisDirection, ghost s: Search)
    returns (avg: Rgb, mid: Rgb)
    requires WindowCoords(xy, d, s.base) && xy[1, AxisSlot(d)] == last == s.i + s.base
    ensures avg == WindowAvg(image, d, s) && mid == WindowMid(image, d, s)
  {
    avg := Avg(GetPixel(image, xy[0, 0], xy[0, 1]), GetPixel(image, xy[1, 0], xy[1, 1]));
    if last % 2 == 0 {
      mid := GetPixel(image, (xy[1, 0] + xy[0, 0]) / 2, (xy[1, 1] + xy[0, 1]) / 2);
    } else {
      mid := Avg(GetPixel(image, (xy[1, 0] + xy[0, 0]) / 2, (xy[1, 1] + xy[0, 1]) / 2),
                 GetPixel(image, (xy[1, 0] + xy[0, 0]) / 2 + 1, (xy[1, 1] + xy[0, 1]) / 2 + 1));
    }
  }

  /** Reads the pixel at the window's end through the coordinates in `xy`. */
  method EndPixel(image: Bitmap, xy: array2<nat>, ghost d: AxisDirection, ghost s: Search) returns (px: Rgb)
    requires WindowCoords(xy, d, s.base) && xy[1, AxisSlot(d)] == s.i + s.base
    ensures px == AxisPixel(image, d, s.i + s.base)
  {
    px := GetPixel(image, xy[1, 0], xy[1, 1]);
  }

  /** The colour list during the search: start colour, committed stops, end colour. */
  ghost function SearchColors(image: Bitmap, d: AxisDirection, l: nat, tl: Rgb, br: Rgb, marks: seq<nat>): seq<Rgb>
    requires 0 < l
  {
    [tl] + StopsAt(image, d, l, marks) + [br]
  }

  /**
   * Grows the colour list by one slot and writes `px`, with percentage `pos`,
   * into the slot before the last one.
   */
  method AppendStop(g: Gradient, px: Rgb, pos: int)
    requires 2 <= g.ncolors == |g.colors|
    modifies g`colors, g`ncolors
    ensures g.ncolors == old(g.ncolors) + 1 == |g.colors|
    ensures g.colors == old(g.colors)[..old(g.ncolors) - 1] + [px.(pos := pos)] + [old(g.colors)[old(g.ncolors) - 1]]
  {
    g.ncolors := g.ncolors + 1;
    // realloc: the new last slot is indeterminate in the source; the model
    // fills it with a copy of the slot before it
    g.colors := g.colors + [g.colors[|g.colors| - 1]];
    g.colors := g.colors[g.ncolors - 2 := px];
    g.colors := g.colors[g.ncolors - 2 := g.colors[g.ncolors - 2].(pos := pos)];
  }

  /** Appending the stop at `a` before the end colour extends the committed stops by it. */
  lemma CommitColors(image: Bitmap, d: AxisDirection, l: nat, tl: Rgb, br: Rgb, marks: seq<nat>, a: nat)
    requires 0 < l
    ensures var c := SearchColors(image, d, l, tl, br, marks);
      c[..|c| - 1] + [AxisPixel(image, d, a).(pos := StopPos(a, l))] + [c[|c| - 1]]
        == SearchColors(image, d, l, tl, br, marks + [a])
  {
    var c := SearchColors(image, d, l, tl, br, marks);
    var e := SearchColors(image, d, l, tl, br, marks + [a]);
    var c2 := c[..|c| - 1] + [AxisPixel(image, d, a).(pos := StopPos(a, l))] + [c[|c| - 1]];
    assert |c2| == |e|;
    forall k | 0 <= k < |e|
      ensures c2[k] == e[k]
    {
      if 0 < k < |c| - 1 {
        assert c2[k] == StopsAt(image, d, l, marks)[k - 1];
      }
    }
  }

  /**
   * Commits the stop at the window's end `base + i`: the colour list grows by
   * that pixel with its percentage, and the window restarts there.
   */
  method CommitStop(image: Bitmap, g: Gradient, xy: array2<nat>, d: AxisDirection, l: nat, tl: Rgb, br: Rgb,
                    base: nat, i: nat, ghost s: Search)
    requires s.base == base && s.i == i && 0 < l
    requires g.ncolors == |g.colors| && g.colors == SearchColors(image, d, l, tl, br, s.marks)
    requires WindowCoords(xy, d, base) && xy[1, AxisSlot(d)] == i + base
    modifies g`colors, g`ncolors, xy
    ensures g.ncolors == |g.colors| && g.colors == SearchColors(image, d, l, tl, br, s.marks + [base + i])
    ensures WindowCoords(xy, d, base + i)
  {
    CommitColors(image, d, l, tl, br, s.marks, base + i);
    var px := EndPixel(image, xy, d, s);
    AppendStop(g, px, StopPos(i + base, l));
    xy[0, AxisSlot(d)] := base + i;
  }

  /**
   * One pass of the stop search loop: samples the window ending at `i + base`
   * and either narrows or widens it, or commits the stop at its end, growing
   * the colour list by that stop.
   */
  method SearchPass(image: Bitmap, g: Gradient, xy: array2<nat>, d: AxisDirection, l: nat, tl: Rgb, br: Rgb,
                    base: nat, min: nat, max: nat, i: nat, ghost marks: seq<nat>)
    returns (base': nat, min': nat, max': nat, i': nat, ghost marks': seq<nat>)
    requires 0 < l && Running(l, Search(base, min, max, i, marks))
    requires g.ncolors == |g.colors| && g.colors == SearchColors(image, d, l, tl, br, marks)
    requires WindowCoords(xy, d, base)
    modifies g`colors, g`ncolors, xy
    ensures Search(base', min', max', i', marks') == Step(image, d, l, Search(base, min, max, i, marks))
    ensures g.ncolors == |g.colors| && g.colors == SearchColors(image, d, l, tl, br, marks')
    ensures WindowCoords(xy, d, base')
  {
    ghost var s := Search(base, min, max, i, marks);
    var ax := AxisSlot(d);
    base', min', max', i', marks' := base, min, max, i, marks;
    xy[1, ax] := i + base;
    var avg, windowMid := ReadWindow(image, xy, i + base, d, s);
    ghost var linear := Equal(avg, windowMid);
    assert linear == Linear(image, d, s);
    assert Step(image, d, l, s) == Advance(l, s, linear);

    if !Equal(avg, windowMid) {
      if min == max {
        min' := min + 1;
        max', i' := min' + 2, min' + 2;
      } else {
        max' := i;
        i' := (i + min) / 2;
      }
      assert Search(base', min', max', i', marks') == Advance(l, s, linear);
    } else if Sub32(max, i) <= 1 && Sub32(i, min) <= 1 {
      assert Converged(s);
      if base + i >= l - 1 {
        // the window reaches the last pixel, whose colour is the end colour
        i' := i + 1;
        assert Search(base', min', max', i', marks') == Advance(l, s, linear);
      } else {
        CommitStep(image, d, l, s);
        CommitStop(image, g, xy, d, l, tl, br, base, i, s);
        marks' := marks + [base + i];
        base' := base + i;
        min' := 0;
        max', i' := l - base' - 1, l - base' - 1;
      }
    } else {
      assert !Converged(s);
      min' := i;
      if i == max {
        i' := i * 2;
        if i' + base >= l {
          i' := l - base - 1;
        }
        max' := i';
      } else {
        i' := (i + max) / 2;
      }
      assert Search(base', min', max', i', marks') == Advance(l, s, linear);
    }
  }

  /**
   * The stop search loop. When it finishes within `fuel` passes, `g.colors`
   * holds the start colour, the stops of `Run` and the end colour.
   */
  method SearchStops(image: Bitmap, g: Gradient, d: AxisDirection, l: nat, tl: Rgb, br: Rgb, fuel: nat)
    returns (finished: bool)
    requires 3 <= l < 0x8000_0000
    requires g.colors == [tl, br] && g.ncolors == 2
    modifies g`colors, g`ncolors
    ensures finished <==> Run(image, d, l, Init(), fuel).Some?
    ensures finished ==> g.colors == SearchColors(image, d, l, tl, br, Run(image, d, l, Init(), fuel).value.marks)
    ensures finished ==> g.ncolors == |g.colors|
  {
    var xy := new nat[2, 2];
    xy[0, 0], xy[0, 1], xy[1, 0], xy[1, 1] := 0, 0, 0, 0;
    var base: nat, min: nat, max: nat, i: nat := 0, 0, 2, 2;
    ghost var marks: seq<nat> := [];
    var fuelLeft := fuel;
    assert g.colors == SearchColors(image, d, l, tl, br, marks);
    while i + base < l && fuelLeft > 0
      invariant g.ncolors == |g.colors|
      invariant Inv(l, Search(base, min, max, i, marks))
      invariant Run(image, d, l, Search(base, min, max, i, marks), fuelLeft) == Run(image, d, l, Init(), fuel)
      invariant g.colors == SearchColors(image, d, l, tl, br, marks)
      invariant WindowCoords(xy, d, base)
      decreases fuelLeft
    {
      ghost var s := Search(base, min, max, i, marks);
      ghost var before := fuelLeft;
      fuelLeft := fuelLeft - 1;
      RunUnfold(image, d, l, s, before, fuelLeft);
      StepKeepsInv(image, d, l, s);
      base, min, max, i, marks := SearchPass(image, g, xy, d, l, tl, br, base, min, max, i, marks);
    }
    finished := !(i + base < l);
    if finished {
      // the last slot is overwritten with the end colour
      g.colors := g.colors[g.ncolors - 1 := br];
    }
  }
}
