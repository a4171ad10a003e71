/**
 * The stop search along row 0 or column 0, as a state machine: one `Step` is
 * one pass of the source's search loop, and `Run` repeats it, with a fuel
 * bound because the loop itself is not guaranteed to stop.
 */
module StopSearch {
  import opened Options
  import opened Colors
  import opened Bitmaps
  import opened Directions

  /** 2^32: the values of the source's unsigned 32-bit integers are taken modulo this. */
  const U32: int := 0x1_0000_0000

  /** The largest axis length whose percentages `k * 100` all fit in 32 bits. */
  const MaxExactPosAxis: int := 42949672

  /** `a - b` on 32-bit unsigned integers. */
  function Sub32(a: nat, b: nat): (d: nat)
    ensures d < U32
    ensures 0 <= a - b < U32 ==> d == a - b
  {
    (a - b) % U32
  }

  /**
   * The loop state: the start `base` of the current window, the known bounds
   * `min` and `max` of its linear length, the probed length `i`, and the axis
   * indices of the stops committed so far (`marks`).
   */
  datatype Search = Search(base: nat, min: nat, max: nat, i: nat, marks: seq<nat>)

  /** The state on entry to the loop. */
  function Init(): Search
  {
    Search(0, 0, 2, 2, [])
  }

  /** The loop condition: the window's end still lies on the axis. */
  predicate Running(l: nat, s: Search)
  {
    s.i + s.base < l
  }

  /** Committed indices never decrease. */
  ghost predicate NonDecreasing(marks: seq<nat>)
  {
    forall j, k :: 0 <= j < k < |marks| ==> marks[j] <= marks[k]
  }

  /**
   * What holds at the head of the loop: the axis is long enough to search,
   * the window start is at least two before the end, `min <= i <= max` and
   * `base + max < l` while the loop runs, and the committed indices are ordered, lie at or before
   * `base`, and the last of them is `base`.
   */
  ghost predicate Inv(l: nat, s: Search)
  {
    && 3 <= l < 0x8000_0000
    && s.base + 2 <= l
    && (Running(l, s) ==> s.min <= s.i <= s.max && s.max + s.base < l)
    && (forall k :: 0 <= k < |s.marks| ==> s.marks[k] <= s.base)
    && NonDecreasing(s.marks)
    && (|s.marks| > 0 ==> s.marks[|s.marks| - 1] == s.base)
  }

  /** The window's first pixel (`xy[0]` in the source). */
  function StartXY(d: AxisDirection, s: Search): XY
  {
    Coord(d, s.base, 0)
  }

  /** The window's last pixel (`xy[1]` in the source). */
  function EndXY(d: AxisDirection, s: Search): XY
  {
    Coord(d, s.i + s.base, 0)
  }

  /** The halved sum of the two window coordinates. */
  function MidXY(d: AxisDirection, s: Search): XY
  {
    var p, q := StartXY(d, s), EndXY(d, s);
    XY((q.x + p.x) / 2, (q.y + p.y) / 2)
  }

  /** The second midpoint sample: one further on BOTH coordinates, hence off the sampled row or column. */
  function Mid2XY(d: AxisDirection, s: Search): XY
  {
    var m := MidXY(d, s);
    XY(m.x + 1, m.y + 1)
  }

  /** The pixels one pass of the loop reads, in the order it reads them. */
  function ReadSites(d: AxisDirection, s: Search): seq<XY>
  {
    [StartXY(d, s), EndXY(d, s), MidXY(d, s)] + if (s.i + s.base) % 2 == 0 then [] else [Mid2XY(d, s)]
  }

  function Pixel(image: Bitmap, p: XY): Rgb
  {
    GetPixel(image, p.x, p.y)
  }

  /** The average of the window's two ends. */
  function WindowAvg(image: Bitmap, d: AxisDirection, s: Search): Rgb
  {
    Avg(Pixel(image, StartXY(d, s)), Pixel(image, EndXY(d, s)))
  }

  /**
   * The window's midpoint colour: a single pixel when the ABSOLUTE end index
   * `i + base` is even, else the average of the two midpoint samples.
   */
  function WindowMid(image: Bitmap, d: AxisDirection, s: Search): Rgb
  {
    if (s.i + s.base) % 2 == 0 then Pixel(image, MidXY(d, s))
    else Avg(Pixel(image, MidXY(d, s)), Pixel(image, Mid2XY(d, s)))
  }

  /** The window passes the linearity test. */
  predicate Linear(image: Bitmap, d: AxisDirection, s: Search)
  {
    Equal(WindowAvg(image, d, s), WindowMid(image, d, s))
  }

  /** The bounds have closed in on `i`, computed with unsigned differences. */
  predicate Converged(s: Search)
  {
    Sub32(s.max, s.i) <= 1 && Sub32(s.i, s.min) <= 1
  }

  /** The pass commits a stop at `base + i`. */
  predicate Commits(image: Bitmap, d: AxisDirection, l: nat, s: Search)
  {
    Linear(image, d, s) && Converged(s) && s.base + s.i < l - 1
  }

  /**
   * The state update of one pass, given the outcome `linear` of the window's
   * linearity test.
   */
  function Advance(l: nat, s: Search, linear: bool): Search
    requires Running(l, s)
  {
    if !linear then
      if s.min == s.max then s.(min := s.min + 1, max := s.min + 3, i := s.min + 3)
      else s.(max := s.i, i := (s.i + s.min) / 2)
    else if Converged(s) then
      if s.base + s.i >= l - 1 then s.(i := s.i + 1)
      else
        var base := s.base + s.i;
        Search(base, 0, l - base - 1, l - base - 1, s.marks + [base])
    else
      if s.i == s.max then
        var doubled := if s.i * 2 + s.base >= l then l - s.base - 1 else s.i * 2;
        s.(min := s.i, i := doubled, max := doubled)
      else s.(min := s.i, i := (s.i + s.max) / 2)
  }

  /** One pass of the loop body. */
  function Step(image: Bitmap, d: AxisDirection, l: nat, s: Search): Search
    requires Running(l, s)
  {
    Advance(l, s, Linear(image, d, s))
  }

  /**
   * A pass keeps the loop invariant; it appends `base + i` to the committed
   * indices exactly when it commits, and then restarts the search at that
   * index with `min = 0` and `i = max = l - base - 1`; otherwise `base` stays.
   */
  lemma StepKeepsInv(image: Bitmap, d: AxisDirection, l: nat, s: Search)
    requires Inv(l, s) && Running(l, s)
    ensures var r := Step(image, d, l, s);
      && Inv(l, r)
      && r.marks == (if Commits(image, d, l, s) then s.marks + [s.base + s.i] else s.marks)
      && (Commits(image, d, l, s) ==> r.base == s.base + s.i && r.min == 0 && r.i == r.max == l - r.base - 1)
      && (!Commits(image, d, l, s) ==> r.base == s.base)
  {
    var r := Step(image, d, l, s);
    if Commits(image, d, l, s) {
      var b := s.base + s.i;
      assert r == Search(b, 0, l - b - 1, l - b - 1, s.marks + [b]);
      assert NonDecreasing(r.marks) by {
        forall j, k | 0 <= j < k < |r.marks|
          ensures r.marks[j] <= r.marks[k]
        {
          if k < |s.marks| {
            assert r.marks[j] == s.marks[j] && r.marks[k] == s.marks[k];
          } else {
            assert r.marks[j] == s.marks[j];
          }
        }
      }
    } else {
      assert r.marks == s.marks && r.base == s.base;
    }
  }

  /**
   * The loop run from `s` for at most `fuel` passes: `Some` of the state it
   * leaves in, or `None` if it is still running when the fuel is spent.
   */
  function Run(image: Bitmap, d: AxisDirection, l: nat, s: Search, fuel: nat): Option<Search>
    decreases fuel
  {
    if !Running(l, s) then Some(s)
    else if fuel == 0 then None
    else Run(image, d, l, Step(image, d, l, s), fuel - 1)
  }

  /**
   * A run that finishes leaves the loop condition false and the invariant
   * true, and only ever adds committed indices.
   */
  lemma {:induction false} RunKeepsInv(image: Bitmap, d: AxisDirection, l: nat, s: Search, fuel: nat)
    requires Inv(l, s) && Run(image, d, l, s, fuel).Some?
    ensures var r := Run(image, d, l, s, fuel).value;
      Inv(l, r) && !Running(l, r) && s.marks <= r.marks
    decreases fuel
  {
    if Running(l, s) {
      StepKeepsInv(image, d, l, s);
      RunKeepsInv(image, d, l, Step(image, d, l, s), fuel - 1);
    }
  }

  /** One pass of a running search with fuel left, then the rest of the run. */
  lemma RunUnfold(image: Bitmap, d: AxisDirection, l: nat, s: Search, fuel: nat, rest: nat)
    requires Running(l, s) && fuel == rest + 1
    ensures Run(image, d, l, s, fuel) == Run(image, d, l, Step(image, d, l, s), rest)
  {
  }

  /** A committing pass restarts the search at the committed index. */
  lemma CommitStep(image: Bitmap, d: AxisDirection, l: nat, s: Search)
    requires Running(l, s) && Commits(image, d, l, s)
    ensures var b := s.base + s.i;
      Step(image, d, l, s) == Search(b, 0, l - b - 1, l - b - 1, s.marks + [b])
  {
  }

  /** While the loop runs the unsigned differences of the convergence test never wrap. */
  lemma NoUnsignedWrap(l: nat, s: Search)
    requires Inv(l, s) && Running(l, s)
    ensures Sub32(s.max, s.i) == s.max - s.i && Sub32(s.i, s.min) == s.i - s.min
  {
  }

  /**
   * Every pixel a pass reads lies on the axis before `l`; all but the second
   * midpoint sample lie on row or column 0, that one on row or column 1.
   */
  lemma ReadsInRange(d: AxisDirection, l: nat, s: Search)
    requires Inv(l, s) && Running(l, s)
    ensures forall k :: 0 <= k < |ReadSites(d, s)| ==>
              var p := ReadSites(d, s)[k];
              (if d == Left then p.x else p.y) < l
              && (if d == Left then p.y else p.x) == (if k == 3 then 1 else 0)
  {
  }

  /**
   * On a one-pixel-wide image searched top to bottom, the second midpoint
   * sample, in column 1, reads the pixel of column 0 two rows below the first.
   */
  lemma OffAxisSampleOnColumn(image: Bitmap, s: Search)
    requires image.width == 1
    ensures Pixel(image, Mid2XY(Top, s)) == AxisPixel(image, Top, MidXY(Top, s).y + 2)
  {
    GetPixelWraps(image, 0, MidXY(Top, s).y + 1);
  }

  /**
   * On a one-pixel-high image searched left to right, the second midpoint
   * sample, in row 1, lands past the end of the pixel buffer.
   */
  lemma OffAxisSampleOnRow(image: Bitmap, s: Search)
    requires image.height == 1
    ensures PixelIndex(image, Mid2XY(Left, s).x, Mid2XY(Left, s).y) >= image.height * image.width
  {
    RowOneOutsideBuffer(image, Mid2XY(Left, s).x);
  }

  /** A run that finishes with some fuel finishes the same way with more. */
  lemma {:induction false} RunMoreFuel(image: Bitmap, d: AxisDirection, l: nat, s: Search, fuel: nat, more: nat)
    requires fuel <= more
    requires Run(image, d, l, s, fuel).Some?
    ensures Run(image, d, l, s, more) == Run(image, d, l, s, fuel)
    decreases fuel
  {
    if Running(l, s) {
      assert 0 < fuel;
      RunUnfold(image, d, l, s, fuel, fuel - 1);
      RunUnfold(image, d, l, s, more, more - 1);
      RunMoreFuel(image, d, l, Step(image, d, l, s), fuel - 1, more - 1);
    }
  }

  /** The percentage stored with a stop at axis index `k`: `k * 100 / l` on 32-bit unsigned integers. */
  function StopPos(k: nat, l: nat): int
    requires 0 < l
  {
    ((k * 100) % U32) / l
  }

  lemma MulMonotone(l: int, x: int, y: int)
    requires 0 <= l && x <= y
    ensures l * x <= l * y
  {
    assert l * y - l * x == l * (y - x);
  }

  lemma DivBelow(w: int, l: int, q: int)
    requires 0 < l && 0 <= w < q * l
    ensures 0 <= w / l < q
  {
    if w / l >= q {
      MulMonotone(l, q, w / l);
    }
  }

  lemma DivMonotone(a: int, b: int, l: int)
    requires 0 < l && 0 <= a <= b
    ensures a / l <= b / l
  {
    var qa, qb := a / l, b / l;
    if qa > qb {
      MulMonotone(l, qb + 1, qa);
    }
  }

  /** Every stored percentage lies in [0, 99], even when `k * 100` wraps. */
  lemma StopPosRange(k: nat, l: nat)
    requires k < l < 0x8000_0000
    ensures 0 <= StopPos(k, l) <= 99
  {
    WrappedBelow(k, l);
    DivBelow((k * 100) % U32, l, 100);
  }

  /** The wrapped product `k * 100` stays below `100 * l`: unwrapped it is below, wrapped it is below 2^32. */
  lemma WrappedBelow(k: nat, l: nat)
    requires k < l < 0x8000_0000
    ensures 0 <= (k * 100) % U32 < 100 * l
  {
    if k * 100 < U32 {
      assert (k * 100) % U32 == k * 100;
    }
  }

  /** On axes up to `MaxExactPosAxis` pixels the percentage never decreases along the axis. */
  lemma StopPosMonotone(j: nat, k: nat, l: nat)
    requires j <= k < l <= MaxExactPosAxis
    ensures StopPos(j, l) <= StopPos(k, l)
  {
    assert (j * 100) % U32 == j * 100;
    assert (k * 100) % U32 == k * 100;
    DivMonotone(j * 100, k * 100, l);
  }

  /** On longer axes the 32-bit product wraps, and a later stop can get a smaller percentage. */
  lemma StopPosWraps()
    ensures StopPos(42949673, 50000000) < StopPos(42949672, 50000000)
  {
  }

  /** The stop committed at axis index `a`: that pixel, with its percentage. */
  function StopAt(image: Bitmap, d: AxisDirection, l: nat, a: nat): Rgb
    requires 0 < l
  {
    AxisPixel(image, d, a).(pos := StopPos(a, l))
  }

  /** The stops committed at the indices `marks`, in commit order. */
  function StopsAt(image: Bitmap, d: AxisDirection, l: nat, marks: seq<nat>): (stops: seq<Rgb>)
    requires 0 < l
    ensures |stops| == |marks|
    ensures forall k :: 0 <= k < |marks| ==> stops[k] == StopAt(image, d, l, marks[k])
  {
    seq(|marks|, k requires 0 <= k < |marks| => StopAt(image, d, l, marks[k]))
  }

  /**
   * What a finished search leaves: commit indices that never decrease and lie
   * before the last pixel, and stops whose percentages lie in [0, 99] and,
   * on axes up to `MaxExactPosAxis`, never decrease.
   */
  lemma SearchResult(image: Bitmap, d: AxisDirection, l: nat, fuel: nat)
    requires 3 <= l < 0x8000_0000
    requires Run(image, d, l, Init(), fuel).Some?
    ensures var t := Run(image, d, l, Init(), fuel).value;
      var stops := StopsAt(image, d, l, t.marks);
      && NonDecreasing(t.marks)
      && (forall k :: 0 <= k < |t.marks| ==> t.marks[k] < l - 1)
      && (forall k :: 0 <= k < |stops| ==> 0 <= stops[k].pos <= 99)
      && (l <= MaxExactPosAxis ==> forall j, k :: 0 <= j < k < |stops| ==> stops[j].pos <= stops[k].pos)
  {
    RunKeepsInv(image, d, l, Init(), fuel);
    var t := Run(image, d, l, Init(), fuel).value;
    var stops := StopsAt(image, d, l, t.marks);
    forall k | 0 <= k < |stops|
      ensures 0 <= stops[k].pos <= 99
    {
      StopPosRange(t.marks[k], l);
    }
    if l <= MaxExactPosAxis {
      forall j, k | 0 <= j < k < |stops|
        ensures stops[j].pos <= stops[k].pos
      {
        StopPosMonotone(t.marks[j], t.marks[k], l);
      }
    }
  }
}
