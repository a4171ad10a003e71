# pngtocss gradient extraction, modelled in Dafny

pngtocss reads a PNG image of a linear gradient and works out the CSS gradient
that draws it. It finds a direction and a list of colour stops. This project
models the part that does the work, `calculate_gradient` in `src/pngtocss.c`,
together with the colour helpers it uses: `byte2rgb`, `rgb_avg` and
`rgb_equal`.

- **Colours** (`colors.dfy`, module `Colors`). A colour has three byte
  channels and a stop position `pos`. `Avg` is the channel-wise floor mean.
  `Equal` compares colours channel by channel with a tolerance of 2.
- **Images** (`bitmap.dfy`, module `Bitmaps`). An image is a width, a height
  and a buffer of pixels stored row after row. `GetPixel` reads the pixel at
  number `y * width + x`, without any bounds check, and turns its first three
  bytes into a colour with no position.
- **Direction detection** (`direction.dfy`, module `Directions`). The four
  corner colours choose `top`, `left`, `top_left` or `top_right`, and the
  first matching pattern wins. `Detect` also gives the axis length, the two
  end colours and the colour at the middle of the axis.
- **Stop search** (`stop_search.dfy`, module `StopSearch`). The search loop
  is modelled as a state machine. `Step` is one pass of the loop body, and
  `Run` repeats it until the loop condition fails or the fuel runs out.
  `Inv` is the loop invariant. `StopPos` is the stored percentage, computed
  with 32-bit unsigned arithmetic.
- **Extraction** (`extraction.dfy`, module `Extraction`). `Calculate` is the
  whole extraction as a function of the image. Its result is a direction and
  a colour list, or `NoCornerPattern`, or `FuelExhausted`.
- **The procedure** (`gradient.dfy`, module `Gradients`). `CalculateGradient`
  works the way the C function does. It fills a `Gradient` object in place,
  keeps the window coordinates in a 2×2 array, and grows the colour list one
  stop at a time. When the loop finishes, the list it leaves is proved to be
  `Calculate`'s.
- **Examples** (`examples.dfy`, module `Examples`). These are concrete images
  with their proved outcomes:
  - a ramp and a hard step, each of which gives two colours;
  - a five-row triangle, which gives one interior stop at 40%;
  - a 2×3 image on which the search never ends;
  - a checkerboard, which matches no corner pattern.

The code behaves as follows, and the model follows it:

- When the top corners match, the direction is `top` (the height is the
  axis), whatever the other corners hold.
- When no corner pattern matches, there is no fallback direction. The code
  goes on with the direction and axis length unset. The model returns
  `NoCornerPattern`.
- There is no check for duplicate stops or for stops at 0%.
- There is no check that the search makes progress. A pass can commit a stop
  at `i == 0` and restart at the same place forever; `CycleExhaustsFuel`
  shows such an image.
- `byte2rgb` reads the first three bytes at a pixel's offset. For 8-bit RGB
  or RGBA images these are the red, green and blue bytes, so the alpha
  channel plays no part.
- The two-colour test compares the axis middle with the average of the two
  corner colours. It does not use the axis ends of row or column 0.
- A 1×100 column that steps from red to blue halfway down gives exactly two
  colours (`HardStepIsTwoColours`).
- The axis midpoint, both window ends and the first midpoint sample all lie
  on row 0 (direction `left`) or column 0 (direction `top`).
- The parity test that chooses between one and two midpoint samples uses the
  absolute index `i + base`.
- The second midpoint sample lies one further on both coordinates, so it is
  off the sampled row or column (`ReadsInRange`). No bounds are checked, so on
  a one-pixel-wide column it reads column 0 two rows below the first sample
  (`OffAxisSampleOnColumn`). On a one-pixel-high row it reads past the end of
  the buffer (`OffAxisSampleOnRow`).

## Model

| member | source | states |
|---|---|---|
| Colors.Byte2Rgb | src/pngtocss.c:108-119 | a colour from three bytes, red first, with position -1; its property is stated by `Byte2RgbRoundTrip` |
| Colors.Byte2RgbRoundTrip | src/pngtocss.c:108-119 | the three bytes of a pixel come back unchanged from its colour, whose position is -1 |
| Colors.Avg | src/pngtocss.c:126-135 | the channel-wise mean, rounded down; its properties are stated by `AvgBounds`, `AvgSelf` and `AvgSymmetric` |
| Colors.AvgBounds | src/pngtocss.c:126-135 | each channel of the average is half the channel sum rounded down, so it lies between the two inputs; the average has no position |
| Colors.AvgSelf | src/pngtocss.c:126-135 | averaging a colour with itself gives back its channels |
| Colors.AvgSymmetric | src/pngtocss.c:126-135 | the average does not depend on argument order |
| Colors.Equal | src/pngtocss.c:137-146 | the six channel comparisons with tolerance 2; its properties are stated by `EqualWithinTolerance`, `EqualReflexive`, `EqualSymmetric` and `EqualNotTransitive` |
| Colors.EqualWithinTolerance | src/pngtocss.c:137-146 | two colours match if and only if every channel differs by at most 2 |
| Colors.EqualReflexive | src/pngtocss.c:137-146 | every colour matches itself |
| Colors.EqualSymmetric | src/pngtocss.c:137-146 | matching does not depend on argument order |
| Colors.EqualNotTransitive | src/pngtocss.c:137-146 | the tolerance does not chain: 0 matches 2 and 2 matches 4, but 0 does not match 4 |
| Bitmaps.GetPixel | src/pngtocss.c:121-124 | the colour of pixel number `y * width + x` of the row-major buffer, with no bounds check; its properties are stated by `GetPixelWraps`, `PixelInBuffer` and `RowOneOutsideBuffer` |
| Bitmaps.GetPixelWraps | src/pngtocss.c:121-124 | a read one row-width further along a row is the read of the same column in the next row |
| Bitmaps.PixelInBuffer | src/pngtocss.c:121-124 | a read inside the image lands on a pixel of the buffer of `height` rows of `width` pixels |
| Bitmaps.RowOneOutsideBuffer | src/pngtocss.c:121-124 | on a one-pixel-high image, a read in row 1 lands past the end of the buffer |
| Directions.Coord | src/pngtocss.c:252-255 | the axis index goes into x for `left` and into y for `top`, and the other coordinate is the cross index |
| Directions.AxisMid | src/pngtocss.c:196-211 | the middle pixel of row or column 0 when the axis length is odd, else the average of the two pixels around the middle; `Detect` states it is the midpoint it hands on |
| Directions.Detect | src/pngtocss.c:188-222 | no direction if and only if no corner pattern matches; each direction exactly under its corner condition, in order; the axis length, the end colours (top-right and bottom-left for `top_right`) and, for the axis directions, the axis midpoint colour |
| StopSearch.Sub32 | src/pngtocss.c:278 | unsigned 32-bit subtraction: always below 2^32, and the true difference when that difference is in range |
| StopSearch.Advance | src/pngtocss.c:268-307 | the update of one pass given the outcome of the linearity test; its properties are stated by `StepKeepsInv` and `CommitStep` |
| StopSearch.Step | src/pngtocss.c:255-307 | one pass: the linearity test on the window ending at `i + base`, then `Advance`; its properties are stated by `StepKeepsInv`, `CommitStep`, `NoUnsignedWrap` and `ReadsInRange` |
| StopSearch.Run | src/pngtocss.c:254-308 | the loop repeated until its condition fails, or `None` when the fuel runs out; its properties are stated by `RunKeepsInv`, `RunUnfold`, `RunMoreFuel` and `SearchResult` |
| StopSearch.StepKeepsInv | src/pngtocss.c:254-307 | one pass keeps the loop invariant; it appends `base + i` to the committed indices exactly when it commits, restarts the window there with `min = 0` and `i = max = l - base - 1`, and otherwise keeps `base` |
| StopSearch.RunKeepsInv | src/pngtocss.c:254-308 | a finished loop leaves the invariant true and the loop condition false, and has only added committed indices |
| StopSearch.RunUnfold | src/pngtocss.c:254 | a running loop with fuel left does one pass, then runs on with one less |
| StopSearch.CommitStep | src/pngtocss.c:284-294 | a committing pass restarts the search at the committed index and records it |
| StopSearch.NoUnsignedWrap | src/pngtocss.c:278 | while the loop runs, the unsigned differences `max - i` and `i - min` never wrap |
| StopSearch.ReadsInRange | src/pngtocss.c:255-265 | every pixel a pass reads lies before `l` on the axis; all lie on row or column 0 except the second midpoint sample, which lies on row or column 1 |
| StopSearch.OffAxisSampleOnColumn | src/pngtocss.c:260-264 | on a one-pixel-wide column searched top to bottom, the second midpoint sample reads column 0 two rows below the first |
| StopSearch.OffAxisSampleOnRow | src/pngtocss.c:260-264 | on a one-pixel-high row searched left to right, the second midpoint sample lands past the end of the buffer |
| StopSearch.RunMoreFuel | src/pngtocss.c:254 | a loop that finishes with some fuel finishes in the same state with more |
| StopSearch.StopPos | src/pngtocss.c:288 | `k * 100 / l` with the product taken modulo 2^32; its properties are stated by `StopPosRange`, `StopPosMonotone` and `StopPosWraps` |
| StopSearch.StopPosRange | src/pngtocss.c:288 | every stored percentage lies in [0, 99], even when `k * 100` wraps |
| StopSearch.StopPosMonotone | src/pngtocss.c:288 | on axes up to 42,949,672 pixels, a later stop never gets a smaller percentage |
| StopSearch.StopPosWraps | src/pngtocss.c:288 | on a 50,000,000-pixel axis the 32-bit product wraps, and a later stop gets a smaller percentage |
| StopSearch.StopsAt | src/pngtocss.c:285-288 | one stop per committed index, in commit order: the pixel at that index with its percentage |
| StopSearch.SearchResult | src/pngtocss.c:251-309 | a finished search commits indices that never decrease and lie before the last pixel; its stops have percentages in [0, 99], which never decrease on axes up to 42,949,672 pixels |
| Extraction.Calculate | src/pngtocss.c:182-310 | `NoCornerPattern` if and only if no corner pattern matches; running out of fuel only on a search that is not cut short; the direction is the detected one |
| Extraction.TwoColours | src/pngtocss.c:234-235 | the early-return test: a diagonal, an axis shorter than 3 pixels, or an axis midpoint matching the average of the end colours; `TwoColoursResult` states its effect |
| Extraction.TwoColoursResult | src/pngtocss.c:224-238 | diagonals, axes shorter than 3 pixels, and axes whose midpoint matches the average of the end colours give exactly the two end colours, whatever the fuel |
| Extraction.ExtractedShape | src/pngtocss.c:224-309 | every finished extraction has at least two colours; the start colour is first and the end colour last, both without a position; interior stops occur only on `top` or `left`; their percentages lie in [0, 99] and never decrease on axes up to 42,949,672 pixels |
| Extraction.CalculateMoreFuel | src/pngtocss.c:254 | more fuel does not change a finished extraction |
| Gradients.CalculateGradient | src/pngtocss.c:182-310 | the procedure's status matches `Calculate`'s outcome; when it finishes, the gradient's direction and colour list are `Calculate`'s and `ncolors` is the list's length; when no corner pattern matches, the gradient is untouched |
| Gradients.SearchStops | src/pngtocss.c:251-309 | the loop finishes within the fuel if and only if `Run` does; it then leaves the start colour, the stops of the committed indices and the end colour, with `ncolors` equal to the list's length |
| Gradients.SearchPass | src/pngtocss.c:255-307 | one loop pass moves the variables exactly as `Step` does; it keeps the colour list equal to start colour, committed stops and end colour, and keeps the window coordinates in `xy` |
| Gradients.CommitStop | src/pngtocss.c:285-293 | committing at `base + i` appends that stop before the end colour and moves the window start there |
| Gradients.AppendStop | src/pngtocss.c:285-288 | the colour list grows by one slot; the new pixel with its percentage sits before the last slot, which keeps the old last colour |
| Gradients.ReadWindow | src/pngtocss.c:256-265 | the sampled ends' average and the midpoint colour are those of the search window |
| Gradients.EndPixel | src/pngtocss.c:287 | the pixel read at `xy[1]` is the axis pixel at the window's end |
| Examples.RampIsTwoColours | src/pngtocss.c:193-238 | a 256-pixel black-to-red ramp is a left-to-right gradient of exactly its two end colours |
| Examples.HardStepIsTwoColours | src/pngtocss.c:193-238 | a column that steps from red to blue halfway down still gives exactly two colours |
| Examples.TriangleRun | src/pngtocss.c:251-308 | on a five-row black, red, black triangle, the search commits index 2 and finishes within 10 passes |
| Examples.TriangleStops | src/pngtocss.c:182-310 | that triangle gives black, red at 40%, black |
| Examples.CycleNeverEnds | src/pngtocss.c:254-308 | on a 2×3 image the search keeps committing index 0 and never finishes, whatever the fuel |
| Examples.CycleExhaustsFuel | src/pngtocss.c:182-310 | the extraction of that image runs out of fuel for every fuel bound |
| Examples.CheckerboardHasNoDirection | src/pngtocss.c:193-222 | a 2×2 checkerboard matches no corner pattern |

## Left out

- PNG decoding and file I/O: libpng's reading and the image record's setup are not part of this model. The image is given as a width, a height and its buffer of pixels.
- Bitmaps.Bitmap: the buffer is modelled as whole pixels, and `GetPixel` reads the first three bytes of pixel number `y * width + x`. The source reads three bytes at byte offset `(y * width + x) * pxbytes`, which is the same thing when a pixel has at least three bytes (8-bit or 16-bit RGB and RGBA). Grey, grey-alpha, palette and sub-byte images, whose three bytes run into the next pixel or whose `pxbytes` rounds down, are not modelled.
- GetPixel: a read past the end of the buffer, such as the second midpoint sample on a one-pixel-high row, is undefined behaviour in the source. The model gives it some pixel value.
- GetPixel: the byte offset is computed in `png_uint_32` and wraps above 4 GiB. The model does not wrap it.
- AppendStop: `realloc` and `calloc` are not modelled, and neither is their failure. The indeterminate new slot is filled with a copy of the old last colour. The code overwrites that slot with the end colour after the loop.
- Printing the CSS (`print_rgb`, `print_colors` and the prefixes), the command line, and the usage and version messages are not part of this model.
- The `right`, `bottom` and other unused values of the direction enumeration are not modelled.
- Termination: the loop is not guaranteed to stop, so `Run`, `SearchStops` and `CalculateGradient` take a fuel bound on the number of passes. Running out gives `FuelExhausted` or `OutOfFuel`, which the code itself has no counterpart for.
- Colors.Avg: the code leaves the average's `pos` uninitialised, and the model gives it -1. Nothing reads it.
- Colors.Rgb: the channels are bytes rather than C `int`s. Every colour the code builds comes from image bytes or from averages of them.
- Directions.Detect: when no corner pattern matches, the code goes on with uninitialised variables, which is undefined behaviour. The model returns `NoCornerPattern` instead.
- Extraction.ExtractedShape: the percentages are proved never to decrease only on axes up to 42,949,672 pixels. On longer axes the 32-bit product can wrap (`StopPosWraps`).
- StopSearch.StopPos: the 32-bit wrap of `k * 100` assumes `png_uint_32` is 32 bits wide. With libpng 1.2 and 1.4 on LP64 systems it is `unsigned long`, 64 bits wide, and the product does not wrap. Also, libpng by default rejects images wider or taller than 1,000,000 pixels, so the 50,000,000-pixel axis of `StopPosWraps` never reaches the extractor in a default build.
- Image dimensions are between 1 and 2^31 - 1, the range a PNG header allows, so `width - 1` and the doubling of `i` never overflow.
