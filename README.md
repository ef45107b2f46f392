# Badge detector core, modelled in Dafny

This project models the computational core of a browser badge reader. The
reader finds a QR code on a badge in the camera picture and fits a planar
homography that maps a unit square onto the code's four corners. It
extrapolates the badge outline around the code and warps that region into a
rectified image for text recognition. It then cleans up the recognised text.
Around this pipeline sit three polyfill detectors: rectangles over OpenCV,
text over an OCR engine, and faces over a landmark library. Each detector
has its own post-processing logic, and that logic is modelled here. The
engines themselves are not.

The modules follow the source files:

- `Geometry` (`src/utils.js`): the intersection of two infinite lines. It is
  None when the lines are parallel, and it is the unique point on both lines.
- `Homography` (`src/homography.js`):
  - The projective map of a point.
  - The direct-linear-transform system built from two quads. Its solution
    takes each source corner to the matching destination corner.
  - The per-pixel warp into a destination buffer kept between calls. The
    warp is a `class` over an `array<byte>` with nested loops, proved equal
    to the specification function `Warped`.
- `LuSolver` and `LinearAlgebra` (`src/homography.js:179-280`): the dense LU
  decomposition with partial pivoting, and the substitution solver taken
  over from numeric.js.
  - Rows are `array<real>` objects. Pivoting exchanges row references, and
    elimination updates rows in place, two columns per iteration as the
    source does.
  - The proof carries a Schur-complement invariant through every step. It
    shows that a successful `Solve` returns an exact solution of `A x = b`.
  - `clone` with its default depth copies only the outer array. `LU(A,
    false)` therefore still overwrites the caller's row arrays, and the model
    states exactly that.
- `Detector` (`src/detector.js`):
  - Region extrapolation: the centre of the code, the badge outline, the
    optional OCR crop, the OCR image height and the warp.
  - The barcode selection of the decode loop.
  - The text clean-up: join, clean pattern, split into lines, collapse white
    space, trim, delete pattern, drop empty lines.
- `BarcodeDetector` (`src/barcode-detector/barcode-detector.js`): the corner
  reordering patch.
- `RectangleDetector` (`src/rectangle-detector/rectangle-detector.js`):
  - Corner ordering by the extremes of x+y and y-x.
  - Contour collection, the four-vertex filter, the sort by area, the side
    ratio filter and the limit to one result.
  - Scaling back to the source image with `Math.floor`.
  - The page-relative script path.
- `TextDetector` (`src/text-detector/text-detector.js`):
  - The page-relative engine paths.
  - hOCR parsing: each `title` attribute is split on `;` and then on spaces.
    A part that matches `-?\d+(\.\d+)?` becomes a number, and the first part
    becomes the key.
  - Conversion into detected texts, with boxes, corner points, words and
    confidence.
- `FaceDetector` (`src/face-detector/face-detector.js`): the option handling,
  the startup paths, and the flattening of the library's landmark lists into
  typed landmarks.
- `Strings`, `Sequences`, `Paths`, `Wrappers`: shared pieces.
  - The JavaScript string operations the source uses: `split`, `join`,
    `trim` and `replace(/\s+/g, ' ')`.
  - The array operations `filter` and `map`.
  - The URL relativisation that all three polyfills repeat.
  - `Option`, which stands for `null`, `undefined` and non-finite numbers.

Arithmetic is exact (`real`). Where the source produces NaN or Infinity (a
zero denominator, a zero pivot column), the model returns `None`. The
loops of the core are `method`s with their loops and invariants, proved
against specification functions; the decode loop's collection of raw values
(src/detector.js:323-354) is the method `Detector.CollectTexts`, and the
joining and clean-up that follow it are functions. Pure helpers are
functions.

## Model

| member | source | states |
|---|---|---|
| Geometry.LineIntercept | src/utils.js:2-22 | None exactly when the denominator d is zero; otherwise the point's coordinates times d are the two numerators of the intersection formula |
| Geometry.LineInterceptOnLines | src/utils.js:17-21 | the returned point lies on both infinite lines |
| Geometry.LineInterceptUnique | src/utils.js:17-21 | the result is Some(p) exactly when the lines are not parallel and p lies on both of them: an independent characterisation of the formula |
| Geometry.LineInterceptSymmetric | src/utils.js:15-21 | exchanging the two lines gives the same intersection |
| Geometry.LineInterceptReversed | src/utils.js:3-16 | exchanging the start and end of either line does not move the intersection |
| Geometry.LineInterceptDiagonals | src/utils.js:17-21 | the diagonals of the square (0,0)-(2,2) meet at (1,1) |
| Homography.ProjectivePoint | src/homography.js:137-140 | both coordinates share the denominator m6 x + m7 y + 1; the point exists exactly when it is non-zero, and then each coordinate times it is its numerator |
| Homography.TransformPoint | src/homography.js:7-9 | the same projective map for a transform that may be absent; absent transform gives no point |
| Homography.TransformPointXY | src/homography.js:11-14 | the same map on a point record |
| Homography.IdentityFixes | src/homography.js:137-140 | the coefficients [1,0,0,0,1,0,0,0] map every point to itself |
| Homography.CorrespondsMaps | src/homography.js:137-140 | h maps s to d exactly when the denominator is non-zero and the cleared x and y equations hold |
| Homography.DltMatrix | src/homography.js:144-151 | the system built from the two flattened squares is 8 by 8 |
| Homography.DltRowOf | src/homography.js:144-151 | rows 2i and 2i+1 are the x and y equations of corner i |
| Homography.XRowEquation | src/homography.js:144 | an x row times h equals the destination x exactly when the x numerator is that x times the denominator |
| Homography.YRowEquation | src/homography.js:145 | the same for a y row |
| Homography.DltRowsCorrespond | src/homography.js:142-155 | h satisfies rows 2i and 2i+1 exactly when it takes corner i of the source square to corner i of the destination square |
| Homography.ProjectiveMatrixFromSquares | src/homography.js:142-155 | a solved transform takes every source corner to its destination corner (denominator cleared); no transform only when the elimination reached an all-zero pivot column |
| Homography.Flatten | src/homography.js:20-32 | the flattened list has eight numbers, and its corner i is point i |
| Homography.CalculateTransformFromSquaresXY | src/homography.js:16-34 | the fitted transform satisfies all four correspondences, and maps each source point with non-zero denominator exactly onto its destination point; there is no transform only when the elimination of the correspondence system meets an all-zero pivot column |
| Homography.PixelIndex | src/homography.js:66 | byte c of pixel (x, y) is at (y w + x) 4 + c, inside the buffer, and that index gives x, y and c back |
| Homography.PixelOf | src/homography.js:75 | every byte index of a w by h raster is the index of some pixel and channel |
| Homography.Checkerboard | src/homography.js:81 | the fill grey is 0xcc or 0xaa, by the parity of the 16-pixel tiles |
| Homography.Located | src/homography.js:71-74 | a located source pixel lies inside the source raster |
| Homography.Sample | src/homography.js:68-74 | the sampled pixel of a destination pixel lies inside the source raster |
| Homography.ChannelsCopied | src/homography.js:74-79 | a pixel that samples the source gets the four bytes of the sampled pixel |
| Homography.ChannelsFilled | src/homography.js:80-86 | a pixel that samples nothing gets the checkerboard grey, fully opaque |
| Homography.Warped | src/homography.js:59-60 | the destination raster has dstWidth times dstHeight times 4 bytes |
| Homography.WarpedAt | src/homography.js:64-88 | byte c of pixel (x, y) of the warped raster is that pixel's channel c |
| Homography.WarpIdentity | src/homography.js:64-88 | warping through the identity, with the whole source as viewport and a destination of the source's size, copies the source |
| Homography.WarpWithoutTransform | src/homography.js:80-86 | without a usable transform every pixel is the opaque checkerboard |
| Homography.Homography.constructor | src/homography.js:58-61 | a new Homography holds no destination buffer yet |
| Homography.Homography.WarpImage | src/homography.js:38-93 | for an image of positive width and height, the returned buffer holds exactly the warped raster; it is the previous buffer when that had the right length and a fresh one otherwise, in which case the previous buffer keeps its contents |
| Homography.Homography.WarpRow | src/homography.js:65-87 | after row y the buffer agrees with the warped raster up to the end of that row |
| Homography.Homography.WarpPixel | src/homography.js:66-86 | writes the four channels of pixel (x, y) and no other byte |
| Homography.CopyPixel | src/homography.js:75-79 | copies four source bytes to the pixel and changes nothing else |
| Homography.FillPixel | src/homography.js:81-85 | writes grey g with alpha 0xff to the pixel and changes nothing else |
| LinearAlgebra.Swap | src/homography.js:251-255 | entries a and b exchanged, every other entry kept |
| LinearAlgebra.ApplySwaps | src/homography.js:249-255 | the row exchanges of the first k pivot steps keep the length |
| LinearAlgebra.Permutation | src/homography.js:249-255 | the row order after k exchanges names a row of the matrix at every position |
| LinearAlgebra.ApplySwapsIndex | src/homography.js:202-208 | exchanging entries step by step is reading the vector through the final row order |
| LinearAlgebra.ApplySwapsSettled | src/homography.js:202-208 | position t is final once exchange t has been made |
| LinearAlgebra.PermutationMultiset | src/homography.js:249-255 | the recorded row order is a permutation of 0..n-1 |
| LinearAlgebra.PermutationCovers | src/homography.js:249-255 | every row of the matrix appears somewhere in the row order |
| LinearAlgebra.FactoredInit | src/homography.js:234-238 | before the first step the working matrix is the matrix itself |
| LinearAlgebra.FactoredSwap | src/homography.js:251-255 | exchanging two rows at or below the current step keeps the factorisation invariant, with the same exchange in the row order |
| LinearAlgebra.ScaleStep | src/homography.js:259-261 | dividing the pivot column below the diagonal keeps the matrix square |
| LinearAlgebra.SubtractStep | src/homography.js:263-271 | the elimination keeps the matrix square |
| LinearAlgebra.SubtractedRow | src/homography.js:264-270 | the updated row has the row's length |
| LinearAlgebra.SteppedEntry | src/homography.js:257-271 | after step k the multiplier column holds M[i][k]/M[k][k], the lower right block holds M[i][j] - M[i][k]/M[k][k] M[k][j], and the rest is unchanged |
| LinearAlgebra.FactoredStep | src/homography.js:257-271 | a step with a non-zero pivot advances the invariant from k to k+1 |
| LinearAlgebra.FactoredProduct | src/homography.js:274-277 | after all steps, row perm[i] of A is row i of L times U |
| LinearAlgebra.LUIsA | src/homography.js:274-277 | entry (i, j) of L U is entry (perm[i], j) of A |
| LinearAlgebra.UxIsY | src/homography.js:216-223 | back substitution makes every row of U x equal to y |
| LinearAlgebra.SolvedByFactors | src/homography.js:193-226 | L y = P b and U x = y make row perm[i] of A x equal b[perm[i]] |
| LuSolver.Clone | src/homography.js:179-191 | a fresh outer array with the same elements (rows shared) |
| LuSolver.ArrayOfRows | src/homography.js:144-151 | a fresh array of fresh, distinct rows holding the matrix |
| LuSolver.PivotUnique | src/homography.js:239-248 | the pivot of a column is unique: the first row of largest magnitude |
| LuSolver.PivotRow | src/homography.js:239-248 | the search with strict `<` returns the first row of largest magnitude at or below the diagonal |
| LuSolver.ScaleColumn | src/homography.js:257-261 | the rows become the scaled matrix |
| LuSolver.EliminateRow | src/homography.js:264-270 | the paired loop plus the trailing odd column subtracts the multiple of the pivot row from every column right of k |
| LuSolver.EliminateBelow | src/homography.js:263-271 | the rows become the eliminated matrix |
| LuSolver.ExchangeRows | src/homography.js:251-255 | the row references k and p are exchanged, nothing else changes |
| LuSolver.ZeroPivotColumn | src/homography.js:241-260 | a zero pivot means the whole column is zero on and below the diagonal |
| LuSolver.PivotRecorded | src/homography.js:249 | recording pivot p extends the pivot list and applies the exchange to the row order |
| LuSolver.StepDone | src/homography.js:257-271 | a completed step advances the invariant and leaves the finished rows alone |
| LuSolver.EliminationStep | src/homography.js:238-272 | one step: pivot chosen, rows exchanged, and, unless the pivot is zero, scaled and eliminated |
| LuSolver.Factorise | src/homography.js:238-277 | on success the rows hold L and U of A in pivot order with non-zero diagonal; otherwise a step met an all-zero pivot column |
| LuSolver.LUSolve | src/homography.js:193-226 | the result is fresh and solves U x = y for the y that solves L y = P b |
| LuSolver.ForwardSubstitute | src/homography.js:201-214 | the first loop applies the recorded exchanges and solves L y = P b in place |
| LuSolver.ExchangeEntries | src/homography.js:204-208 | entries i and P[i] exchanged |
| LuSolver.SubtractProducts | src/homography.js:211-213 | x[i] loses the row product over lo..hi, nothing else changes |
| LuSolver.BackSubstitute | src/homography.js:216-223 | the second loop solves U x = y in place |
| LuSolver.ForwardSwapped | src/homography.js:202-208 | the exchange of step i puts entry i of the fully exchanged right-hand side in x[i] |
| LuSolver.ForwardRowDone | src/homography.js:210-213 | after step i rows 0..i of L y = P b hold |
| LuSolver.BackRowDone | src/homography.js:216-223 | after step i rows i..n-1 of U x = y hold |
| LuSolver.LU | src/homography.js:228-278 | with fast the factors replace A; without, only the outer array is copied, so A's rows are still overwritten; the factor and failure cases as for Factorise |
| LuSolver.Solve | src/homography.js:280 | on success x solves A x = b for the A held on entry and b is unchanged; otherwise the elimination met an all-zero pivot column |
| Paths.RelativePathInverse | src/text-detector/text-detector.js:31-37 | a URL under the page becomes `./` plus the rest, and putting the page URL (and the dropped `/`) back gives the URL; any other URL is kept |
| Paths.RelativePathStripsOne | src/rectangle-detector/rectangle-detector.js:45-51 | exactly one `/` after the page URL is dropped |
| Paths.Relativise | src/face-detector/face-detector.js:44-50 | the step-by-step reassignment computes RelativePath |
| Sequences.Filter | src/detector.js:377-379 | the kept elements satisfy the test, come from the input, and every passing element is kept |
| Sequences.FilterAppend | src/detector.js:379 | filtering preserves order: a concatenation filters part by part |
| Sequences.FilterAll | src/detector.js:379 | a filter that keeps everything changes nothing |
| Sequences.FilterMember | src/detector.js:377-379 | an element survives exactly when it is in the input and passes |
| Sequences.Map | src/detector.js:371-374 | one result per element, each the function of its element |
| Sequences.MapAppend | src/detector.js:371-374 | mapping a concatenation maps each part |
| Strings.Split | src/detector.js:369 | at least one piece, and no piece holds the separator |
| Strings.JoinSplit | src/detector.js:361-369 | joining the pieces of a split gives the string back |
| Strings.SplitJoin | src/detector.js:369-380 | splitting a join of separator-free pieces gives the pieces back |
| Strings.TrimStartSpec | src/detector.js:374 | a suffix with no leading white space; everything cut is white space |
| Strings.TrimEndSpec | src/detector.js:374 | a prefix with no trailing white space; everything cut is white space |
| Strings.TrimSpec | src/detector.js:374 | the trimmed string is a slice of the input with only white space cut at each end and none left at its ends |
| Strings.TrimIdempotent | src/detector.js:374 | trimming twice trims nothing more |
| Strings.CollapseSpec | src/detector.js:371 | the collapsed line has no two adjacent white-space characters, only plain spaces, and the same visible characters |
| Strings.CollapseFixes | src/detector.js:371 | a collapsed line is left as it is |
| Strings.CollapseIdempotent | src/detector.js:371 | collapsing twice collapses nothing more |
| Strings.CollapseTrimIdempotent | src/detector.js:370-375 | collapsing then trimming, applied again, changes nothing |
| BarcodeDetector.Reorder | src/barcode-detector/barcode-detector.js:20-27 | four points, with the first and third in place |
| BarcodeDetector.ReorderPermutes | src/barcode-detector/barcode-detector.js:20-27 | the reordered points are the same four points (equal multisets) |
| BarcodeDetector.ReorderInvolution | src/barcode-detector/barcode-detector.js:21-26 | reordering twice gives the points back |
| BarcodeDetector.ToBarcodeDetectorResult | src/barcode-detector/barcode-detector.js:17-30 | only the corner points change, and only when the symbol has exactly four |
| Detector.ViewportCorners | src/detector.js:155-160 | top-left, top-right, bottom-right, bottom-left of the viewport |
| Detector.Quad | src/detector.js:155-160 | four transformed corners |
| Detector.UnitViewportQuad | src/detector.js:129-137 | under the fitted transform the unit square's corners land on the code's corner points |
| Detector.CropInside | src/detector.js:163-170 | a crop with fractions in [0, 1] lies inside the viewport |
| Detector.CropWhole | src/detector.js:165-170 | the crop {0, 0, 1, 1} changes nothing |
| Detector.CropTwice | src/detector.js:165-170 | cropping twice is cropping once by the composed crop |
| Detector.FloorDiv | src/detector.js:184 | `Math.floor(a / d)` for any non-zero d: the k with k <= a / d < k+1, so k d <= a < (k+1) d for positive d and (k+1) d < a <= k d for negative d |
| Detector.OcrHeightAspect | src/detector.js:183-185 | the OCR image height is the viewport's aspect ratio times the width, rounded down, for a viewport of either orientation; it is not negative when width and height do not have opposite signs |
| Detector.DefaultOcrHeight | src/detector.js:22-31 | the default square viewport gives a 640 by 640 OCR image |
| Detector.AcceptedMembers | src/detector.js:262-274 | a barcode is processed exactly when it is a QR code that the ignore pattern does not match |
| Detector.Detector.constructor | src/detector.js:54-68 | the given options override the defaults; no homography yet |
| Detector.Detector.ComputeUnitSquareTransform | src/detector.js:129-137 | the transform takes each corner of the centred unit square to the matching corner point; it is absent only when that system is singular |
| Detector.Detector.ExtrapolateRegion | src/detector.js:144-193 | the centre is the diagonals' intersection and lies on both; the transform fits the corner points, and is absent only for a singular system; outline and crop outline are the transformed viewport and crop corners; the OCR height is recorded; the homography is created once and kept; the image is the warp of the frame |
| Detector.Detector.SelectBarcodes | src/detector.js:262-274 | the loop keeps, in order, and counts exactly the accepted barcodes |
| Detector.Restyled | src/detector.js:370-375 | each line collapsed and then trimmed, as the options say |
| Detector.CleanLinesMembers | src/detector.js:369-379 | a line survives exactly when it is a restyled input line, non-empty and not matched by the delete pattern |
| Detector.CleanLinesAppend | src/detector.js:369-379 | surviving lines keep their order |
| Detector.RestyleShape | src/detector.js:370-375 | a restyled line is collapsed and trimmed when those options are on |
| Detector.CleanLinesShape | src/detector.js:369-379 | every output line is non-empty, not deleted, collapsed and trimmed as the options say |
| Detector.RestyleIdempotent | src/detector.js:370-375 | restyling twice changes nothing more |
| Detector.CleanLinesIdempotent | src/detector.js:369-379 | cleaning the cleaned lines again changes nothing |
| Detector.RestyleSingleLine | src/detector.js:370-375 | restyling never introduces a line break |
| Detector.CollectTexts | src/detector.js:323-354 | the loop over the text blocks keeps, in block order, exactly the non-empty raw values |
| Detector.RecognisedLines | src/detector.js:361-368 | without a matching clean pattern, and with raw values free of line breaks, the joined text splits back into exactly the non-empty raw values |
| Detector.CleanTextLines | src/detector.js:361-380 | the output is empty exactly when no line survives, and otherwise splits back into the surviving lines |
| RectangleDetector.ArgMin | src/rectangle-detector/rectangle-detector.js:81-100 | the first index with the smallest key |
| RectangleDetector.ArgMax | src/rectangle-detector/rectangle-detector.js:81-100 | the first index with the largest key |
| RectangleDetector.Ordered | src/rectangle-detector/rectangle-detector.js:102-111 | four input points: smallest sum, smallest difference, largest sum, largest difference |
| RectangleDetector.OrderPoints | src/rectangle-detector/rectangle-detector.js:75-112 | the single pass with `i == 0 ||` and strict comparisons computes Ordered |
| RectangleDetector.OrderedExtremes | src/rectangle-detector/rectangle-detector.js:102-111 | each chosen corner is extreme against every input point |
| RectangleDetector.SameMembers | src/rectangle-detector/rectangle-detector.js:271-278 | a permutation of the corners has the same points |
| RectangleDetector.RectangleCorner | src/rectangle-detector/rectangle-detector.js:102-111 | on an axis-aligned rectangle each extreme key singles out one corner |
| RectangleDetector.OrderedRectangle | src/rectangle-detector/rectangle-detector.js:74-112 | the corners of an axis-aligned rectangle, in any order, come out clockwise from the top-left |
| RectangleDetector.Floor | src/rectangle-detector/rectangle-detector.js:118-121 | `Math.floor`: the integer f with f <= v < f + 1 |
| RectangleDetector.ScalePoints | src/rectangle-detector/rectangle-detector.js:126-131 | one point per point, each coordinate the integer at most the scaled coordinate and less than one below it |
| RectangleDetector.ScaleRect | src/rectangle-detector/rectangle-detector.js:116-123 | every field the integer at most the scaled field and less than one below it |
| RectangleDetector.ScalePointsUnit | src/rectangle-detector/rectangle-detector.js:126-131 | scale 1 keeps integral points |
| RectangleDetector.IntegralFloor | src/rectangle-detector/rectangle-detector.js:128-129 | rounding down an integral value scaled by 1 keeps it |
| RectangleDetector.Collected | src/rectangle-detector/rectangle-detector.js:244-259 | only contours with area at least minArea are kept, in order, each with its own index, area, polygon and box |
| RectangleDetector.Min4 | src/rectangle-detector/rectangle-detector.js:295 | the smallest of the four sides |
| RectangleDetector.Max4 | src/rectangle-detector/rectangle-detector.js:296 | the largest of the four sides |
| RectangleDetector.RatioWithinSides | src/rectangle-detector/rectangle-detector.js:288-301 | a passing quad has every side longer than 1 and shorter than maxSideRatio times every other side |
| RectangleDetector.Insert | src/rectangle-detector/rectangle-detector.js:282-284 | insertion keeps the list sorted by decreasing area and adds exactly one element |
| RectangleDetector.SortByArea | src/rectangle-detector/rectangle-detector.js:282-284 | sorted by decreasing area and a permutation of the input |
| RectangleDetector.FilterSorted | src/rectangle-detector/rectangle-detector.js:282-301 | filtering a sorted list leaves it sorted |
| RectangleDetector.First | src/rectangle-detector/rectangle-detector.js:306 | `slice(0, 1)`: at most one element, none exactly for an empty list, else the head |
| RectangleDetector.SortedSurvivors | src/rectangle-detector/rectangle-detector.js:282-301 | sorting before filtering keeps the same survivors |
| RectangleDetector.SortedHead | src/rectangle-detector/rectangle-detector.js:282-284 | the head of the sorted list has the largest area |
| RectangleDetector.DetectedBest | src/rectangle-detector/rectangle-detector.js:243-336 | at most one rectangle: none exactly when no contour passes every test, otherwise a passing contour of largest area, scaled back |
| RectangleDetector.RectangleDetector.constructor | src/rectangle-detector/rectangle-detector.js:15-20 | the options given override 500, 320 and 1.8 |
| RectangleDetector.RectangleDetector.Detect | src/rectangle-detector/rectangle-detector.js:135-336 | each option given for the call replaces the detector's own and stays for later calls, the others are kept; the result is Detected over the merged minArea and maxSideRatio, for scale srcCols / merged resizedWidth |
| RectangleDetector.RectangleDetector.FindRectangles | src/rectangle-detector/rectangle-detector.js:243-336 | with the detector's options, the post-processing returns Detected for scale srcCols / resizedWidth |
| RectangleDetector.RectangleDetector.CollectContours | src/rectangle-detector/rectangle-detector.js:244-259 | the collecting loop computes Collected |
| RectangleDetector.OrderQuads | src/rectangle-detector/rectangle-detector.js:271-279 | every quad gets its ordered corners |
| RectangleDetector.ScaleBack | src/rectangle-detector/rectangle-detector.js:330-336 | every contour is scaled back, in order |
| RectangleDetector.StartupScriptFile | src/rectangle-detector/rectangle-detector.js:39-51 | the OpenCV script path, resolved and made page-relative |
| TextDetector.IntegerNumeral | src/text-detector/text-detector.js:95 | every decimal integer, with or without a minus sign, is a numeral and reads back as itself |
| TextDetector.FractionNumeral | src/text-detector/text-detector.js:95 | digits, a point and digits form a numeral read as whole part plus fraction over its power of ten |
| TextDetector.WordsShape | src/text-detector/text-detector.js:95 | every part of an attribute is non-empty, without spaces, and trimmed |
| TextDetector.TokensPipeline | src/text-detector/text-detector.js:95 | the one-pass tokens are the source's map, filter and map |
| TextDetector.PartsTokens | src/text-detector/text-detector.js:95 | one part per word, in order: a number exactly when the word is a numeral, with the numeral's value, else the word |
| TextDetector.Entry | src/text-detector/text-detector.js:96-99 | no parts set nothing; otherwise the first part is the key, set to null, to the second part, or to the list of the rest |
| TextDetector.AppliedUntouched | src/text-detector/text-detector.js:94-100 | a key no attribute names keeps its value or its absence |
| TextDetector.AppliedLastWins | src/text-detector/text-detector.js:94-100 | the last attribute naming a key decides its value |
| TextDetector.ParseTitle | src/text-detector/text-detector.js:92-100 | a title's attributes (none for a missing or empty title) applied in order give ParsedTitle |
| TextDetector.ApplyAttributes | src/text-detector/text-detector.js:94-100 | the loop over the attributes applies each one's parts in order, as Applied does |
| TextDetector.ApplyParts | src/text-detector/text-detector.js:112-115 | one attribute's branch computes Apply |
| TextDetector.ParseLine | src/text-detector/text-detector.js:104-117 | one word per word element, with its text |
| TextDetector.ParseHocr | src/text-detector/text-detector.js:74-122 | one parsed line per line element, in document order |
| TextDetector.ParseWordElements | src/text-detector/text-detector.js:85-102 | one parsed word per word element, in order |
| TextDetector.BoxCorners | src/text-detector/text-detector.js:124-131 | top-left, top-right, bottom-right, bottom-left, spanning the box's absolute width and height |
| TextDetector.BoxCornersOrdered | src/text-detector/text-detector.js:124-131 | for a box of positive size the corners start at its origin and are already in the rectangle detector's order |
| TextDetector.BoundingBox | src/text-detector/text-detector.js:139 | present exactly when `bbox` holds four numbers x0 y0 x1 y1; then the box spans from (x0, y0) to (x1, y1) |
| TextDetector.ConvertLineShape | src/text-detector/text-detector.js:139-157 | a line converts exactly when it and all its words have boxes; words come out one for one with their texts and `x_wconf`, and the raw value splits back into the word texts |
| TextDetector.MeanConfidenceBounds | src/text-detector/text-detector.js:144-158 | the line confidence is absent exactly when no word has a numeric confidence, and otherwise lies between the smallest and largest of them |
| TextDetector.ConvertHocrToDetectedTexts | src/text-detector/text-detector.js:133-163 | one detected text per line, in order, exactly when every line converts |
| TextDetector.ConvertHocrLine | src/text-detector/text-detector.js:136-160 | the loop with running sum and count computes ConvertLine, whose confidence is the mean of the words' numeric confidences |
| TextDetector.ConvertHocrLineAsWritten | src/text-detector/text-detector.js:144-158 | as the source is written, every converted line has no confidence |
| TextDetector.ConfidenceFinding | src/text-detector/text-detector.js:152-158 | a one-word line with `x_wconf 90` has confidence 90 where the source reports null |
| TextDetector.TextDetector.constructor | src/text-detector/text-detector.js:14-39 | `langs` defaults to `eng`; each of the three engine paths is resolved and made page-relative |
| FaceDetector.OfKind | src/face-detector/face-detector.js:130-136 | one landmark of the type per point list, in order |
| FaceDetector.FlattenedCount | src/face-detector/face-detector.js:128-137 | flattening keeps every point list as one landmark |
| FaceDetector.LandmarksInOrder | src/face-detector/face-detector.js:103-137 | a face has eight landmarks: mouth, two eyes, nose, two eyebrows, jaw outline, alignment points, each with its getter's points |
| FaceDetector.CopyLocations | src/face-detector/face-detector.js:133 | the copied locations are the same points in the same order |
| FaceDetector.MapLandmarks | src/face-detector/face-detector.js:127-137 | the nested loops compute the flattened landmarks |
| FaceDetector.ParseResult | src/face-detector/face-detector.js:86-150 | no results are passed on as none; otherwise one detected face per result, in order |
| FaceDetector.ParsedFaces | src/face-detector/face-detector.js:95-147 | each face keeps its result's box and score and has eight landmarks |
| FaceDetector.FaceDetector.constructor | src/face-detector/face-detector.js:13-21 | the options given override null, false, 224 and 0.5 |
| FaceDetector.FaceDetector.CombineOptions | src/face-detector/face-detector.js:158-166 | the call's options are merged into the detector's own and stay for later calls; input size and score threshold are passed on |
| FaceDetector.StartupPaths | src/face-detector/face-detector.js:38-64 | the model directory and the library script, resolved and made page-relative |

## Left out

- Browser and engine calls are left out: the DOM, canvas, camera, timers, the asynchronous startup promises, script loading, the OCR engine, OpenCV's image processing (resize, grey, blur, edges, contours, areas, polygon approximation) and face-api detection. Their results are parameters: a `Raster`, `RawContour`s, `LineElement`s, `FaceResult`s, barcodes.
- `new URL(path, import.meta.url)` is an abstract `resolve` function, and `window.location` is a `base` string.
- The regular expressions of the detector options are functions passed in: the ignore test, the clean `exec` and the delete test. They are stateless, so the `lastIndex` that a `g`-flagged pattern carries between `test` calls is not modelled. The numeral pattern of the title parser is modelled exactly.
- `Detector.Detector.ExtrapolateRegion`: requires a non-zero OCR viewport width, a positive OCR width and a positive floored OCR height. A mirrored viewport, whose width and height are both negative, is accepted as the source accepts it. Outside that, the source computes a non-finite, negative or zero height, or is given a zero width. `new Uint8ClampedArray` throws a RangeError for an infinite or negative length, and for a NaN height (the 0/0 of a zero-width viewport whose height or OCR width is also zero) it allocates an empty array rather than failing. For every image of zero area, including an OCR width of 0, an OCR rectangle of height 0, or a viewport so flat that the height floors to 0, `new ImageData` (src/homography.js:91) throws and nothing in `extrapolateRegion` or `decode` catches it. None of these error paths is modelled.
- `Homography.Homography.WarpImage`: requires a positive destination width and height. For an image of zero area the source allocates or keeps an empty buffer, runs no loop iteration and then throws in `new ImageData` (src/homography.js:91); that error path is not modelled.
- `Detector.Detector.ComputeUnitSquareTransform`: requires four corner points, which the source reads without checking.
- `RectangleDetector.OrderPoints`: requires a non-empty list. The source is only called with four corners and would return undefined entries for none.
- `RectangleDetector.SortByArea`: the order among equal areas is not stated to match the engine's stable sort. Every contract above speaks of areas and membership, not of which of two equal-area contours comes first.
- `RectangleDetector.RectangleDetector.Detect`: the side lengths come from a `length` function parameter standing for `Math.sqrt` of the squared distances. Floating-point square roots are not modelled.
- `RectangleDetector.RectangleDetector.Detect`: requires the merged `resizedWidth` to be positive. With an explicit width of 0 the source gives OpenCV's `resize` an empty 0-by-0 target size, which OpenCV rejects with an exception, and its scale-back would divide by zero (`this.src.cols / resizedWidth`, src/rectangle-detector/rectangle-detector.js:330). That error path is not modelled.
- `TextDetector.NumeralValue` reads a numeral as its exact decimal value, not as the nearest double.
- `TextDetector.BoundingBox`: a `bbox` that is not four numeral tokens makes the conversion return no texts. The source throws for a missing `bbox` and computes with NaN for a short one or a token JavaScript cannot read as a number. It turns number-like tokens that fail the numeral pattern, such as "1.", ".5", "+5", "1e3" or "0x1f", into a finite box, which the model does not.
- `TextDetector.ParseWord`: property keys are kept as tokens. In the source the number 1 and the string "1" name the same property, and an attribute named `text` or `words` overwrites the word's text or the line's words. Neither is modelled.
- `Homography.ProjectiveMatrixFromSquares`: the elimination stops at the first all-zero pivot column and the transform is None. The source continues with non-finite numbers, which make every transformed point non-finite.
- `FaceDetector.FaceDetector.CombineOptions`: `maxDetectedFaces` and `fastMode` are merged but, as in the source, never passed to the library.
- `Detector.Detector.constructor`: `Object.assign` onto the shared default object is not modelled; each detector holds its own options.
- Only the options the core uses are fields: viewport, OCR width, OCR rectangle and ignore pattern. The clean-up options form a `CleanOptions` value; the camera and force-polyfill options feed only browser calls.
- The engine's overall confidence (`ret.data.confidence`, src/text-detector/text-detector.js:190) is passed through to the decode loop unchanged (src/detector.js:358) and is not modelled.
- `getPerspectiveTransform` (src/detector.js:124-126) calls a function that is defined nowhere and is never called. `dataURLFromImageData`, the debug drawing, src/debug-layer.js and src/main.js are presentation only. None of them is modelled.
- `Uint8ClampedArray` clamping is not modelled: every value written is already a byte.

## Findings

| source | as written | input that shows it | evidently intended | confidence | as-written member | corrected member |
|---|---|---|---|---|---|---|
| src/text-detector/text-detector.js:152-158 | the confidence is only accumulated when `'confidence' in newWord`, but the word record's only fields are `rawValue`, `boundingBox`, `_confidence` and `cornerPoints`, so the count stays 0 and every line's `_confidence` is null | a line with box `bbox 0 0 10 10` holding one word with the same box and `x_wconf 90` | the line confidence is the mean of its words' numeric confidences, here 90 | high; not executed | TextDetector.ConvertHocrLineAsWritten | TextDetector.ConvertHocrLine |
