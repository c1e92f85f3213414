# Dense SIFT sampling parameters, modelled in Dafny

This project models the core of `SIFTExtractor`, a small C++ class that
extracts SIFT descriptors from one image with OpenCV. The part with logic
of its own is `extract_using_dense`. Given the image width W, its height H
and a requested feature count N, it computes the parameters of a regular
sampling grid:

- the grid step `ceil(sqrt((W*H)/N))`;
- the feature scale `ceil(sqrt((W*H)/N) / 2)`;
- the column and row counts and the margins they leave;
- a pixel offset `int(sqrt((odd_cols*odd_rows)/4) + 0.5)`.

These are passed to OpenCV's dense feature detector. Around this sits the
object's "extracted yet?" state: the constructor clears the flag, dense
extraction stores keypoints and descriptors and sets it, and the two save
operations check it before writing anything.

Files and modules:

- `outcomes.dfy`, module `Outcomes`: `Option` and `Result`.
- `cpp_arith.dfy`, module `CppArith`: the 32-bit `int` range, C++ integer
  division (truncating toward zero, unlike Dafny's Euclidean `/`), and the
  `(int)` cast of a float.
- `int_sqrt.dfy`, module `IntSqrt`: the three square-root readings as least
  integers meeting a squared inequality.
  - `ceil(sqrt(k))` is the least c with c*c >= k.
  - `ceil(sqrt(k)/2)` is the least s with 4*s*s >= k.
  - `int(sqrt(q)+0.5)` is the least r with 4q < (2r+1)^2.
- `dense_grid.dfy`, modules `DenseGrid` (the computation `Plan` and the
  detector arguments `Config`) and `DenseGridFacts` (its properties).
- `feature_record.dfy`, module `FeatureRecord`: the text `save_feature`
  writes, as a stream of tokens.
- `sift_extractor.dfy`, module `SiftExtractor`: the class `Extractor` with
  its fields `extraction`, `keypoints`, `descriptors`, the reference image
  and the never-filled gray-scale image.

No floating point is needed. Every `double` in the computation is the
square root of an integer below 2^31, or a ceiling or rounding of one. The
square root of a non-square integer that small is never within a rounding
error of an integer or of a half-integer, so each integer reading above is
exact. The divisions `width / ceil(interval)` are taken in `double` and
then truncated, which also equals the integer quotient for such operands.

Behaviour the C++ code leaves undefined is a `Fault`:

- `W*H` overflowing `int`;
- `N == 0`, an integer division by zero;
- a negative density (N < 0 and -N <= W*H): its square root is NaN, and
  `W / ceil(NaN)` is then converted to `int`;
- a zero step (N != 0 and W*H < |N|), where `W / 0.0` is
  converted to `int`;
- `odd_cols*odd_rows` overflowing `int`;
- a negative `(odd_cols*odd_rows)/4`: its square root is NaN, and
  `int(NaN + 0.5)` is undefined.

All of these arise before the detector is built. The model therefore
reports the fault and leaves the object unchanged.

Notes on the code as written (the model follows it):

- `odd_rows` subtracts the row span from the width, not the height.
  - On a square image it equals `odd_cols`.
  - On a wide image it can far exceed the step: 105 x 10 pixels with 10
    features gives step 11, `odd_rows` 105 and an offset of 13, more than
    the height.
  - On a tall image it can be negative: 10 x 100 pixels with 1 feature
    gives `odd_rows = -86`, and the offset is then undefined. This fault
    occurs only when H > W.
- A negative margin area above -4 gives the quotient 0 under C++
  truncation and is harmless. The fault needs `odd_cols*odd_rows <= -4`.
- The step is the ceiling of the interval, `ceil(sqrt((W*H)/N))`.
- The DoG method is an empty function.
- Saving the features or the picture before an extraction prints a
  message and returns.
- `save_image` draws the keypoints into the reference image itself, so a
  later dense extraction detects and describes the marked picture. The
  drawing keeps the image's size, so that extraction plans the same grid.

## Model

| member | source | states |
|---|---|---|
| `CppArith.TruncDiv` | SIFTExtractor/src/SIFTExtractor.hpp:91 | `int` division: remainder smaller than the divisor in magnitude and zero or of the dividend's sign, i.e. the quotient truncates toward zero |
| `CppArith.TruncDivNonNegative` | SIFTExtractor/src/SIFTExtractor.hpp:91 | for a non-negative area and positive count the C++ quotient is the mathematical one |
| `CppArith.TruncDivByFour` | SIFTExtractor/src/SIFTExtractor.hpp:105 | `(odd_cols*odd_rows)/4` is negative exactly when the product is at most -4 |
| `CppArith.TruncToInt` | SIFTExtractor/src/SIFTExtractor.hpp:159 | the `(int)` cast of a descriptor value drops the fraction toward zero, for either sign |
| `IntSqrt.CeilSqrt` | SIFTExtractor/src/SIFTExtractor.hpp:97 | `ceil(interval)` is the least natural c with c*c >= density; it is 0 exactly when the density is 0; a negative density faults before the step is computed |
| `IntSqrt.HalfCeilSqrt` | SIFTExtractor/src/SIFTExtractor.hpp:94 | `ceil(scale)` is the least natural s with 4*s*s >= density |
| `IntSqrt.RoundSqrt` | SIFTExtractor/src/SIFTExtractor.hpp:109 | `int(sift + 0.5)` is r with 4q < (2r+1)^2 and (2r-1)^2 <= 4q when r > 0; it is 0 exactly when q is 0 |
| `DenseGrid.Plan` | SIFTExtractor/src/SIFTExtractor.hpp:88-105 | each of the four faults up to the step (area overflow, division by zero, negative density, zero step) by an if-and-only-if condition on W, H and N; the computation gets past the step, to success or one of the two margin faults, exactly when 1 <= N <= W*H <= INT_MAX |
| `DenseGrid.DensityOf` | SIFTExtractor/src/SIFTExtractor.hpp:91 | the density `(W*H)/N` is defined and positive exactly when 1 <= N <= W*H <= INT_MAX, with the fault for each other case |
| `DenseGrid.Layout` | SIFTExtractor/src/SIFTExtractor.hpp:97-105 | with a positive density only the margin overflow or the negative margin area can go wrong |
| `DenseGrid.DensitySign` | SIFTExtractor/src/SIFTExtractor.hpp:91 | the density is negative exactly when N < 0 and -N <= W*H, and zero exactly when W*H < abs(N) |
| `DenseGridFacts.StepCoversDensity` | SIFTExtractor/src/SIFTExtractor.hpp:91-97 | the step is at least 1 and is the least integer whose square covers `(W*H)/N` |
| `DenseGridFacts.ColumnMargin` | SIFTExtractor/src/SIFTExtractor.hpp:97-101 | `sample_col_num = W / c` and `odd_cols = W mod c`, so 0 <= odd_cols < c |
| `DenseGridFacts.RowMarginUsesWidth` | SIFTExtractor/src/SIFTExtractor.hpp:98-102 | `odd_rows = W - (H/c)*c`; it equals `odd_cols` when W == H, is non-negative when H <= W, and differs from `odd_cols` by whole steps |
| `DenseGridFacts.OnlyTallImagesHaveNegativeMarginArea` | SIFTExtractor/src/SIFTExtractor.hpp:102-105 | the undefined square root of a negative margin area happens only when H > W |
| `DenseGridFacts.OnlyWideImagesOverflowMarginArea` | SIFTExtractor/src/SIFTExtractor.hpp:101-105 | `odd_cols*odd_rows` overflows `int` only when W > H |
| `DenseGridFacts.MarginAreaBounded` | SIFTExtractor/src/SIFTExtractor.hpp:97-105 | when 1 <= N <= W*H <= INT_MAX and W <= H, the step is at least 1 and `odd_cols*odd_rows` lies between -(W*H) and W*H |
| `DenseGridFacts.OffsetRoundsQuarterMarginArea` | SIFTExtractor/src/SIFTExtractor.hpp:105-109 | the offset is sqrt(q) rounded to the nearest integer, q = (odd_cols*odd_rows)/4 truncated; 0 exactly when q is 0 |
| `DenseGridFacts.ScaleBracketsStep` | SIFTExtractor/src/SIFTExtractor.hpp:94-109 | the feature scale is the least s with 4s^2 >= density, and c <= 2s <= c+1 for the step c passed beside it |
| `DenseGridFacts.HalfStep` | SIFTExtractor/src/SIFTExtractor.hpp:94-97 | `ceil(sqrt k)` and `ceil(sqrt(k)/2)` differ by a factor of two, up to one |
| `DenseGridFacts.HalfStepBounds` | SIFTExtractor/src/SIFTExtractor.hpp:94-97 | the same bracket, from the least-integer characterisations alone |
| `DenseGridFacts.SquareImageCentresGrid` | SIFTExtractor/src/SIFTExtractor.hpp:88-109 | a square image with 1 <= N <= W*W <= INT_MAX always reaches the detector, both margins are W mod c and the offset is half the margin rounded down |
| `DenseGridFacts.HalfMarginOffset` | SIFTExtractor/src/SIFTExtractor.hpp:105-109 | for a margin o, `int(sqrt((o*o)/4) + 0.5)` is o/2 |
| `DenseGridFacts.DetectorFollowsPlan` | SIFTExtractor/src/SIFTExtractor.hpp:109 | the detector `Config` builds from a plan: its step c is the least integer with c*c >= (W*H)/N, its feature scale s has c <= 2s <= c+1, its image bound rounds the square root of the quarter margin area, with one scale level, multiplier 0.1, a step that varies with the scale and a bound that does not |
| `DenseGridFacts.SquareExample` | SIFTExtractor/src/SIFTExtractor.hpp:88-109 | 100 x 100 pixels, 4 features: step 50, scale 25, two columns and rows, no margin, offset 0 |
| `DenseGridFacts.TallImageExample` | SIFTExtractor/src/SIFTExtractor.hpp:102-105 | 10 x 100 pixels, 1 feature: `odd_rows` is negative and the offset is undefined |
| `DenseGridFacts.MarginOverflowExample` | SIFTExtractor/src/SIFTExtractor.hpp:88-105 | 2147483647 x 1 pixels, 1 feature: the area fits, the step is 46341, but `odd_cols*odd_rows` = 41707 * 2147483647 overflows |
| `DenseGridFacts.WideImageExample` | SIFTExtractor/src/SIFTExtractor.hpp:98-109 | 105 x 10 pixels, 10 features: `odd_rows` exceeds the step and the offset exceeds the height |
| `FeatureRecord.HeaderLine` | SIFTExtractor/src/SIFTExtractor.hpp:143-144 | the first line holds the keypoint count and the descriptor size 128, and its only newline is its last token |
| `FeatureRecord.KeypointFields` | SIFTExtractor/src/SIFTExtractor.hpp:152-155 | x, y, size and angle, each followed by a tab: tabs at exactly the odd positions, no line end |
| `FeatureRecord.DescriptorFields` | SIFTExtractor/src/SIFTExtractor.hpp:158-159 | n descriptor values take 2n tokens, with tabs at exactly the odd positions and no line end |
| `FeatureRecord.KeypointLine` | SIFTExtractor/src/SIFTExtractor.hpp:152-161 | a keypoint line takes `LineLength` = 265 tokens, every field is followed by a tab, and the line end is its last and only newline |
| `FeatureRecord.KeypointLines` | SIFTExtractor/src/SIFTExtractor.hpp:147-162 | n keypoint lines take n * `LineLength` tokens |
| `FeatureRecord.FeatureText` | SIFTExtractor/src/SIFTExtractor.hpp:143-162 | the file takes 4 + count * `LineLength` tokens and starts with the keypoint count |
| `FeatureRecord.DescriptorFieldsAt` | SIFTExtractor/src/SIFTExtractor.hpp:158-159 | descriptor value j is written truncated at position 2j, followed by a tab |
| `FeatureRecord.NewlinesAppend` | SIFTExtractor/src/SIFTExtractor.hpp:143-161 | line ends of two texts add up |
| `FeatureRecord.KeypointLineLayout` | SIFTExtractor/src/SIFTExtractor.hpp:152-161 | a keypoint line has x, y, size and angle, then 128 truncated descriptor values, each field followed by a tab, and ends with its only newline |
| `FeatureRecord.KeypointLinesAt` | SIFTExtractor/src/SIFTExtractor.hpp:149-162 | keypoint i's line is the i-th block of the text, in keypoint order |
| `FeatureRecord.KeypointLinesNewlines` | SIFTExtractor/src/SIFTExtractor.hpp:149-162 | n keypoint lines hold n line ends |
| `FeatureRecord.FeatureTextLayout` | SIFTExtractor/src/SIFTExtractor.hpp:143-162 | the file is the header `count TAB 128 NEWLINE` followed by exactly one line per keypoint |
| `FeatureRecord.FeatureTextLineCount` | SIFTExtractor/src/SIFTExtractor.hpp:143-162 | the file holds exactly `keypoints.size() + 1` lines |
| `SiftExtractor.UnloadedImageCannotBeSampled` | SIFTExtractor/src/SIFTExtractor.hpp:88-98 | an image that failed to load (0 x 0) makes dense extraction fault, by division by zero or a zero step |
| `SiftExtractor.Extractor.constructor` | SIFTExtractor/src/SIFTExtractor.hpp:48-61 | the flag is false, nothing is held, and the gray-scale image stays empty |
| `SiftExtractor.Extractor.Extract` | SIFTExtractor/src/SIFTExtractor.hpp:65-76 | DoG changes nothing; dense behaves as `ExtractUsingDense`; the feature count defaults to 100 |
| `SiftExtractor.Extractor.ExtractUsingDog` | SIFTExtractor/src/SIFTExtractor.hpp:79-82 | changes nothing |
| `SiftExtractor.Extractor.ExtractUsingDense` | SIFTExtractor/src/SIFTExtractor.hpp:85-119 | writes only keypoints, descriptors and the flag; on success the flag is set and the stored data is the engine's description of the detector's output for `Config(Plan(W, H, N))`; on a fault nothing changes |
| `SiftExtractor.Extractor.SaveFeature` | SIFTExtractor/src/SIFTExtractor.hpp:122-164 | nothing is written before extraction or when the file cannot be opened; otherwise the text is `FeatureText(keypoints, descriptors)` |
| `SiftExtractor.OverlayKeepsSize` | SIFTExtractor/src/SIFTExtractor.hpp:177-181 | when marking one keypoint keeps the picture's size, so does marking any sequence of them |
| `SiftExtractor.OverlayAppend` | SIFTExtractor/src/SIFTExtractor.hpp:177-181 | marking a sequence of keypoints is marking its parts one after the other, so a second save marks every keypoint again over the first drawing |
| `SiftExtractor.Extractor.SaveImage` | SIFTExtractor/src/SIFTExtractor.hpp:166-188 | nothing is drawn or written before an extraction; afterwards the reference image itself becomes the overlay of every keypoint in order, keeping its width and height, and that image is written under `<name>_sift.png`; nothing else changes |

## Left out

- OpenCV: the image reader, the colour conversion, the dense feature
  detector, the SIFT descriptor engine, the circle drawing, the image
  writer and the non-free module registration. These are foreign library
  code. The detector, the engine and the marking of one keypoint are
  function parameters of the methods that use them. The loaded image and the outcome of opening the
  output file are parameters.
- Console and error-stream messages are not modelled as text. The failure
  outcomes stand in for them, and the constructor's load-failure message is
  not modelled at all.
- The digits of the fixed six-decimal rendering of x, y, size and angle.
  The token `Fixed(v)` stands for that rendering.
- Keypoint and descriptor values are single-precision floats, read here as
  exact reals. The detector's scale multiplier `0.1f` is the real 0.1.
- `descriptorSize()` is the SIFT constant 128. Each descriptor row is
  assumed to have 128 values, as the engine produces them.
- TruncToInt: does not model the undefined result of casting a float
  outside the `int` range.
- SaveImage: the pixels of the two circles drawn per keypoint are not
  modelled. Marking one keypoint is a function parameter, and the written
  file is returned as its path and image.
- ExtractUsingDense: a computation the C++ code leaves undefined is
  modelled as a reported fault with no change of state. In C++ anything
  may happen.
- `int` is taken to be 32 bits wide. `size_t` counts are unbounded.
- `main` in `SIFTExtractor.cpp` is command-line plumbing. It also calls a
  two-argument constructor that the header does not declare.
