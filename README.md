# Playing-card detection: the decision layer

This project models the integer and comparison logic that surrounds the
OpenCV calls of the playing-card detector, and proves its properties in Dafny.
It covers two programs:

- the native entry point `process_image` of `native_opencv.cpp`, together with
  its helpers and the YUV 4:2:0 to RGBA converter `convert_yuv420_to_rgb`;
- the prototype script `five_cards_flattener_full_card.py`, which runs the
  same pipeline in Python.

What OpenCV computes is an input to the model. Each traced contour arrives as
a `Pipeline.Candidate` holding:

- its area;
- the vertex count of its 5% polygon approximation;
- its bounding box;
- its 1% polygon approximation.

The perspective warp is a parameter that maps a source quadrilateral to a
300 x 200 card image. Template correlation is a parameter that maps a probe
image and a template index to the best correlation score. Scores are `real`.

The model is split into these modules, one file each:

| module | file | what it models |
|---|---|---|
| `Geometry` | `geometry.dfy` | `Point`, `Rect`, the card size and the corner keys x+y and y-x |
| `CornerOrder` | `corners.dfy` | `find_four_points` and `std::minmax_element` |
| `Orientation` | `orientation.dfy` | the `temp_rect` decision table of `transform_image` and the destination corners |
| `Regions` | `regions.dfy` | images as row grids, sub-matrix crops, `flip(-1)` and the two 150 x 70 corner regions |
| `TemplateMatch` | `matching.dfy` | `match_rank` / `match_suit` (argmax with threshold) and the top/bottom arbitration |
| `Pipeline` | `pipeline.dfy` | `preprocess_image`, the accept filter, per-card classification, the detection loop and the flattening into `Results` |
| `Prototype` | `prototype.dfy` | the script's corner ordering, orientation table, suit and rank matchers, card counter and labelling |
| `YuvConvert` | `yuv.dfy` | `clamp`, the rotated index, the fixed-point colour formulas, the pixel packing and the conversion loops |
| `Arith` | `arith.dfy` | small helper facts about multiplication and division |

Each loop of the modelled core is a `method` with loop invariants, proved
against a specification:

- the matcher loops against `MatchOutcome`, which is tied to the reference
  argmax `BestIndex`;
- the corner loops against `CppCorners`;
- the `temp_rect` slot assignments against `SourceRect`;
- the detection loop against `Detections`;
- the box flattening against the layout `bboxes[4*i + j] == point_dets[i][j]`;
- the script's card-marking loop against the filter `Accepts` and the
  accepted list `Accepted`;
- the YUV loops against `WordAt` and `PixelAt`.

The properties the source promises are then proved as lemmas about those
functions. Some loops sit outside the modelled core and are left out (see
below): the template-bank construction, and the script's directory and
sorting loops.

Some properties of the two programs that the proofs make precise:

- **Ties in corner ordering.** The native corner ordering breaks ties by first
  occurrence for top-left and top-right, and by last occurrence for
  bottom-right and bottom-left. The script uses first occurrence for all four.
  The two agree whenever the largest x+y and the largest y-x are each held by
  a single vertex. `Prototype.CornersDifferOnMaxTie` gives four vertices on
  which they disagree.
- **The 1.2 ratio gap.** When the width is exactly 1.2 times a positive
  height, no native orientation test fires, and all four source points stay
  (0, 0). The script's inclusive horizontal test closes that gap.
- **The bottom corner window.** The native pipeline flips the warped card
  before it crops. Its bottom corner window `[149, 299) x [129, 199)` is
  therefore the warp's window `[1, 151) x [1, 71)`, one pixel inside the
  warp's top-left corner. The top window mirrors the warp's bottom-right
  corner exactly.

## Model

| member | source | states |
|---|---|---|
| CornerOrder.FirstArgMin | native_opencv/ios/Classes/native_opencv.cpp:114-117 | the index returned is the first one holding the smallest key (the `minmax.first` of `std::minmax_element`) |
| CornerOrder.LastArgMax | native_opencv/ios/Classes/native_opencv.cpp:114-118 | the index returned is the last one holding the largest key (the `minmax.second` of `std::minmax_element`) |
| CornerOrder.FirstArgMax | workspace/five_cards_flattener_full_card.py:41 | the index returned is the first one holding the largest key, as `np.argmax` does |
| CornerOrder.ExtremeIndicesUnique | native_opencv/ios/Classes/native_opencv.cpp:114-128 | each tie-break rule (first min, last max, first max) determines a single index |
| CornerOrder.MinMaxElement | native_opencv/ios/Classes/native_opencv.cpp:114-116 | the scanning loop returns the first smallest and the last largest element of a non-empty key vector |
| CornerOrder.CppCorners | native_opencv/ios/Classes/native_opencv.cpp:107-134 | `find_four_points` yields exactly four points, `[tl, tr, br, bl]` |
| CornerOrder.CppCornersSpec | native_opencv/ios/Classes/native_opencv.cpp:107-134 | tl is the input point at the first smallest x+y, tr at the first smallest y-x, br at the last largest x+y, bl at the last largest y-x; they need not be distinct |
| CornerOrder.FindFourPoints | native_opencv/ios/Classes/native_opencv.cpp:107-134 | the two key-filling loops and the two `minmax_element` calls produce exactly `CppCorners(points)` |
| CornerOrder.LeastPointSelected | native_opencv/ios/Classes/native_opencv.cpp:117 | an index that attains the minimum key selects the single point value with the least key |
| CornerOrder.GreatestPointSelected | native_opencv/ios/Classes/native_opencv.cpp:118 | an index that attains the maximum key selects the single point value with the greatest key |
| CornerOrder.CornersIndependentOfVertexOrder | native_opencv/ios/Classes/native_opencv.cpp:107-134 | when each of the four extremes is held by one point value, any two vertex lists with the same points give the same `[tl, tr, br, bl]`, and that is the expected four |
| Orientation.IsVertical | native_opencv/ios/Classes/native_opencv.cpp:142 | `5w <= 4h` holds exactly when `w <= 0.8 * h` |
| Orientation.IsHorizontal | native_opencv/ios/Classes/native_opencv.cpp:150 | `5w > 6h` holds exactly when `w > 1.2 * h` |
| Orientation.IsNearSquare | native_opencv/ios/Classes/native_opencv.cpp:157 | `4h < 5w < 6h` holds exactly when `0.8 * h < w < 1.2 * h` |
| Orientation.NearSquareRect | native_opencv/ios/Classes/native_opencv.cpp:157-170 | the near-square order has four points; its meaning is stated by `Orientation.NearSquareRectReverses` |
| Orientation.NearSquareRectReverses | native_opencv/ios/Classes/native_opencv.cpp:157-170 | both near-square orders walk the four raw points backwards, each once: from `p1` when `p1.y <= p3.y`, from `p0` otherwise (the script's py:67-86 is the same) |
| Orientation.OrientationCases | native_opencv/ios/Classes/native_opencv.cpp:141-171 | for `h > 0`, at most one orientation test holds, and none holds exactly when `w == 1.2 * h` |
| Orientation.SourceRect | native_opencv/ios/Classes/native_opencv.cpp:139-171 | `temp_rect` always has four points |
| Orientation.SourceRectCases | native_opencv/ios/Classes/native_opencv.cpp:139-171 | a wide box gives `(bl, tl, tr, br)` and a tall one `(tl, tr, br, bl)`; a near-square box gives `(p1, p0, p3, p2)` if `p1.y <= p3.y` and `(p0, p3, p2, p1)` otherwise; `w == 1.2 * h` with `h > 0` leaves four (0, 0) points |
| Orientation.AssignTempRect | native_opencv/ios/Classes/native_opencv.cpp:139-171 | the three successive slot-assignment blocks on the array `temp_rect`, starting from default points, leave exactly `SourceRect` |
| Orientation.TransformSourceRect | native_opencv/ios/Classes/native_opencv.cpp:136-171 | `transform_image`'s source quadrilateral is `SourceRect` of the ordered corners and the raw points |
| Orientation.Destination | native_opencv/ios/Classes/native_opencv.cpp:173-177 | the four destination points are distinct corners of the 200 x 300 card; the script's `dst` (py:89-94) is the same |
| Orientation.DestinationOrdered | native_opencv/ios/Classes/native_opencv.cpp:173-177 | `dst` is already in `[tl, tr, br, bl]` order: `CppCorners(dst) == dst` |
| Regions.Crop | native_opencv/ios/Classes/native_opencv.cpp:382 | `img(Range(r0, r1), Range(c0, c1))` is `(r1 - r0) x (c1 - c0)`, and cell (i, j) is `img[r0 + i][c0 + j]` |
| Regions.Flip | native_opencv/ios/Classes/native_opencv.cpp:213 | `flip(-1)` keeps the size, and cell (i, j) is `img[rows - 1 - i][cols - 1 - j]` |
| Regions.FlipInvolution | native_opencv/ios/Classes/native_opencv.cpp:213 | flipping twice returns the image |
| Regions.TopRegion | native_opencv/ios/Classes/native_opencv.cpp:382-383 | the top region is 150 x 70, and cell (i, j) is `card[i][j]` |
| Regions.BottomRegion | native_opencv/ios/Classes/native_opencv.cpp:386 | the flipped bottom region is 150 x 70, and cell (i, j) is `card[298 - i][198 - j]` |
| Regions.TopRegionOfFlippedWarp | native_opencv/ios/Classes/native_opencv.cpp:382 | on the flipped card, the top region is the warp's corner `[150, 300) x [130, 200)` turned by 180 degrees |
| Regions.BottomRegionOfFlippedWarp | native_opencv/ios/Classes/native_opencv.cpp:386 | on the flipped card, the bottom region is the warp's window `[1, 151) x [1, 71)` |
| TemplateMatch.BestIndex | native_opencv/ios/Classes/native_opencv.cpp:217-245 | reference argmax: None exactly when no score beats the threshold (and 0.0); otherwise the first index of a largest eligible score |
| TemplateMatch.BestIndexUnique | native_opencv/ios/Classes/native_opencv.cpp:236 | the first best eligible index is unique |
| TemplateMatch.MatchOutcome | native_opencv/ios/Classes/native_opencv.cpp:218-240 | the running update rule: the score is never negative, and the label is 0 exactly when the score is 0.0; its relation to the reference argmax is `TemplateMatch.MatchOutcomeIsBest` |
| TemplateMatch.MatchOutcomeIsBest | native_opencv/ios/Classes/native_opencv.cpp:217-245 | the running update rule gives `(0, 0.0)` when `BestIndex` is None, and otherwise `(k / types + 1, scores[k])` for the reference argmax k |
| TemplateMatch.MatchOutcomeSpec | native_opencv/ios/Classes/native_opencv.cpp:217-245 | the score is non-negative and at least every score above the threshold; the label is 0 exactly when no score is eligible, and then the score is 0.0; otherwise the label and score are those of the first best template |
| TemplateMatch.MatchOutcomeBound | native_opencv/ios/Classes/native_opencv.cpp:220-239 | over `classes * types` templates the label is at most `classes` |
| TemplateMatch.MatchOutcomeStep | native_opencv/ios/Classes/native_opencv.cpp:236-240 | visiting template k updates the outcome exactly as the `max_val > thresh && max_val > rank_val` test does |
| TemplateMatch.TemplateLayout | native_opencv/ios/Classes/native_opencv.cpp:226 | template `i * types + j` lies in the bank and belongs to class i |
| TemplateMatch.MatchTemplates | native_opencv/ios/Classes/native_opencv.cpp:217-245 | the nested loops return exactly `MatchOutcome`, with a label of at most `classes` |
| TemplateMatch.MatchRank | native_opencv/ios/Classes/native_opencv.cpp:217-245 | `match_rank` over 13 x 2 templates returns `MatchOutcome`, with a label in 0..13 |
| TemplateMatch.MatchSuit | native_opencv/ios/Classes/native_opencv.cpp:247-275 | `match_suit` over 4 x 2 templates returns `MatchOutcome`, with a label in 0..4 |
| TemplateMatch.Arbitrate | native_opencv/ios/Classes/native_opencv.cpp:390-402 | the result is one of the two, its score is at least both, and ties go to the bottom region |
| TemplateMatch.PerfectMatchWins | native_opencv/ios/Classes/native_opencv.cpp:231-240 | with scores at most 1.0, the first template that scores exactly 1.0 wins with label `k / types + 1` |
| Pipeline.AcceptsBounds | native_opencv/ios/Classes/native_opencv.cpp:369-371 | an accepted contour has four coarse vertices and an area in (0, H*W/5), so the image is at least 1 x 1 |
| Pipeline.Accepts | native_opencv/ios/Classes/native_opencv.cpp:369-371 | the accept filter; which contours it keeps is stated by `Pipeline.AcceptedOfOne` and `Pipeline.AcceptedStep`, and what an accepted contour satisfies by `Pipeline.AcceptsBounds`; the script's filter (py:215) is the same predicate |
| Pipeline.Center | native_opencv/ios/Classes/native_opencv.cpp:204-207 | the center lies in `[x, x+w) x [y, y+h)` for a non-empty box and is its midpoint rounded down |
| Pipeline.CardImage | native_opencv/ios/Classes/native_opencv.cpp:209-213 | the warped and flipped card is 300 x 200 |
| Pipeline.PreprocessImage | native_opencv/ios/Classes/native_opencv.cpp:193-214 | the query card keeps the box and corners, has center `Center(box)`, and holds the flipped warp of `SourceRect` |
| Pipeline.ScoresOf | native_opencv/ios/Classes/native_opencv.cpp:226-235 | one score per template of the bank |
| Pipeline.RankMatch | native_opencv/ios/Classes/native_opencv.cpp:383 | the rank matched in one region is in 0..13 |
| Pipeline.SuitMatch | native_opencv/ios/Classes/native_opencv.cpp:382 | the suit matched in one region is in 0..4 |
| Pipeline.NormalizedBox | native_opencv/ios/Classes/native_opencv.cpp:419-424 | the image-relative box has four coordinates |
| Pipeline.NormalizedBoxScales | native_opencv/ios/Classes/native_opencv.cpp:419-424 | times W or H, the four coordinates give back x, y, x+w, y+h; min precedes max; a box inside the image has all coordinates in [0, 1] |
| Pipeline.RankOf | native_opencv/ios/Classes/native_opencv.cpp:398-402 | the arbitrated rank is in 0..13 |
| Pipeline.RankOfUnmatched | native_opencv/ios/Classes/native_opencv.cpp:382-402 | the rank is 0 exactly when no rank template beats 0.5 in either region |
| Pipeline.SuitOf | native_opencv/ios/Classes/native_opencv.cpp:392-396 | the arbitrated suit is in 0..4 |
| Pipeline.SuitOfUnmatched | native_opencv/ios/Classes/native_opencv.cpp:382-396 | the suit is 0 exactly when no suit template beats 0.5 in either region |
| Pipeline.Detect | native_opencv/ios/Classes/native_opencv.cpp:372-427 | a detection has a four-coordinate box, a rank in 0..13 and a suit in 0..4 |
| Pipeline.Accepted | native_opencv/ios/Classes/native_opencv.cpp:362-371 | the contours kept are no more than the input, and each passes the filter |
| Pipeline.AcceptedAppend | native_opencv/ios/Classes/native_opencv.cpp:362-371 | filtering keeps contour order: the accepted contours of `a + b` are those of a, then those of b |
| Pipeline.AcceptedOfOne | native_opencv/ios/Classes/native_opencv.cpp:369-371 | a contour is kept exactly when `area > H*W/30`, `area < H*W/5` (integer quotients) and it has four coarse vertices |
| Pipeline.AcceptedStep | native_opencv/ios/Classes/native_opencv.cpp:362-371 | one more contour extends the accepted list by itself exactly when it passes the filter |
| Pipeline.Classify | native_opencv/ios/Classes/native_opencv.cpp:372-427 | the per-card classification is defined on every accepted contour whose corners the warp can use |
| Pipeline.Detections | native_opencv/ios/Classes/native_opencv.cpp:362-428 | one detection per accepted contour, each with a four-coordinate box and labels in range |
| Pipeline.DetectionsSpec | native_opencv/ios/Classes/native_opencv.cpp:362-428 | detection k classifies the k-th accepted contour |
| Pipeline.DetectionsAppend | native_opencv/ios/Classes/native_opencv.cpp:362-428 | detections keep contour order: those of `a + b` are those of a followed by those of b |
| Pipeline.WellFormedAppend | native_opencv/ios/Classes/native_opencv.cpp:362 | both the first part and the rest of a frame whose accepted contours are usable are again such frames |
| Pipeline.WellFormedPrefix | native_opencv/ios/Classes/native_opencv.cpp:362 | every prefix of a frame whose accepted contours are usable is again such a frame |
| Pipeline.DetectionsStep | native_opencv/ios/Classes/native_opencv.cpp:362-428 | one more contour appends its detection exactly when it passes the filter, and a rejected contour contributes nothing |
| Pipeline.FlattenBoxes | native_opencv/ios/Classes/native_opencv.cpp:436-446 | the flat array has `4 * n` entries, and `bboxes[4*i + j] == point_dets[i][j]` |
| Pipeline.MatchCard | native_opencv/ios/Classes/native_opencv.cpp:382-402 | matching both regions and arbitrating yields `RankOf` and `SuitOf` of the card |
| Pipeline.ClassifyCard | native_opencv/ios/Classes/native_opencv.cpp:372-427 | the loop body's box and labels are `Detect` of the contour |
| Pipeline.AcceptedUsable | native_opencv/ios/Classes/native_opencv.cpp:369-374 | a contour that passes the filter in a well-formed frame has corners the warp can use, so the loop may classify it |
| Pipeline.CollectAppend | native_opencv/ios/Classes/native_opencv.cpp:369-428 | pushing an accepted contour's box, rank and suit onto the three vectors keeps them equal to the detections of the contours read so far |
| Pipeline.CollectSkip | native_opencv/ios/Classes/native_opencv.cpp:369-371 | a contour the filter rejects leaves the detections of the contours read so far unchanged |
| Pipeline.CollectDetections | native_opencv/ios/Classes/native_opencv.cpp:359-429 | the three parallel vectors have one entry per detection, and entry k is detection k of the frame |
| Pipeline.ProcessImage | native_opencv/ios/Classes/native_opencv.cpp:359-449 | `len` is the number of detections; ranks and suits hold their labels; `bboxes[4*i + j]` is coordinate j of detection i |
| Prototype.PyCorners | workspace/five_cards_flattener_full_card.py:38-45 | all four corners break ties by first occurrence: tl at the first smallest x+y, tr at the first smallest y-x, br at the first largest x+y, bl at the first largest y-x |
| Prototype.PyIsHorizontal | workspace/five_cards_flattener_full_card.py:57 | `5w >= 6h` holds exactly when `w >= 1.2 * h` |
| Prototype.PyOrientationCases | workspace/five_cards_flattener_full_card.py:51-67 | for `h > 0`, exactly one of the vertical, horizontal and diamond tests holds |
| Prototype.PySourceRect | workspace/five_cards_flattener_full_card.py:51-87 | `w >= 1.2h` gives `(bl, tl, tr, br)`; `w <= 0.8h` with `h > 0` gives `(tl, tr, br, bl)`; the diamond case gives `(p1, p0, p3, p2)` or `(p0, p3, p2, p1)` by `p1.y <= p3.y` |
| Prototype.SourceRectsAgree | workspace/five_cards_flattener_full_card.py:51-87 | the script's and the native table agree unless `5w == 6h` |
| Prototype.SourceRectsDifferAtRatio | workspace/five_cards_flattener_full_card.py:57-61 | at `w == 1.2h` the native table gives four (0, 0) points, the script the horizontal order |
| Prototype.UniqueMaxArgs | workspace/five_cards_flattener_full_card.py:41 | without a tie for the largest key, `np.argmax` and the native last-largest rule coincide |
| Prototype.CornersAgreeWithoutMaxTies | workspace/five_cards_flattener_full_card.py:38-45 | the script's corners equal the native ones when the largest x+y and the largest y-x are each held once |
| Prototype.CornersDifferOnMaxTie | workspace/five_cards_flattener_full_card.py:40-41 | on (0,0), (1,1), (2,0), (0,2), the native bottom-right is (0,2) and the script's is (1,1) |
| Prototype.FlattenerMatchesNative | workspace/five_cards_flattener_full_card.py:38-87 | `flattener` and `transform_image` hand the warp the same quadrilateral unless `w == 1.2h` or a largest key is tied |
| Prototype.PySuitOutcome | workspace/five_cards_flattener_full_card.py:135-153 | what `match_suit` returns for its eight scores; stated by `Prototype.PySuitOutcomeSpec` |
| Prototype.PySuitOutcomeSpec | workspace/five_cards_flattener_full_card.py:135-153 | "Unknown" with 0 exactly when no score beats 0.5; otherwise the suit letter of the first best template (one of the four) and its score |
| Prototype.PyRankOutcome | workspace/five_cards_flattener_full_card.py:155-172 | what `match_rank` returns for its 26 scores; stated by `Prototype.PyRankOutcomeSpec` |
| Prototype.PyRankOutcomeSpec | workspace/five_cards_flattener_full_card.py:155-172 | "Unknown" with 0 exactly when no score beats 0.5; otherwise the rank `k / 2 + 1` of the first best template k and its score |
| Prototype.PyMatchSuit | workspace/five_cards_flattener_full_card.py:135-153 | the loop over the letters and styles returns `PySuitOutcome` |
| Prototype.PyMatchRank | workspace/five_cards_flattener_full_card.py:155-172 | the loop over ranks 1..13 and styles returns `PyRankOutcome` |
| Prototype.MarkCards | workspace/five_cards_flattener_full_card.py:208-256 | `cnt_is_card[i]` is 1 exactly when contour i passes the filter (`size > H*W//30`, `size < H*W//5`, four vertices), and the counter ends at 1 + the number of cards |
| Prototype.PySuitLabel | workspace/five_cards_flattener_full_card.py:239-242 | the arbitrated suit is "Unknown" exactly when neither corner had a suit score above 0.5 |
| Prototype.PyRankLabel | workspace/five_cards_flattener_full_card.py:244-247 | the arbitrated rank is "Unknown" exactly when neither corner had a rank score above 0.5 |
| Prototype.PyLabelCard | workspace/five_cards_flattener_full_card.py:229-247 | probes `[0:150, 0:70]` and the rotated `[149:299, 129:199]`; suit and rank are each arbitrated on their own scores, ties going to the second corner |
| YuvConvert.Clamp | native_opencv/ios/Classes/native_opencv.cpp:472-479 | an in-range value is kept; below `lower` gives the literal 0 and above `higher` the literal 255; `clamp(0, 255, v)` is a byte |
| YuvConvert.RotatedIndex | native_opencv/ios/Classes/native_opencv.cpp:481-483 | `getRotatedImageByteIndex`; where it sends a pixel is stated by `YuvConvert.RotatedIndexLayout`, `YuvConvert.RotatedIndexInRange`, `YuvConvert.RotatedIndexInjective` and `YuvConvert.RotatedIndexOnto` |
| YuvConvert.RotatedIndexLayout | native_opencv/ios/Classes/native_opencv.cpp:481-483 | source pixel (x, y) lands at row x, column `height - 1 - y` of the rotated image |
| YuvConvert.RotatedIndexInRange | native_opencv/ios/Classes/native_opencv.cpp:520 | over the loop domain, the rotated index is in `[0, width * height)` |
| YuvConvert.RotatedIndexInjective | native_opencv/ios/Classes/native_opencv.cpp:520 | two source pixels never share an output word |
| YuvConvert.RotatedIndexOnto | native_opencv/ios/Classes/native_opencv.cpp:503-520 | every output word is written by the source pixel `(p / height, height - 1 - p % height)` |
| YuvConvert.LumaIndex | native_opencv/ios/Classes/native_opencv.cpp:507 | the luma index `y * width + x`; that it lies inside the plane is `YuvConvert.LumaInRange` |
| YuvConvert.ChromaIndex | native_opencv/ios/Classes/native_opencv.cpp:506 | the chroma index `bytesPerPixel * (x / 2) + bytesPerRow * (y / 2)`, one sample per 2 x 2 block; its range is `YuvConvert.ChromaInRange` |
| YuvConvert.LumaInRange | native_opencv/ios/Classes/native_opencv.cpp:507-509 | the luma index `y * width + x` is inside the plane |
| YuvConvert.ChromaInRange | native_opencv/ios/Classes/native_opencv.cpp:506-511 | every chroma index of the loop is between 0 and that of the last pixel |
| YuvConvert.Red | native_opencv/ios/Classes/native_opencv.cpp:513 | the red channel is a byte |
| YuvConvert.Green | native_opencv/ios/Classes/native_opencv.cpp:514 | the green channel is a byte |
| YuvConvert.Blue | native_opencv/ios/Classes/native_opencv.cpp:515 | the blue channel is a byte |
| YuvConvert.NeutralChroma | native_opencv/ios/Classes/native_opencv.cpp:513-518 | with both chroma samples 128, red is the luma and green and blue are one below it (clamped at 0), from the rounding of the fixed-point constants |
| YuvConvert.ChannelsMonotoneInLuma | native_opencv/ios/Classes/native_opencv.cpp:513-518 | a brighter luma sample never lowers red, green or blue |
| YuvConvert.PackPixel | native_opencv/ios/Classes/native_opencv.cpp:520 | the word `(0xFF << 24) OR (b << 16) OR (g << 8) OR r` as the sum of its fields; that it fits 32 bits and decodes back to 0xFF, b, g, r is `YuvConvert.UnpackPixel` |
| YuvConvert.UnpackPixel | native_opencv/ios/Classes/native_opencv.cpp:520 | a packed word fits 32 bits, and its bytes from most to least significant are 0xFF, b, g, r |
| YuvConvert.Color | native_opencv/ios/Classes/native_opencv.cpp:513-520 | the word for a pixel fits 32 bits |
| YuvConvert.PixelAt | native_opencv/ios/Classes/native_opencv.cpp:506-520 | the word computed for source pixel (x, y), from its luma and chroma samples; where it lands is `YuvConvert.RotatedWords` |
| YuvConvert.WordAt | native_opencv/ios/Classes/native_opencv.cpp:520 | the word expected at output position p: that of the single source pixel which `YuvConvert.RotatedIndexOnto` shows writes p |
| YuvConvert.ConvertPixelAt | native_opencv/ios/Classes/native_opencv.cpp:506-520 | for pixel (x, y) the write index is `x * height + height - 1 - y`, and the word is what the output expects there |
| YuvConvert.ConvertColumn | native_opencv/ios/Classes/native_opencv.cpp:504-521 | the inner loop fills rotated row x with the expected words and changes no other word |
| YuvConvert.RotatedWords | native_opencv/ios/Classes/native_opencv.cpp:503-522 | an image holding `WordAt` everywhere holds each source pixel's converted word at its rotated index |
| YuvConvert.ConvertYuv420ToRgb | native_opencv/ios/Classes/native_opencv.cpp:486-524 | a fresh `width * height` buffer in which every word is written, and each source pixel's converted word sits at its rotated index |

## Left out

- OpenCV and imutils computation is not modelled. This covers `cvtColor`, `blur`, `threshold`/Otsu, `findContours`, `approxPolyDP`, `arcLength`, `contourArea`, `boundingRect`, `getPerspectiveTransform`, `warpPerspective`, `matchTemplate` and `minMaxLoc`. Their results (area, vertex lists, box, warp, per-template score) are inputs or function parameters.
- Floating point is not modelled. Scores, areas and the normalised box are exact `real`s. The 0.8 and 1.2 products are decided exactly by integer cross-multiplication.
- `std::sort` by contour area is left out; the contour list arrives already sorted. The script's `index_sort` / `cnts_sort` / `hier_sort` reordering loop (py:198-206) is left out for the same reason, as is its `scandir` loop over input files (py:180).
- `imutils.rotate(..., 180)` is an interpolating rotation, not an exact flip. `Prototype.PyLabelCard` takes it as a parameter, and the script's flattened card arrives already rotated. Nothing is proved about the script's bottom region beyond the window it crops.
- The script's card center (a float mean of the corners) is left out, along with the `Query_card` fields it sets.
- The `Results` ABI and memory handling are left out: `mat_to_bytes`, `free_mat`, `free_struct`, and `ranks`/`suits` pointing into local vectors. When `len == 0` the model returns empty sequences where the source leaves the fields uninitialised.
- The template-bank construction loops (`rank_image_mats`, `suit_image_mats`, cpp:315-330) are left out; the banks are represented by template indices.
- Logging, the clock and the library version (`platform_log`, `get_now`, `version`) are left out, as is the script's file and drawing I/O (`scandir`, `imread`, `imwrite`, `drawContours`, `putText`, timing).
- The 32-bit `int` product `image_height * image_width` is unbounded here, so realistic image sizes are assumed. The word `(0xFF << 24) | (b << 16) | (g << 8) | r` is the integer sum of its non-overlapping fields, which equals the `uint32_t` result.
- `malloc` is modelled as a fresh `array<int>`.
- Prototype.PyCorners, Prototype.PySourceRect: these require a non-empty point list, and four points when the box is near-square. The script would raise on other inputs: `np.argmin` raises `ValueError` on an empty array (py:40), and `pts[3]` raises `IndexError` when the 1% approximation has fewer than four points (py:70-86). That exception path is not modelled.
- Pipeline.ProcessImage, Pipeline.PreprocessImage: these require every accepted contour's 1% approximation to be non-empty, and to have four points when the box is near-square. The source reads `points[0..3]` unchecked there; on other inputs it has undefined behaviour.
- CornerOrder.CppCorners: its own contract states only the length. The tie-break characterisation of each corner is `CornerOrder.CppCornersSpec`.
- Orientation.SourceRect: its own contract states only the length. The decision table is `Orientation.SourceRectCases`.
- Pipeline.NormalizedBox: its own contract states only the length. The coordinates are stated by `Pipeline.NormalizedBoxScales`.
- Pipeline.RankOf, Pipeline.SuitOf: their own contracts state only the label range. When the label is 0 is stated by `Pipeline.RankOfUnmatched` and `Pipeline.SuitOfUnmatched`, and the arbitration by `TemplateMatch.Arbitrate`.
- Pipeline.Classify: its contract states only that the function is defined on classifiable contours, not the converse. Its value is stated by `Pipeline.DetectionsSpec`.
- Prototype.PyMatchSuit: the suit is the position of its letter in `"cdhs"` (`SuitAt(i)`) rather than the one-letter string itself.
- Prototype.PySourceRect: width and height are `nat`, as a bounding box gives them.
