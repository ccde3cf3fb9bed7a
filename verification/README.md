# bb_utils tag codec and calibration-point canonicalisation, in Dafny

This project models two discrete parts of the BeesBook `bb_utils` package.

**The `BeesbookID` codec** (`bb_utils/ids.py`). A bee tag carries a 12-bit code. The codec
converts between four readings of it:

- bin_12 / bb_binary: the bits read clockwise from 12 o'clock;
- bin_9: the same ring read from 9 o'clock;
- dec_12: the bin_12 bits as an unsigned number;
- ferwar / dec_9: eleven data bits plus a parity bit, where an odd total parity adds 2048.

Bits are `seq<int>` holding 0/1 values. `np.roll` is an explicit `Roll` whose index arithmetic is
Python's floor modulo, and binary folding is Horner's rule. The properties proved are the round
trips between the readings, their ranges, the parity layout, and agreement between the scalar and
batch ferwar converters.

**Calibration-point canonicalisation** (`bb_utils/fiducial.py`):

- `arg_clockwise_order`: the sum/difference corner-ordering heuristic, with numpy's
  first-occurrence tie-break;
- the discrete part of `match_homography_points`: the length check, the year lookup, side
  selection by majority polarity, locating the special marker, the cyclic roll, and the scaled
  target quadrilateral;
- the region arithmetic of `locate_markers_in_corners`;
- the ranking tail of `locate_markers`: sort `(score, x, y)` descending, keep the first
  `n_markers`, report in original-image pixels.

Coordinates are `real`. Per-region marker search and polarity classification are function
parameters. The model stops at the pair (reordered image points, scaled target points) that the
homography solver would receive.

Modules:

- `Results`: error, result and option types;
- `Sequences`: `Roll`, `Sum` and modular facts;
- `Binary`: bit strings and their values;
- `Ids` and `IdsProperties`: the codec;
- `Extrema`: first-occurrence argmin and argmax;
- `Fiducial` and `FiducialProperties`: ordering and canonicalisation;
- `Corners`: the corner regions;
- `Ranking` and `RankingProperties`: the peak ranking.

On one point the code and its own comment disagree, and the model follows the code. The comment
at `bb_utils/fiducial.py:257` says the special marker is moved to the third position. The roll by
`4 + k - 2` moves it from clockwise index `k` to index `(2k + 2) mod 4` (see Findings).

## Model

| member | source | states |
|---|---|---|
| Sequences.Roll | bb_utils/ids.py:32 | `np.roll` keeps the length and the elements: the result is a permutation of the input |
| Sequences.RollMoves | bb_utils/ids.py:32 | `np.roll` semantics: element `i` of the input lands at index `(i + shift) mod n` of the result |
| Sequences.RollCancel | bb_utils/ids.py:32 | rolling by `s` and then by `-s` restores the sequence, which is why the bin_9 conversions invert each other |
| Sequences.RollSplit | bb_utils/ids.py:149 | a roll is the last `shift mod n` elements followed by the rest |
| Sequences.RollSum | bb_utils/ids.py:214 | rolling does not change the sum, so the parity of the rolled rows is the parity of the tag |
| Sequences.SumConcat | bb_utils/ids.py:94-98 | `np.sum` of a concatenation is the sum of the parts, which gives the parity of the data bits followed by the written parity bit |
| Sequences.SumOfBits | bb_utils/ids.py:169 | over 0/1 values `np.sum` counts the ones, so it lies between 0 and the length |
| Binary.BitsOf | bb_utils/ids.py:17-18 | the `k` bits `2**i & n` are 0/1 values that read back MSB-first as `n mod 2^k`, negative `n` included (two's complement) |
| Binary.BitsOfParse | bb_utils/ids.py:17-18 | taking the bits of the value of a 0/1 string restores the string |
| Binary.ParseBinary | bb_utils/ids.py:164 | `int(bits, 2)` of `k` 0/1 digits lies in `[0, 2^k)` |
| Binary.WeightedSum | bb_utils/ids.py:137 | `sum(2**(k-1-i) * b[i])` of `k` 0/1 digits lies in `[0, 2^k)` |
| Binary.WeightedSumIsParse | bb_utils/ids.py:137 | the weighted sum `sum(2**(11-i) * b[i])` agrees with reading the digits as a binary string |
| Ids.DecToBin | bb_utils/ids.py:15-18 | `_dec_to_bin` succeeds exactly when `n < 4096`, and then gives twelve 0/1 values whose MSB-first value is `n mod 4096` |
| Ids.FromBin12 | bb_utils/ids.py:50 | `from_bin_12` stores the given bits unchanged |
| Ids.FromBbBinary | bb_utils/ids.py:103-116 | `from_bb_binary` stores the given bits unchanged and builds the same tag as `from_bin_12` |
| Ids.AsBbBinary | bb_utils/ids.py:187 | `as_bb_binary` returns bits that `from_bb_binary` turns back into the same tag |
| Ids.FromBin9 | bb_utils/ids.py:32 | the 12 o'clock reading is the 9 o'clock reading from its fourth bit on, followed by its first three bits |
| Ids.AsBin9 | bb_utils/ids.py:149 | the 9 o'clock reading is the last three bin_12 bits followed by the first nine, and `from_bin_9` undoes it |
| Ids.AsDec12 | bb_utils/ids.py:137 | `as_dec_12` lies in `[0, 4096)` and is the MSB-first value of the bits |
| Ids.FromDec12 | bb_utils/ids.py:75 | `from_dec_12` succeeds exactly when `n < 4096`, and the tag's bits have value `n mod 4096` |
| Ids.ParityBit | bb_utils/ids.py:94-98 | the written bit is 0/1, and it makes the total parity odd exactly when inverse parity is required |
| Ids.FromFerwar | bb_utils/ids.py:90-100 | `from_ferwar` fails exactly when `n >= 6144`, the only input for which `n - 2048` trips the assertion of `_dec_to_bin` |
| Ids.FromDec9 | bb_utils/ids.py:65 | `from_dec_9` is `from_ferwar` |
| Ids.AsFerwar | bb_utils/ids.py:163-172 | `as_ferwar` lies in `[0, 4096)` and is 2048 or more exactly when the parity of all twelve bits is odd |
| Ids.AsDec9 | bb_utils/ids.py:129 | `as_dec_9` is `as_ferwar` |
| Ids.ParitySplit | bb_utils/ids.py:169 | the last bin_9 bit disagrees with the parity of the first eleven exactly when the whole tag has odd parity |
| Ids.BatchRowToFerwar | bb_utils/ids.py:206-214 | the batch formula for one row (roll by 3, value of the first eleven bits, +2048 on odd total parity) equals `as_ferwar` of that row |
| Ids.BatchBbBinaryToFerwar | bb_utils/ids.py:204-216 | the batch converter returns one value per row, each equal to `as_ferwar` of that row's tag |
| IdsProperties.Dec12RoundTrip | bb_utils/ids.py:75 | `as_dec_12(from_dec_12(n)) == n` for `0 <= n < 4096` |
| IdsProperties.Dec12Inverse | bb_utils/ids.py:75 | `from_dec_12(as_dec_12(id))` is the same tag |
| IdsProperties.Bin9RoundTrip | bb_utils/ids.py:32 | `as_bin_9(from_bin_9(b)) == b` |
| IdsProperties.Bin9Inverse | bb_utils/ids.py:149 | `from_bin_9(as_bin_9(id))` is the same tag |
| IdsProperties.AsBin9Injective | bb_utils/ids.py:149 | two tags with the same bin_9 reading are the same tag |
| IdsProperties.RolledLowBits | bb_utils/ids.py:92-93 | rolling the twelve bits of `m` back by one and dropping the last leaves the eleven low bits of `m` |
| IdsProperties.FromFerwarBin9 | bb_utils/ids.py:90-100 | for `n < 6144` the bin_9 reading of `from_ferwar(n)` is the eleven low bits of `n` (less 2048 when inverted) followed by the parity bit |
| IdsProperties.FromFerwarParity | bb_utils/ids.py:94-98 | the tag `from_ferwar` builds has odd parity exactly when the parity bit was inverted |
| IdsProperties.FerwarLayout | bb_utils/ids.py:90-98 | for `0 <= n < 4096` the first eleven bin_9 bits are the binary of `n mod 2048`, and the total parity is even exactly when `n < 2048` |
| IdsProperties.AsFerwarOfLayout | bb_utils/ids.py:163-172 | a tag laid out as eleven bits of `m` plus a parity bit reads back as `m`, plus 2048 when the parity was inverted |
| IdsProperties.FerwarRoundTrip | bb_utils/ids.py:90-100 | `as_ferwar(from_ferwar(n)) == n` for every `0 <= n < 4096` |
| IdsProperties.FerwarInverse | bb_utils/ids.py:163-172 | `from_ferwar(as_ferwar(id))` is the same tag, so ferwar numbers name tags one to one |
| IdsProperties.FerwarAboveRange | bb_utils/ids.py:90-92 | for `4096 <= n < 6144` `from_ferwar` does not fail but names the same tag as `n - 2048` |
| Extrema.ArgMin | bb_utils/fiducial.py:218-219 | `np.argmin`: an index holding the least value, with no earlier index holding it |
| Extrema.ArgMax | bb_utils/fiducial.py:220-221 | `np.argmax`: an index holding the greatest value, with no earlier index holding it |
| Extrema.FirstMinUnique | bb_utils/fiducial.py:218-219 | the first-occurrence rule determines the argmin index uniquely |
| Extrema.FirstMaxUnique | bb_utils/fiducial.py:220-221 | the first-occurrence rule determines the argmax index uniquely |
| Fiducial.Locations | bb_utils/fiducial.py:247 | `xy`: one point per marker, its `x` and `y` |
| Fiducial.Polarities | bb_utils/fiducial.py:249 | `types`: one entry per marker, its polarity |
| Fiducial.CountTrue | bb_utils/fiducial.py:251 | `np.sum(types)` is how often `true` occurs, and with the `false` count it makes up the length |
| Fiducial.ClockwisePolarities | bb_utils/fiducial.py:255 | `types[order]`: entry `i` is the polarity of the marker the clockwise order names `i`-th |
| Fiducial.ClockwiseLocations | bb_utils/fiducial.py:259 | `xy[order, :]`: row `i` is the location of the marker the clockwise order names `i`-th |
| FiducialProperties.ClockwiseKeepsPairs | bb_utils/fiducial.py:255-259 | reordering `xy` and `types` by the same order keeps each location with its marker's polarity; when the order visits every index, every marker appears |
| Fiducial.Scaled | bb_utils/fiducial.py:262 | multiplying the quadrilateral by `scale` keeps its four points, and a scale of 1 leaves it unchanged |
| Fiducial.ImageSide | bb_utils/fiducial.py:251 | side 0 exactly when more than two markers are bright; for four markers, exactly when the bright ones outnumber the dark ones |
| Fiducial.SpecialPolarity | bb_utils/fiducial.py:252 | the special polarity is bright exactly when at most two markers are bright, and of four markers it is never held by more than the other polarity |
| Fiducial.SpecialIndex | bb_utils/fiducial.py:255-256 | the first clockwise position holding the special polarity, or none exactly when no marker in the clockwise order has it |
| Fiducial.Shift | bb_utils/fiducial.py:257-258 | rolling by `4 + k - 2` moves clockwise position `k` to `(2k + 2) mod 4`; the intended shift moves it to 2 |
| Fiducial.Sums | bb_utils/fiducial.py:216 | definition of `pts.sum(axis = 1)`; its contract gives one entry per point, and `SumsDiffsAt` gives the entries |
| Fiducial.Diffs | bb_utils/fiducial.py:217 | definition of `np.diff(pts, axis = 1)`; its contract gives one entry per point, and `SumsDiffsAt` gives the entries |
| FiducialProperties.SumsDiffsAt | bb_utils/fiducial.py:216-217 | entry `i` of the sums is `x + y` of point `i`, and of the differences `y - x` |
| FiducialProperties.SumsDiffsDetermine | bb_utils/fiducial.py:216-217 | the sums and differences together determine the points: two point lists agreeing on both are equal |
| Fiducial.ArgClockwiseOrder | bb_utils/fiducial.py:213-221 | four indices: first argmin of `x + y`, first argmin of `y - x`, first argmax of `x + y`, first argmax of `y - x` |
| Fiducial.FirstIndexOf | bb_utils/fiducial.py:256 | `np.argwhere(s == v)[0][0]`: the first position holding `v`, or failure when there is none |
| Fiducial.Canonicalize | bb_utils/fiducial.py:232-262 | a length other than 4 is rejected first, then any year but 2018; for 2018 the result exists exactly when a marker of the special polarity is found |
| Fiducial.MatchHomographyPoints | bb_utils/fiducial.py:223-262 | the same error cases, and the target is the quadrilateral of the chosen side scaled by `scale`; `scale` defaults to 10 and `year` to 2018 |
| Fiducial.MatchHomographyPointsCorrected | bb_utils/fiducial.py:257-260 | the same error cases, with the roll that the comment at line 257 describes |
| FiducialProperties.ClockwiseOrderOfRectangle | bb_utils/fiducial.py:213-221 | for a rectangle given in any order the result visits top-left, top-right, bottom-right, bottom-left and every index |
| FiducialProperties.TopLeftFirst | bb_utils/fiducial.py:218 | of a rectangle's corners, the top-left alone minimises `x + y` |
| FiducialProperties.TopRightSecond | bb_utils/fiducial.py:219 | the top-right corner alone minimises `y - x` |
| FiducialProperties.BottomRightThird | bb_utils/fiducial.py:220 | the bottom-right corner alone maximises `x + y` |
| FiducialProperties.BottomLeftFourth | bb_utils/fiducial.py:221 | the bottom-left corner alone maximises `y - x` |
| FiducialProperties.CountTrueOfFour | bb_utils/fiducial.py:251 | `np.sum(types)` over four markers counts the bright ones |
| FiducialProperties.TargetIsScaledQuad | bb_utils/fiducial.py:242-262 | the four target points are side 0's 2018 quadrilateral when three or more markers are bright, else side 1's, multiplied by `scale` |
| FiducialProperties.CanonicalTarget | bb_utils/fiducial.py:251-262 | once a special marker is found, the call succeeds and its target is the chosen side's quadrilateral multiplied by `scale` |
| FiducialProperties.ScaledAt | bb_utils/fiducial.py:262 | point `i` of the scaled quadrilateral is point `i` with both coordinates multiplied by `scale` |
| FiducialProperties.ScaledTwice | bb_utils/fiducial.py:262 | scaling by `a` and then by `b` is scaling by `a * b` |
| FiducialProperties.CanonicalSource | bb_utils/fiducial.py:258-260 | once the special marker is at clockwise position `k`, the image points are the clockwise points rolled by the shift for `k` |
| FiducialProperties.SourceIsRotation | bb_utils/fiducial.py:258-260 | the final image points are a cyclic rotation of the clockwise points: index `j` holds clockwise point `(j - shift) mod 4`, for the shift of the special marker's position |
| FiducialProperties.SlotArithmetic | bb_utils/fiducial.py:258 | rolling by `4 + k - 2` takes index `k` to `(2k + 2) mod 4`, which is 2 only for `k` in {0, 2}; rolling by `2 - k` takes it to 2 |
| FiducialProperties.SpecialMarkerSlotAsWritten | bb_utils/fiducial.py:256-260 | as written, the special marker found at clockwise position `k` ends at index `j = (2k + 2) mod 4`, and `j` is 2 exactly when `k` is 0 or 2 |
| FiducialProperties.SpecialMarkerSlotCorrected | bb_utils/fiducial.py:257 | with the intended roll the special marker always ends at index 2 |
| FiducialProperties.UniformPolarityRejected | bb_utils/fiducial.py:249-256 | four markers of one polarity (a 4-0 split) have no special marker, and the lookup fails |
| FiducialProperties.ThreeOneSplit | bb_utils/fiducial.py:249-256 | in a 3-1 split the majority picks the side and the odd marker's polarity is the special one; when the clockwise order visits all four points, the lookup finds that marker |
| FiducialProperties.TwoTwoSplit | bb_utils/fiducial.py:249-256 | in a 2-2 split side 1 is chosen and the special polarity is bright; when the clockwise order visits all four points, the call succeeds and the special marker is the first bright one clockwise |
| FiducialProperties.DiamondOrder | bb_utils/fiducial.py:213-221 | for a square turned by 45 degrees, `(0,-1), (1,0), (0,1), (-1,0)`, the ties in `x + y` and `y - x` go to the first index, so the order is `[0, 0, 1, 2]` and point 3 is never visited |
| FiducialProperties.DiamondRejected | bb_utils/fiducial.py:249-256 | with the unvisited point 3 as the one dark marker, the 3-1 split is rejected for lack of a special marker |
| FiducialProperties.UprightSquareClockwise | bb_utils/fiducial.py:254-259 | for an upright square listed clockwise, the clockwise order is the input order |
| FiducialProperties.UprightSquareSpecial | bb_utils/fiducial.py:251-256 | with three bright markers and the dark one top-right, side 0 is chosen and the special marker is at clockwise position 1 |
| FiducialProperties.MisplacedSpecialMarkerExample | bb_utils/fiducial.py:257-260 | in that square the roll as written puts the dark marker first and the bottom-left marker third |
| FiducialProperties.CorrectedSpecialMarkerExample | bb_utils/fiducial.py:257 | with the intended roll the dark marker is third |
| Corners.Trunc | bb_utils/fiducial.py:200-201 | `int(v)` truncates toward zero |
| Corners.Share | bb_utils/fiducial.py:200-201 | the region side `int(n * ratio)` lies in `[0, n]` and does not exceed `n * ratio` when `0 < ratio <= 1` |
| Corners.CornerRegions | bb_utils/fiducial.py:199-205 | four regions, each `int(w * ratio)` by `int(h * ratio)`, touching the top-left, top-right, bottom-left and bottom-right corners in that order |
| Corners.Offset | bb_utils/fiducial.py:207-210 | a detection moves by the region's anchor, keeping its polarity and score |
| Corners.FirstDetections | bb_utils/fiducial.py:203-211 | the loop succeeds exactly when every region yields a detection, and result `i` is region `i`'s first detection shifted by its anchor |
| Corners.LocateMarkersInCorners | bb_utils/fiducial.py:181-211 | exactly four results, one per corner region in order, or an error exactly when some region yields none; `corner_ratio` defaults to 0.25 |
| Corners.RegionsInsideImage | bb_utils/fiducial.py:199-205 | for `0 < ratio <= 1` every region lies inside the image and is no larger than a `ratio` share of each side |
| Ranking.Candidates | bb_utils/fiducial.py:171 | one candidate per peak, at the peak's pixel, whose score times the number of hypotheses is the peak's response |
| Ranking.SortDescending | bb_utils/fiducial.py:172 | `sorted(..., reverse=True)`: a descending permutation of the input |
| RankingProperties.BelowStrictTotal | bb_utils/fiducial.py:172 | Python's `<` on `(score, x, y)` tuples is irreflexive, asymmetric and transitive, and orders any two distinct candidates |
| RankingProperties.SliceKeepsPrefix | bb_utils/fiducial.py:175 | `s[:n]` keeps a prefix: everything when `n` is at least the length, nothing when `n` is at most minus the length |
| Ranking.SliceLength | bb_utils/fiducial.py:175 | index `i` of a list is below the length exactly when Python's `s[:n]` keeps it: `i < n` for `n >= 0`, `i < len + n` for negative `n` |
| Ranking.TopCandidates | bb_utils/fiducial.py:171-175 | the kept candidates are in descending order, and there are as many as the slice keeps |
| Ranking.Report | bb_utils/fiducial.py:176-178 | the reported position times `rescale` is the peak's pixel, with the window's polarity and the candidate's score |
| Ranking.RankPeaks | bb_utils/fiducial.py:171-178 | results come in non-increasing score order, result `i` reports the `i`-th ranked candidate, and there are as many as the slice keeps |
| RankingProperties.DescendingUnique | bb_utils/fiducial.py:172 | a multiset of candidates has only one descending arrangement, so the ranking does not depend on the sorting algorithm |
| RankingProperties.TopCandidatesAreBest | bb_utils/fiducial.py:172-175 | kept and dropped candidates together are all the peaks, and no dropped candidate ranks above a kept one |
| RankingProperties.AllPeaksKept | bb_utils/fiducial.py:175 | with `n_markers` at least the number of peaks, every peak is reported |
| RankingProperties.TopCandidatesOfAnySort | bb_utils/fiducial.py:172-175 | any descending arrangement of the candidates, cut by the same slice, gives the same markers |

## Left out

- Image preprocessing and template matching in `locate_markers` (`bb_utils/fiducial.py:114-170`): the rescaling, histogram equalisation, convolutions and `peak_local_max` are floating-point image numerics over library calls. The peaks are an input of `Ranking.RankPeaks`.
- The 4×4 polarity window of `locate_markers` (`bb_utils/fiducial.py:176-177`): a parameter `polarity(x, y)` stands in for it, because it sums image pixels using numpy's negative-slice semantics.
- `cv2.findHomography` (`bb_utils/fiducial.py:264`): a foreign numeric solver. The model stops at the point pairs handed to it.
- `rgb2hsv` in `locate_markers_in_corners` (`bb_utils/fiducial.py:195-197`): the image is taken as single-channel and only its height and width are used.
- The marker search inside each corner region is a function parameter returning a possibly empty list of region-relative detections. It stands for `locate_markers(..., n_markers=1)`.
- Corners.RegionsInsideImage: for a `corner_ratio` outside `(0, 1]` numpy clamps or empties the sub-image slices. Only the in-range case is proved.
- Float-to-int rounding in the `BeesbookID` constructor (`bb_utils/ids.py:8-10`): inputs are taken to be twelve 0/1 integers (the `Bits12` type), as is the rounding at `bb_utils/ids.py:204`.
- Ranking.RankPeaks: requires a nonzero `rescale`. A zero `rescale` would already have broken the image rescaling that produces the peaks.
- Fiducial.ArgClockwiseOrder: requires a non-empty point list, because `np.argmin` of an empty array raises and no caller passes one.
- Aliasing of `as_bb_binary` (`bb_utils/ids.py:187`): it returns the tag's own numpy array, so a caller that mutates the result changes the tag. Tags are immutable values here, so this sharing cannot be expressed.
- The assertion in `_dec_to_bin` is modelled as an error result. Running Python with `-O`, which removes assertions, is not modelled.
- Float arithmetic: coordinates, scores and ratios are exact reals, so float rounding in `x / rescale`, `convs / 9` and `w * corner_ratio` is not modelled.
- Marker rendering, plotting and template loading (`bb_utils/fiducial.py:4-95`, `267-288`), `TagArtist` (`bb_utils/visualization.py`), and `__repr__` / `_repr_png_` (`bb_utils/ids.py:218-225`): drawing and package-resource I/O.
- `bb_utils/meta.py`, `bb_utils/scripts/gt_to_hdf5.py` and `setup.py`: data-file loading, command-line glue and packaging are not part of this model.

## Findings

| source | as written | input that shows it | evidently intended | confidence | as-written member | corrected member |
|---|---|---|---|---|---|---|
| bb_utils/fiducial.py:257-260 | `shift = 4 + high_id_idx - 2` and `np.roll(xy, shift)` move the special marker from clockwise index `k` to `(2k + 2) mod 4`, which is index 2 only for `k` in {0, 2} | an upright square with bright markers at top-left, bottom-right and bottom-left and a dark one at top-right: `k = 1`, and the dark marker lands at index 0 | the special marker moves to the third position (index 2), as the comment at line 257 says, e.g. with `shift = 2 - high_id_idx` | medium, not executed | FiducialProperties.SpecialMarkerSlotAsWritten, FiducialProperties.MisplacedSpecialMarkerExample | Fiducial.MatchHomographyPointsCorrected, FiducialProperties.SpecialMarkerSlotCorrected, FiducialProperties.CorrectedSpecialMarkerExample |

Both readings are modelled. `Fiducial.MatchHomographyPoints` is the code as written, and
`Fiducial.MatchHomographyPointsCorrected` applies the roll the comment describes. The two differ
only in that roll. Whether the 2018 quadrilaterals were measured to match the as-written
placement cannot be decided from the code, so confidence is medium.
