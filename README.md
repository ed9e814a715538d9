# Sigil reader: canonical layout, rotation maps and bit decoding

This project models the geometric and bit-decoding half of a reader for
triangular "sigil" markers. A sigil is an equilateral triangle cut into 16
small triangular cells, four rows of 1, 3, 5 and 7 cells. Each cell carries one
bit as a dark or light patch. The model covers three pieces of `script.js`:

- `generateCentroids` lays out the 16 cell centroids of the canonical triangle.
  WARP_SIZE is 200 and WARP_H is 173, so every coordinate is rational and is
  modelled exactly with `real`.
- `generateRotationMaps` and `getMap` build one map per rotation: 0, 120 and 240
  degrees. The 0-degree map is the identity. Each of the other two turns every
  centroid about the triangle's centroid and picks the nearest centroid by
  linear search.
- `decodeSigil` runs four steps:
  1. it orders the three detected vertices (sort by y, then swap the lower two by x);
  2. it samples the warped image at the 16 centroids, giving 0 off the image;
  3. it thresholds the samples at the ninth smallest one, `sorted[8]`;
  4. it searches the three rotations for the first whose corner cells 0, 9 and 15 hold exactly two dark bits, and remaps the bits through its map.

The module layout follows the program:

- `Layout` holds the centroid table.
- `Rotation` holds the nearest search and the turn maps.
- `Threshold` holds the median threshold.
- `Orientation` holds the rotation search.
- `Decoder` holds sampling, vertex ordering and the class `SigilReader`.
  `SigilReader` owns the two global tables of the script, `centroids` and `rotationMaps`, as fields. Its methods build and use them.

The steps of the script that change things step by step are methods with loops. Each is proved against a specification function:

| method | specification function |
|---|---|
| `GenerateCentroids` | `CanonicalLayout` |
| `GetMap` | `IsRotationMap` |
| `NearestCentroid` | `IsNearest` |
| `SampleCentroids` | `SamplesOf` |
| `Binarize` | `BitsOf` |
| `FindOrientation` | `SearchFrom` |
| `OrderVertices` (in place on an array) | `VertexOrder` |

Trigonometry is not computed. The turn by 120 degrees is taken as cosine -1/2
and sine `s`, and the turn by 240 degrees as cosine -1/2 and sine `-s`, where
`s > 0` and `s * s == 3/4`. This is enough to prove:

- on the canonical layout the two turn maps are exactly `Map120` and `Map240`;
- in particular, the 120-degree map sends the top cell 0 to cell 15.

The marker format fixes the corner cells: cells 0 and 9 are the anchors and are dark, and cell 15 is the sync cell and is light. The script's own comment at script.js:335 says that two of the three corners are always black. The code's anchor test is "cells 0, 9 and 15 sum to 2". The model runs the search as the code writes it, and the findings below show what that does.

## Model

| member | source | states |
|---|---|---|
| Layout.CellX | script.js:144-146 | x of cell k of row r: WARP_XC + (k − r)·(w_tri/2) with w_tri = WARP_SIZE/4 |
| Layout.CellY | script.js:104-110 | y of cell k of row r: y_top + dy·2/3 for an up cell (even k), y_top + dy·1/3 for a down cell |
| Layout.CanonicalLayout | script.js:34-152 | the table generateCentroids builds: rows 0 to 3, each cell pushed left to right with the running index |
| Layout.WarpHIsFloorOfHeight | script.js:23 | WARP_H = 173 is the integer part of 200·√3/2: 4·173² ≤ 3·200² < 4·174² |
| Layout.RowsUpToLength | script.js:47-49 | rows 0 .. n-1 hold n·n entries in all |
| Layout.RowsUpToAt | script.js:95-149 | cell k of row r is entry r·r + k of the table, with that index |
| Layout.IndexDecomposition | script.js:148-149 | every index below 16 is r·r + k for a row r < 4 and a position k ≤ 2r |
| Layout.LayoutShape | script.js:44-49 | the table has 16 entries; row r adds 2r+1 of them; entry i has index field i and is the centroid of cell PosOf(i) of row RowOf(i) |
| Layout.LayoutAt | script.js:95-149 | entry i of the table is cell PosOf(i) of row RowOf(i), with index i |
| Layout.CellPosition | script.js:104-110 | entry r·r+k has x = WARP_XC + (k−r)·WARP_SIZE/8, y = (r + 2/3)·dy for even k and (r + 1/3)·dy for odd k, inside the row's band |
| Layout.CellMirror | script.js:104-146 | cells k and 2r−k of row r have equal y and x offsets from WARP_XC of opposite sign |
| Layout.CellInBand | script.js:54-55 | each centroid lies strictly between the top r·dy and the bottom (r+1)·dy of its row |
| Layout.CellsDistinct | script.js:104-146 | two different cells never share a centroid |
| Layout.CentroidsDistinct | script.js:104-148 | no two entries of the table share a centroid |
| Layout.CellInsideTriangle | script.js:25-29 | every cell's centroid lies strictly inside the triangle TRI_PTS |
| Layout.CentroidsInsideTriangle | script.js:25-29 | every entry of the table lies strictly inside the triangle TRI_PTS |
| Layout.LayoutIsTable | script.js:44-150 | the table generateCentroids builds, written out entry by entry |
| Rotation.Center | script.js:164-165 | the point turned about: (WARP_XC, WARP_H·2/3) |
| Rotation.Rotate | script.js:172-177 | centroid turned about a point: dx·cos − dy·sin and dx·sin + dy·cos, shifted back |
| Rotation.Dist2 | script.js:184 | squared distance of a centroid from the turned point |
| Rotation.IsNearest | script.js:180-190 | the specification of the argmin search: an index in 0..15 at least squared distance, every earlier index strictly farther |
| Rotation.IsRotationMap | script.js:167-193 | the specification of getMap: 16 entries, entry i nearest to centroid i turned |
| Rotation.IdentityMap | script.js:159 | rotationMaps[0]: the 16 indices 0..15 in order |
| Rotation.Turn120 | script.js:195 | the turn by 2π/3: cosine −1/2, sine s |
| Rotation.Turn240 | script.js:196 | the turn by 4π/3: cosine −1/2, sine −s |
| Rotation.ZeroTurnFixes | script.js:172-177 | the zero turn leaves every centroid where it is |
| Rotation.NearestIsUnique | script.js:180-190 | at most one index is the lowest index of a nearest centroid |
| Rotation.StrictlyNearest | script.js:180-190 | an index strictly nearer than all others is the lowest nearest index, and the only one |
| Rotation.NearestCentroid | script.js:180-189 | the search returns an index in 0..15 at least squared distance, and every earlier index is strictly farther (ties go to the lowest index) |
| Rotation.RotationMapInRange | script.js:180-190 | every entry of a map built by nearest search is a cell index 0..15 |
| Rotation.GetMap | script.js:167-193 | entry i of the map is the lowest index of a centroid nearest to centroid i turned about (WARP_XC, WARP_H·2/3) |
| Rotation.IdentityIsZeroTurnMap | script.js:159 | the identity table is what the nearest search yields for the zero turn on the canonical layout |
| Rotation.Sin120Bounds | script.js:195 | the sine of 120 degrees lies between 0.866 and 0.8661 |
| Rotation.StrictMapIsOnlyMap | script.js:180-190 | a map whose every entry is strictly nearest is the only map the search can yield |
| Rotation.Map120 | script.js:195 | what `rotationMaps[1]` holds on the canonical layout: 0→15, 1→8, 2→14, 3→13, …, 15→9 |
| Rotation.Map240 | script.js:196 | what `rotationMaps[2]` holds on the canonical layout: 0→9, 1→11, 2→10, 3→4, …, 15→0 |
| Rotation.Map120OfLayout | script.js:195 | on the canonical layout the 120-degree map is exactly Map120 and nothing else |
| Rotation.Map240OfLayout | script.js:196 | on the canonical layout the 240-degree map is exactly Map240 and nothing else |
| Orientation.Map240UndoesMap120 | script.js:195-196 | the 240-degree map undoes the 120-degree map, cell by cell |
| Orientation.Map120UndoesMap240 | script.js:195-196 | the 120-degree map undoes the 240-degree map, cell by cell |
| Orientation.TurnMapsArePermutations | script.js:159-196 | the identity and both turn maps name every cell exactly once |
| Orientation.TurnMapsCycleCorners | script.js:352-355 | the 120-degree map sends 0 to 15, 9 to 0 and 15 to 9; the 240-degree map sends them the other way round |
| Orientation.StandardMaps | script.js:155-196 | the three maps under the keys 0, 1, 2 are 16-entry tables of cell indices |
| Orientation.RemapUndo | script.js:370-372 | remapping through one turn map and then the other gives back the bits |
| Orientation.RemapIdentity | script.js:370-372 | under rotation 0 the remapped bits are the bits as read |
| Orientation.AnchorSum | script.js:362-366 | the corner sum lies between 0 and 3 |
| Orientation.Remap | script.js:370-372 | finalBits: canonical bit k is bits[map[k]], 16 bits each 0 or 1 |
| Orientation.Accepts | script.js:362-366 | the test a rotation passes: the code's corner sum equal to 2, or the format's rule (cells 0 and 9 dark, cell 15 light) |
| Orientation.Decoded | script.js:384-388 | the object decodeSigil returns: `bits` (remapped), `raw` (as read) and `rotation` (the key of the map) |
| Orientation.SearchFrom | script.js:342-391 | a result exists iff some rotation passes; it is the first rotation that passes, no earlier one passes, `bits` is the remap through its map and `raw` the unchanged bits; null when none passes |
| Orientation.FindOrientation | script.js:338-391 | the loop with its early `break` returns the first rotation whose corner sum is 2, as SearchFrom states |
| Orientation.FirstAccepted | script.js:342-377 | when rotation q passes and no earlier one does, the result is rotation q with the bits remapped through map q |
| Orientation.AnchorSumTurnInvariant | script.js:362-366 | under all three standard maps the corner sum is the same |
| Orientation.Captured | script.js:348-356 | a sigil captured turned shows canonical cell i at position map[i] |
| Orientation.AsWrittenNeverTurns | script.js:342-377 | with the standard maps a result is always rotation 0, with the bits exactly as read |
| Orientation.AsWrittenMisreadsTurnedSigil | script.js:360-366 | a sigil captured turned by 120 or 240 degrees decodes as rotation 0 with bits that are not the sigil's |
| Orientation.CorrectedRecoversTurn | script.js:360-366 | with the dark-dark-light anchor test the search recovers the turn and the sigil's own bits for all three rotations |
| Threshold.SortAscending | script.js:322 | the sorted copy is ascending and a rearrangement of the samples |
| Threshold.SortAscendingCount | script.js:322 | sorting keeps the number of samples below every bound |
| Threshold.Median | script.js:322-323 | the threshold: entry 8 of the ascending copy of the samples |
| Threshold.MedianRank | script.js:322-323 | the threshold is one of the samples; at most 8 samples lie below it; at least 9 lie below any larger value |
| Threshold.MedianSplitsDistinct | script.js:322-323 | with no two samples equal, exactly 8 lie below the threshold |
| Threshold.Classify | script.js:326-331 | bit i is 1 exactly when sample i is strictly below the threshold |
| Threshold.DarkCountOfClassify | script.js:326-331 | the number of dark bits equals the number of samples below the threshold |
| Threshold.BitsOf | script.js:322-331 | 16 bits, each 0 or 1 |
| Threshold.DarkCellsAtMostEight | script.js:322-331 | at most 8 bits are 1, and exactly 8 when no two samples are equal |
| Threshold.BitsFollowLuminance | script.js:329 | a cell no lighter than a dark cell is dark, and a cell no darker than a light cell is light; equal samples give equal bits |
| Threshold.Binarize | script.js:322-331 | the thresholding loop yields BitsOf(samples) |
| Decoder.OnImage | script.js:312 | the bounds test: 0 ≤ x < cols and 0 ≤ y < rows |
| Decoder.SampleAt | script.js:312-316 | a centroid off the image samples 0; otherwise the sample is the pixel at (floor y, floor x), which lies on the image |
| Decoder.SamplesOf | script.js:310-318 | sample i is the sample at centroid i |
| Decoder.SampleCentroids | script.js:307-318 | the sampling loop yields SamplesOf(image, centroids) |
| Decoder.InsideTriangleOnWarp | script.js:303 | a point inside the canonical triangle lies on the 200 × 220 warp |
| Decoder.CanonicalSamplesOnWarp | script.js:303-318 | on the warp no canonical centroid falls back to 0: each sample is the pixel holding its centroid |
| Decoder.TopIndex | script.js:275 | the first vertex of least y: no vertex has smaller y, and every earlier vertex has strictly larger y |
| Decoder.YOrder | script.js:275 | the stable sort by y: a rearrangement of the three positions, ascending in y, with ties in their original order, starting at TopIndex |
| Decoder.YOrderUnique | script.js:275 | any stable ascending order of the vertices is YOrder |
| Decoder.VertexOrder | script.js:275-283 | a rearrangement whose first vertex is the first of least y and whose second lies left of (or level with) the third |
| Decoder.OrderVertices | script.js:275-283 | the array is rearranged in place into VertexOrder of its old contents |
| Decoder.SigilReader.constructor | script.js:32 | both tables start empty |
| Decoder.SigilReader.GenerateCentroids | script.js:34-152 | the 16 canonical centroids are appended to `centroids`; `rotationMaps` is unchanged |
| Decoder.SigilReader.GenerateRotationMaps | script.js:157-197 | key 0 holds the identity; keys 1 and 2 hold the nearest-search maps of the two turns; other keys are kept; on the canonical layout keys 1 and 2 are Map120 and Map240 |
| Decoder.SigilReader.DecodeSigil | script.js:267-392 | the vertices are reordered in place; the result is the orientation search over the thresholded samples of the image warped from the ordered vertices |
| Decoder.FreshReaderNeverTurns | script.js:157-392 | a reader set up with generateCentroids and generateRotationMaps and then decoding: any result is rotation 0 with bits equal to raw |
| Decoder.LoopComputesCell | script.js:104-146 | the x and y the loop body computes for cell k of row r are those of Cell(r, k) |
| Decoder.BuildMaps | script.js:157-196 | the three tables under keys 0, 1, 2 satisfy what generateRotationMaps promises |
| Decoder.TurnMapsOfLayout | script.js:195-196 | a centroid table starting with the canonical layout yields Map120 and Map240 |

## Left out

- The camera and frame loop (`onOpenCvReady`, `startCamera`, `processVideo`, script.js:200-265) is not modelled. It is asynchronous browser media code.
- The OpenCV calls in decodeSigil are not modelled: `matFromArray`, `getAffineTransform`, `warpAffine` and the `delete` cleanup. The warp is a parameter of `DecodeSigil`, a function from the ordered vertices to the warped image's pixels. decodeSigil ignores its `imageMat` argument and warps the global `gray` (script.js:267, 304); the `warp` parameter stands for that warp of `gray`, so `imageMat` has no counterpart. The image size is WARP_SIZE columns by WARP_SIZE + 20 rows. `ucharAt` is reading that function at (floor y, floor x).
- `updateUI` (DOM rendering) and `sw.js` (asset caching and network fetch) are not modelled.
- Floating point is not modelled. Coordinates are exact reals, and `Math.cos`/`Math.sin` of 120 and 240 degrees are given as cosine -1/2 and sine ±s with s·s = 3/4. Rounding near a tie in the nearest search is therefore not captured. No cell comes near a tie: on the canonical layout the nearest centroid of every turned cell beats the runner-up by more than 800 squared units, so the double values `Math.cos`/`Math.sin` return (-0.4999999999999998, 0.8660254037844387 and so on) give the same maps as the exact turn. The model proves this margin argument for the sine (`Sin120Bounds`, 0.866 < s < 0.8661) but takes the cosine as exactly -1/2.
- Rotation.NearestCentroid: `minDist` starting at Infinity is modelled as "no candidate yet" (`best == -1`), which every distance beats, as in the source.
- Threshold.SortAscending: the library sort of the samples is modelled by an insertion sort. Any correct sort gives the same ascending sequence.
- Decoder.YOrder: the library sort of the three vertices is modelled as the stable sort by y. `YOrderUnique` shows that this result is the only stable one. An unstable engine could order vertices of equal y differently.
- Decoder.SigilReader.DecodeSigil: `trianglePts` is taken to hold exactly three points. decodeSigil is not called anywhere in script.js or sw.js; `processVideo` (script.js:242-265) only reads frames. Its body reads only `trianglePts[0..2]`: with fewer than three points the test at script.js:279 throws a TypeError, and with more it sorts them all and warps from the first three. Neither case is modelled.
- Decoder.SigilReader.GenerateRotationMaps and Decoder.SigilReader.DecodeSigil require at least 16 centroids. With fewer, the script reads past the end of `centroids` and throws a TypeError. That case is excluded rather than modelled, because onOpenCvReady (script.js:204-205) always builds the centroids first.
- Decoder.SigilReader.DecodeSigil requires keys 0, 1 and 2 in `rotationMaps`, each a table of 16 cell indices (`ValidMaps`). Called before generateRotationMaps has run, `rotationMaps[rot]` is `undefined` and `map[0]` at script.js:362 throws a TypeError. That case is excluded rather than modelled, because onOpenCvReady calls generateRotationMaps (script.js:205) before any frame is read.
- The parity check, the 9-bit identifier and the lock state machine of the marker format are not in this code and are not modelled.

## Findings

| source | as written | input that shows it | evidently intended | confidence | as-written member | corrected member |
|---|---|---|---|---|---|---|
| script.js:360-366 | a rotation passes when bits[map[0]] + bits[map[9]] + bits[map[15]] == 2; the turn maps send the corner cells 0, 9, 15 round among themselves, so the sum is the same under every rotation and the first match is always rotation 0 | canonical bits with cells 0 and 9 dark and 15 light, captured turned by 120 degrees (read through Map240): the search returns rotation 0 and the unturned bits | cells 0 and 9 (anchors) dark and cell 15 (sync) light in the canonical frame, which picks the rotation and gives back the sigil's own bits | not executed | Orientation.AsWrittenMisreadsTurnedSigil | Orientation.CorrectedRecoversTurn |
