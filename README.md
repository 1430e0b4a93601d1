# Normalized patch descriptors

A Dafny model of `compute_normalized_patch_descriptors`, the baseline local
feature of a feature-matching pipeline. Given a grayscale image of shape
(M, N), K keypoint coordinates `X`, `Y` and a `feature_width` w, it
allocates a K x D matrix of zeros (D = w * w) and, for each keypoint in
turn:

1. truncates the coordinates toward zero to pixel indices (x, y);
2. skips the keypoint (its row stays zero) unless
   `x - h >= 0`, `x + h < N`, `y - h >= 0` and `y + h < M`, with h = w // 2;
3. slices rows `y - h .. y + h - 1` and columns `x - h .. x + h - 1` and
   flattens them row by row;
4. divides the vector by its Euclidean norm, unless that norm is zero;
5. assigns the vector to row i.

Files:

- `vectors.dfy` (module `Vectors`): row-major flattening, the sum of
  squares under the Euclidean norm, and division of a vector by a scalar,
  with their lemmas.
- `patch_descriptor.dfy` (module `PatchDescriptor`): the image is an
  `array2<real>`, coordinates are `real`, and the output is a fresh
  `array2<real>` filled row by row by the method
  `ComputeNormalizedPatchDescriptors`. Its loop keeps rows `< i` equal to
  the per-keypoint specification `Descriptor` and rows `>= i` all zero.
  The method has no `modifies` clause, so the image is provably left
  untouched.
- `descriptor_properties.dfy` (module `DescriptorProperties`): the bounds
  test, the shape hazard, the zero rows, row layout and unit norm, and the
  4 x 4 ramp-image examples.

The window spans `2 * h` pixels per side, so a kept patch has
`(2 * (w // 2))^2` entries. That equals the row length `w * w` only for
even w. For odd w, the assignment `fvs[i, :] = patch` cannot broadcast the
shorter vector into the row, and numpy raises. The model makes this an
explicit outcome: `ShapeError(i, patchLength, rowLength)` at the first
keypoint that passes the bounds test. A patch of length 1, which numpy
would broadcast, never occurs, because `2 * h` is even. The docstring's
"top-left option of the 4 possible choices for center" also points to even
widths.

A window centred on the keypoint would need `2 * h + 1` pixels per side
for an odd width; the slice takes `2 * h`. The bounds
test also skips the keypoint when its slice would end exactly at the right
or bottom edge. With width 3, the keypoint (2, 2) of the 4 x 4 ramp image
(pixel value `4 * row + column`) makes the call fail
(`OddWidthExampleFails`). With width 4, its window fits the image exactly,
yet the keypoint is skipped (`FittingWindowExampleSkipped`).

## Model

| member | source | states |
|---|---|---|
| `PatchDescriptor.ComputeNormalizedPatchDescriptors` | proj2_code/part2_patch_descriptor.py:6-52 | On success the result is a fresh \|X\| x (w*w) matrix (0 x D for K = 0), and row i equals `Descriptor` of (X[i], Y[i]) alone, so rows are independent and in input order. It succeeds iff every keypoint's row fits. Otherwise it reports the first keypoint whose patch does not fit, with patch length (2*(w/2))^2 and row length w*w. The image is not modified. |
| `PatchDescriptor.Truncate` | proj2_code/part2_patch_descriptor.py:34-35 | `int()` truncates toward zero: for r >= 0 the result n is non-negative with n <= r < n + 1; for r < 0 it is non-positive with n - 1 < r <= n |
| `PatchDescriptor.Patch` | proj2_code/part2_patch_descriptor.py:42-43 | the flattened slice of half-width h has exactly (2h)^2 entries |
| `PatchDescriptor.PatchEntry` | proj2_code/part2_patch_descriptor.py:42-43 | entry r*(2h)+c of the flattened patch is the pixel at row y-h+r, column x-h+c: row-major order, keypoint at offset (h, h) |
| `PatchDescriptor.KeypointAction` | proj2_code/part2_patch_descriptor.py:34-48 | the vector assigned for a kept keypoint has (2*(w/2))^2 entries whether or not it was divided by its norm |
| `PatchDescriptor.Descriptor` | proj2_code/part2_patch_descriptor.py:38-50 | every row the call can produce has exactly w*w entries |
| `PatchDescriptor.InBounds` | proj2_code/part2_patch_descriptor.py:38-39 | the negation of the bounds test: x - h >= 0, x + h < N, y - h >= 0 and y + h < M |
| `PatchDescriptor.SliceInside` | proj2_code/part2_patch_descriptor.py:42 | the slice `[y-h:y+h, x-h:x+h]` lies inside the image, slice ends being exclusive |
| `PatchDescriptor.Window` | proj2_code/part2_patch_descriptor.py:42 | the 2-D slice has bottom - top rows of right - left entries each, and entry (r, c) is the image pixel (top + r, left + c) |
| `Vectors.Flatten` | proj2_code/part2_patch_descriptor.py:43 | `.flatten()` in C order: the rows concatenated one after the other (its length and layout are FlattenLength and FlattenAt) |
| `Vectors.Zeros` | proj2_code/part2_patch_descriptor.py:29 | one row of `np.zeros((K, D))`: n entries, every one 0 |
| `PatchDescriptor.IsSqrt` | proj2_code/part2_patch_descriptor.py:46 | what the model assumes of the root inside `np.linalg.norm`: on every non-negative s it returns a non-negative r with r * r == s |
| `Vectors.IsNormOf` | proj2_code/part2_patch_descriptor.py:46 | n is the Euclidean norm of v: non-negative, and its square is the sum of squares of v |
| `Vectors.FlattenLength` | proj2_code/part2_patch_descriptor.py:43 | flattening R rows of width W gives R*W entries |
| `Vectors.FlattenAt` | proj2_code/part2_patch_descriptor.py:43 | flattening is row-major: entry (r, c) lands at index r*W + c |
| `Vectors.SumSq` | proj2_code/part2_patch_descriptor.py:46 | the squared norm is non-negative |
| `Vectors.SumSqZeroIff` | proj2_code/part2_patch_descriptor.py:46-47 | the norm is zero iff every entry is zero (both directions) |
| `Vectors.Scale` | proj2_code/part2_patch_descriptor.py:48 | dividing by n keeps the length and each entry times n gives back the original entry |
| `Vectors.ScaleSumSq` | proj2_code/part2_patch_descriptor.py:46-48 | dividing every entry by n divides the squared norm by n*n |
| `Vectors.NormalizeToUnit` | proj2_code/part2_patch_descriptor.py:46-48 | dividing by the positive norm gives a vector whose squared norm is 1 |
| `Vectors.ScaleKeepsDirection` | proj2_code/part2_patch_descriptor.py:48 | dividing by a positive scalar keeps each entry's sign and every ratio between two entries |
| `DescriptorProperties.BoundsTestIsSafe` | proj2_code/part2_patch_descriptor.py:38-42 | a keypoint that passes the bounds test slices only pixels inside the image |
| `DescriptorProperties.BoundsTestRejectsEdgeWindows` | proj2_code/part2_patch_descriptor.py:38-42 | the test passes iff the slice fits and does not touch the right or bottom edge, so it is stricter than the exclusive slice end needs |
| `DescriptorProperties.RowFitsIffEvenWidth` | proj2_code/part2_patch_descriptor.py:28-42 | the patch length (2*(w/2))^2 equals D = w*w iff w is even |
| `DescriptorProperties.ShapeErrorIffOddWidth` | proj2_code/part2_patch_descriptor.py:38-50 | a keypoint makes the call fail iff it passes the bounds test and w is odd |
| `DescriptorProperties.SkippedRowIsZero` | proj2_code/part2_patch_descriptor.py:29-40 | a keypoint that fails the bounds test leaves its row all zeros |
| `DescriptorProperties.SqrtGivesNorm` | proj2_code/part2_patch_descriptor.py:46 | the norm computed from the sum of squares is a non-negative root of it, and positive unless the patch is all zeros |
| `DescriptorProperties.ZeroNormRowIsZero` | proj2_code/part2_patch_descriptor.py:46-50 | with a zero norm nothing is divided and the row written is all zeros |
| `DescriptorProperties.KeptRow` | proj2_code/part2_patch_descriptor.py:42-50 | for even w, a kept keypoint's row is its patch, divided by the patch norm when that is nonzero |
| `DescriptorProperties.NormalizedRowIsUnit` | proj2_code/part2_patch_descriptor.py:46-50 | with a nonzero norm n, n is positive and is the patch's norm; the row is the patch divided by n; the row has squared norm 1; each entry keeps the sign of its pixel |
| `DescriptorProperties.RowIsZeroOrUnit` | proj2_code/part2_patch_descriptor.py:33-50 | every row of a successful call is all zeros or has unit norm |
| `DescriptorProperties.RowEntry` | proj2_code/part2_patch_descriptor.py:42-50 | for even w and a kept keypoint, row entry r*w + c is the pixel at row y-h+r, column x-h+c, divided by the norm when it is nonzero |
| `DescriptorProperties.OddWidthExampleFails` | proj2_code/part2_patch_descriptor.py:28-50 | on the 4 x 4 ramp image, width 3 at keypoint (2, 2) makes the call fail |
| `DescriptorProperties.FittingWindowExampleSkipped` | proj2_code/part2_patch_descriptor.py:38-40 | on the ramp image, width 4 at (2, 2) gives a window that fits exactly, yet the keypoint is skipped and its row is 16 zeros |
| `DescriptorProperties.EvenWidthExample` | proj2_code/part2_patch_descriptor.py:34-50 | on the ramp image, width 2 at (2.5, 2.0) gives the row [5, 6, 9, 10] / sqrt(242) |

## Left out

- Floating point: `np.linalg.norm` and `/` are modelled over exact reals. Rounding, overflow, underflow and NaN are not modelled. The root is a parameter `sqrt`. Lemmas about the norm require it to be a non-negative square root (`IsSqrt`).
- Coordinates are reals and `int()` is truncation toward zero. NaN, infinite values and values too large for `int()` are not modelled.
- numpy mechanics beyond what changes the result are not modelled: dtypes, array allocation, and broadcasting other than the row-assignment shape check.
- `Y` shorter than `X` (an `IndexError` in the source) is excluded by the precondition `|X| <= |Y|`. A negative `feature_width` is excluded by its type `nat`.
- Image loading, keypoint detection and descriptor matching are other parts of the pipeline and are not part of this model.
- DescriptorProperties.NormalizedRowIsUnit: states sign preservation for the row but not the ratio between entries. Ratios follow from Vectors.ScaleKeepsDirection applied to the row, which KeptRow identifies as the scaled patch.
