/**
  Normalized patch descriptors, as computed by
  `compute_normalized_patch_descriptors`: for each of K keypoints, cut a
  square window out of a grayscale image around the keypoint, flatten it
  row by row, divide it by its Euclidean norm and store it as one row of a
  K x D matrix (D = feature_width * feature_width) that starts out as zeros.

  The image is an `array2<real>` of shape (M, N) = (Length0, Length1),
  indexed [row, column] = [y, x]. Keypoint coordinates are reals, truncated
  toward zero as Python's `int()` does. The square root inside
  `np.linalg.norm` is a parameter `sqrt`; the lemmas that need it to be a
  square root assume `IsSqrt(sqrt)`.
 */
module PatchDescriptor {
  import opened Vectors

  datatype Option<T> = None | Some(value: T)

  /** Outcome of the whole call: the descriptor matrix, or the error numpy
      raises when the patch of keypoint `keypoint` (of `patchLength`
      entries) cannot be broadcast into a row of `rowLength` entries. */
  datatype Result<T> = Ok(value: T) | ShapeError(keypoint: nat, patchLength: nat, rowLength: nat)

  /** What the loop body does for one keypoint: `continue` without touching
      the row, or assign the (normalized) patch vector to the row. */
  datatype Action = Skip | Assign(v: seq<real>)

  /** `sqrt` is a square root on the non-negative reals. */
  ghost predicate IsSqrt(sqrt: real -> real)
  {
    forall s :: 0.0 <= s ==> 0.0 <= sqrt(s) && sqrt(s) * sqrt(s) == s
  }

  /** Python's `int()` on a float: truncation toward zero. */
  function Truncate(r: real): (n: int)
    ensures 0.0 <= r ==> 0 <= n && n as real <= r < n as real + 1.0
    ensures r < 0.0 ==> n <= 0 && n as real - 1.0 < r <= n as real
  {
    if 0.0 <= r then r.Floor else -((-r).Floor)
  }

  /** The bounds test of `compute_normalized_patch_descriptors` (its
      `continue` condition), negated: the keypoint is kept when its
      window of half-width `h` lies strictly inside the image. */
  predicate InBounds(x: int, y: int, h: nat, rows: nat, cols: nat)
  {
    0 <= x - h && x + h < cols && 0 <= y - h && y + h < rows
  }

  /** The slice `[y - h : y + h, x - h : x + h]` lies inside the image
      (slice ends are exclusive). */
  predicate SliceInside(x: int, y: int, h: nat, rows: nat, cols: nat)
  {
    0 <= x - h && x + h <= cols && 0 <= y - h && y + h <= rows
  }

  /** The rows `top..bottom` and columns `left..right` of the image, as a
      sequence of rows. */
  function Window(img: array2<real>, top: int, bottom: int, left: int, right: int): (w: seq<seq<real>>)
    requires 0 <= top <= bottom <= img.Length0 && 0 <= left <= right <= img.Length1
    reads img
    ensures |w| == bottom - top
    ensures forall r :: 0 <= r < |w| ==> |w[r]| == right - left
    ensures forall r, c :: 0 <= r < |w| && 0 <= c < right - left ==> w[r][c] == img[top + r, left + c]
  {
    seq(bottom - top, r requires 0 <= r < bottom - top reads img =>
      seq(right - left, c requires 0 <= c < right - left reads img => img[top + r, left + c]))
  }

  /** The flattened window of a keypoint at (x, y): `2 * h` rows and
      columns, the keypoint at offset (h, h), laid out row by row. */
  function Patch(img: array2<real>, x: int, y: int, h: nat): (p: seq<real>)
    requires SliceInside(x, y, h, img.Length0, img.Length1)
    reads img
    ensures |p| == (2 * h) * (2 * h)
  {
    var rows := Window(img, y - h, y + h, x - h, x + h);
    FlattenLength(rows, 2 * h);
    Flatten(rows)
  }

  /** Entry (r, c) of the window, counted from its top-left corner, is entry
      `r * (2 * h) + c` of the patch: row-major order, with the keypoint
      itself at offset (h, h). */
  lemma PatchEntry(img: array2<real>, x: int, y: int, h: nat, r: nat, c: nat)
    requires SliceInside(x, y, h, img.Length0, img.Length1)
    requires r < 2 * h && c < 2 * h
    ensures r * (2 * h) + c < |Patch(img, x, y, h)|
    ensures Patch(img, x, y, h)[r * (2 * h) + c] == img[y - h + r, x - h + c]
  {
    var rows := Window(img, y - h, y + h, x - h, x + h);
    FlattenAt(rows, 2 * h, r, c);
  }

  /** The loop body for one keypoint with coordinates (xr, yr), up to the
      assignment to the output row. */
  function KeypointAction(img: array2<real>, xr: real, yr: real, w: nat, sqrt: real -> real): (a: Action)
    reads img
    ensures a.Assign? ==> |a.v| == (2 * (w / 2)) * (2 * (w / 2))
  {
    var x, y, h := Truncate(xr), Truncate(yr), w / 2;
    if !InBounds(x, y, h, img.Length0, img.Length1) then Skip
    else
      var p := Patch(img, x, y, h);
      var norm := sqrt(SumSq(p));
      Assign(if norm != 0.0 then Scale(p, norm) else p)
  }

  /** The row that the call leaves in the output for one keypoint, or None
      when assigning the patch to the row fails. */
  function Descriptor(img: array2<real>, xr: real, yr: real, w: nat, sqrt: real -> real): (d: Option<seq<real>>)
    reads img
    ensures d.Some? ==> |d.value| == w * w
  {
    match KeypointAction(img, xr, yr, w, sqrt)
    case Skip => Some(Zeros(w * w))
    case Assign(v) => if |v| == w * w then Some(v) else None
  }

  /** `compute_normalized_patch_descriptors(image_bw, X, Y, feature_width)`:
      row i of the result is the descriptor of keypoint (X[i], Y[i]); the
      call fails at the first keypoint whose patch does not fit a row. */
  method ComputeNormalizedPatchDescriptors(imageBw: array2<real>, X: seq<real>, Y: seq<real>,
                                           featureWidth: nat, sqrt: real -> real)
    returns (r: Result<array2<real>>)
    requires |X| <= |Y|
    ensures r.Ok? <==> forall i :: 0 <= i < |X| ==> Descriptor(imageBw, X[i], Y[i], featureWidth, sqrt).Some?
    ensures r.Ok? ==> fresh(r.value)
    ensures r.Ok? ==> r.value.Length0 == |X| && r.value.Length1 == featureWidth * featureWidth
    ensures r.Ok? ==> forall i, j :: 0 <= i < |X| && 0 <= j < featureWidth * featureWidth ==>
              r.value[i, j] == Descriptor(imageBw, X[i], Y[i], featureWidth, sqrt).value[j]
    ensures r.ShapeError? ==>
              r.keypoint < |X| &&
              Descriptor(imageBw, X[r.keypoint], Y[r.keypoint], featureWidth, sqrt).None? &&
              (forall i :: 0 <= i < r.keypoint ==> Descriptor(imageBw, X[i], Y[i], featureWidth, sqrt).Some?) &&
              r.patchLength == (2 * (featureWidth / 2)) * (2 * (featureWidth / 2)) &&
              r.rowLength == featureWidth * featureWidth
  {
    var K := |X|;
    var D := featureWidth * featureWidth;
    var fvs := new real[K, D]((_, _) => 0.0);
    var halfWidth := featureWidth / 2;
    for i := 0 to K
      invariant forall k :: 0 <= k < i ==> Descriptor(imageBw, X[k], Y[k], featureWidth, sqrt).Some?
      invariant forall k, j :: 0 <= k < i && 0 <= j < D ==>
                  fvs[k, j] == Descriptor(imageBw, X[k], Y[k], featureWidth, sqrt).value[j]
      invariant forall k, j :: i <= k < K && 0 <= j < D ==> fvs[k, j] == 0.0
    {
      var x := Truncate(X[i]);
      var y := Truncate(Y[i]);
      if x - halfWidth < 0 || x + halfWidth >= imageBw.Length1 ||
         y - halfWidth < 0 || y + halfWidth >= imageBw.Length0 {
        continue;
      }
      var patch := Patch(imageBw, x, y, halfWidth);
      var norm := sqrt(SumSq(patch));
      if norm != 0.0 {
        patch := Scale(patch, norm);
      }
      if |patch| != D {
        return ShapeError(i, |patch|, D);
      }
      forall j | 0 <= j < D {
        fvs[i, j] := patch[j];
      }
    }
    return Ok(fvs);
  }
}
