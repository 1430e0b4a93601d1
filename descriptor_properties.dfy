/**
  Properties of the normalized patch descriptors: the bounds test, the
  shape of a patch against the shape of a row, the zero rows, the exact
  layout of a row and its unit norm, and the 4 x 4 ramp-image examples.
 */
module DescriptorProperties {
  import opened Vectors
  import opened PatchDescriptor

  /** Keypoints that pass the bounds test read only pixels of the image. */
  lemma BoundsTestIsSafe(x: int, y: int, h: nat, rows: nat, cols: nat)
    requires InBounds(x, y, h, rows, cols)
    ensures SliceInside(x, y, h, rows, cols)
  {
  }

  /** The bounds test is stricter than the slice needs: it rejects exactly
      the windows that fit but touch the right or the bottom edge. */
  lemma BoundsTestRejectsEdgeWindows(x: int, y: int, h: nat, rows: nat, cols: nat)
    ensures InBounds(x, y, h, rows, cols) <==>
              SliceInside(x, y, h, rows, cols) && x + h != cols && y + h != rows
  {
  }

  /** A patch has `(2 * (w / 2))^2` entries, which is the row length `w * w`
      exactly when `w` is even. */
  lemma RowFitsIffEvenWidth(w: nat)
    ensures (2 * (w / 2)) * (2 * (w / 2)) == w * w <==> w % 2 == 0
  {
    if w % 2 == 1 {
      var s := 2 * (w / 2);
      assert s == w - 1;
      assert s * s == w * w - 2 * w + 1 by {
        assert (w - 1) * (w - 1) == w * w - 2 * w + 1;
      }
    }
  }

  /** The call fails for a keypoint exactly when the keypoint passes the
      bounds test and the width is odd. */
  lemma ShapeErrorIffOddWidth(img: array2<real>, xr: real, yr: real, w: nat, sqrt: real -> real)
    ensures Descriptor(img, xr, yr, w, sqrt).None? <==>
              InBounds(Truncate(xr), Truncate(yr), w / 2, img.Length0, img.Length1) && w % 2 == 1
  {
    RowFitsIffEvenWidth(w);
  }

  /** A keypoint that fails the bounds test leaves its row all zeros. */
  lemma SkippedRowIsZero(img: array2<real>, xr: real, yr: real, w: nat, sqrt: real -> real)
    requires !InBounds(Truncate(xr), Truncate(yr), w / 2, img.Length0, img.Length1)
    ensures Descriptor(img, xr, yr, w, sqrt).Some?
    ensures forall j :: 0 <= j < w * w ==> Descriptor(img, xr, yr, w, sqrt).value[j] == 0.0
  {
  }

  /** The square root of zero is zero. */
  lemma SqrtZero(sqrt: real -> real)
    requires IsSqrt(sqrt)
    ensures sqrt(0.0) == 0.0
  {
    var z := sqrt(0.0);
    assert z * z == 0.0;
    ProductZero(z, z);
  }

  /** A patch whose norm is zero is all zeros; it is written without
      division and its row is all zeros. */
  lemma ZeroNormRowIsZero(img: array2<real>, xr: real, yr: real, w: nat, sqrt: real -> real)
    requires IsSqrt(sqrt) && w % 2 == 0
    requires InBounds(Truncate(xr), Truncate(yr), w / 2, img.Length0, img.Length1)
    requires SumSq(Patch(img, Truncate(xr), Truncate(yr), w / 2)) == 0.0
    ensures Descriptor(img, xr, yr, w, sqrt).Some?
    ensures forall j :: 0 <= j < w * w ==> Descriptor(img, xr, yr, w, sqrt).value[j] == 0.0
  {
    var p := Patch(img, Truncate(xr), Truncate(yr), w / 2);
    RowFitsIffEvenWidth(w);
    SqrtZero(sqrt);
    SumSqZeroIff(p);
    assert KeypointAction(img, xr, yr, w, sqrt) == Assign(p);
  }

  /** `sqrt` applied to the sum of squares of a vector gives its norm,
      which is positive unless the vector is all zeros. */
  lemma SqrtGivesNorm(sqrt: real -> real, p: seq<real>)
    requires IsSqrt(sqrt)
    ensures IsNormOf(sqrt(SumSq(p)), p)
    ensures SumSq(p) != 0.0 ==> 0.0 < sqrt(SumSq(p))
  {
    var s := SumSq(p);
    var n := sqrt(s);
    assert 0.0 <= n && n * n == s;
  }

  /** The row of a kept keypoint under an even width: its patch, divided by
      the patch norm when that norm is nonzero. */
  lemma KeptRow(img: array2<real>, xr: real, yr: real, w: nat, sqrt: real -> real)
    requires w % 2 == 0
    requires InBounds(Truncate(xr), Truncate(yr), w / 2, img.Length0, img.Length1)
    ensures var p := Patch(img, Truncate(xr), Truncate(yr), w / 2);
            var n := sqrt(SumSq(p));
            Descriptor(img, xr, yr, w, sqrt) == Some(if n != 0.0 then Scale(p, n) else p)
  {
    RowFitsIffEvenWidth(w);
  }

  /** A patch with a nonzero norm is divided by that norm: the row is the
      patch divided by one common positive factor (`Scale`), it is a unit
      vector, and every entry keeps its sign. */
  lemma NormalizedRowIsUnit(img: array2<real>, xr: real, yr: real, w: nat, sqrt: real -> real)
    requires IsSqrt(sqrt) && w % 2 == 0
    requires InBounds(Truncate(xr), Truncate(yr), w / 2, img.Length0, img.Length1)
    requires SumSq(Patch(img, Truncate(xr), Truncate(yr), w / 2)) != 0.0
    ensures var p := Patch(img, Truncate(xr), Truncate(yr), w / 2);
            var n := sqrt(SumSq(p));
            0.0 < n && IsNormOf(n, p) && Descriptor(img, xr, yr, w, sqrt) == Some(Scale(p, n))
    ensures var p := Patch(img, Truncate(xr), Truncate(yr), w / 2);
            var v := Descriptor(img, xr, yr, w, sqrt).value;
            |v| == |p| && SumSq(v) == 1.0
    ensures var p := Patch(img, Truncate(xr), Truncate(yr), w / 2);
            var v := Descriptor(img, xr, yr, w, sqrt).value;
            forall j :: 0 <= j < |v| ==>
              (0.0 < v[j] <==> 0.0 < p[j]) && (v[j] < 0.0 <==> p[j] < 0.0)
  {
    var p := Patch(img, Truncate(xr), Truncate(yr), w / 2);
    var n := sqrt(SumSq(p));
    SqrtGivesNorm(sqrt, p);
    KeptRow(img, xr, yr, w, sqrt);
    NormalizeToUnit(p, n);
    ScaleKeepsDirection(p, n);
  }

  /** Every row of a successful call is either all zeros or a unit vector. */
  lemma RowIsZeroOrUnit(img: array2<real>, xr: real, yr: real, w: nat, sqrt: real -> real)
    requires IsSqrt(sqrt)
    requires Descriptor(img, xr, yr, w, sqrt).Some?
    ensures var v := Descriptor(img, xr, yr, w, sqrt).value;
            (forall j :: 0 <= j < |v| ==> v[j] == 0.0) || SumSq(v) == 1.0
  {
    var x, y, h := Truncate(xr), Truncate(yr), w / 2;
    if InBounds(x, y, h, img.Length0, img.Length1) {
      ShapeErrorIffOddWidth(img, xr, yr, w, sqrt);
      if SumSq(Patch(img, x, y, h)) == 0.0 {
        ZeroNormRowIsZero(img, xr, yr, w, sqrt);
      } else {
        NormalizedRowIsUnit(img, xr, yr, w, sqrt);
      }
    }
  }

  /** Entry `r * w + c` of the row of a kept keypoint (x, y) is the pixel at
      row `y - w/2 + r` and column `x - w/2 + c`, divided by the patch norm
      when that norm is nonzero. */
  lemma RowEntry(img: array2<real>, xr: real, yr: real, w: nat, sqrt: real -> real, r: nat, c: nat)
    requires w % 2 == 0 && r < w && c < w
    requires InBounds(Truncate(xr), Truncate(yr), w / 2, img.Length0, img.Length1)
    ensures var x, y, h := Truncate(xr), Truncate(yr), w / 2;
            var n := sqrt(SumSq(Patch(img, x, y, h)));
            var d := Descriptor(img, xr, yr, w, sqrt);
            d.Some? && r * w + c < |d.value| &&
            (n == 0.0 ==> d.value[r * w + c] == img[y - h + r, x - h + c]) &&
            (n != 0.0 ==> d.value[r * w + c] * n == img[y - h + r, x - h + c])
  {
    var x, y, h := Truncate(xr), Truncate(yr), w / 2;
    assert 2 * h == w;
    PatchEntry(img, x, y, h, r, c);
    KeptRow(img, xr, yr, w, sqrt);
  }

  /** The 4 x 4 test image whose pixel at row r and column c is `4 * r + c`. */
  ghost predicate RampImage(img: array2<real>)
    reads img
  {
    img.Length0 == 4 && img.Length1 == 4 &&
    forall r, c :: 0 <= r < 4 && 0 <= c < 4 ==> img[r, c] == (4 * r + c) as real
  }

  /** With width 3 the keypoint (2, 2) of the ramp image passes the bounds
      test, its patch has 4 entries and the row 9: the call fails. */
  lemma OddWidthExampleFails(img: array2<real>, sqrt: real -> real)
    requires RampImage(img)
    ensures Descriptor(img, 2.0, 2.0, 3, sqrt).None?
  {
    ShapeErrorIffOddWidth(img, 2.0, 2.0, 3, sqrt);
  }

  /** With width 4 the window of the keypoint (2, 2) fits the ramp image
      exactly, yet the bounds test skips it and the row is all zeros. */
  lemma FittingWindowExampleSkipped(img: array2<real>, sqrt: real -> real)
    requires RampImage(img)
    ensures SliceInside(2, 2, 2, 4, 4)
    ensures Descriptor(img, 2.0, 2.0, 4, sqrt) == Some(Zeros(16))
  {
  }

  /** With width 2 the keypoint (2.5, 2.0) truncates to (2, 2); its patch is
      [5, 6, 9, 10] and the row is that patch divided by sqrt(242). */
  lemma EvenWidthExample(img: array2<real>, sqrt: real -> real)
    requires RampImage(img) && IsSqrt(sqrt)
    ensures var n := sqrt(242.0);
            0.0 < n && Descriptor(img, 2.5, 2.0, 2, sqrt) == Some([5.0 / n, 6.0 / n, 9.0 / n, 10.0 / n])
  {
    var p := Patch(img, 2, 2, 1);
    assert Truncate(2.5) == 2;
    PatchEntry(img, 2, 2, 1, 0, 0);
    PatchEntry(img, 2, 2, 1, 0, 1);
    PatchEntry(img, 2, 2, 1, 1, 0);
    PatchEntry(img, 2, 2, 1, 1, 1);
    assert p == [5.0, 6.0, 9.0, 10.0];
    assert SumSq([10.0]) == 100.0;
    assert SumSq([9.0, 10.0]) == 181.0 by { assert [9.0, 10.0][1..] == [10.0]; }
    assert SumSq([6.0, 9.0, 10.0]) == 217.0 by { assert [6.0, 9.0, 10.0][1..] == [9.0, 10.0]; }
    assert SumSq(p) == 242.0 by { assert p[1..] == [6.0, 9.0, 10.0]; }
    var n := sqrt(242.0);
    SqrtGivesNorm(sqrt, p);
    assert KeypointAction(img, 2.5, 2.0, 2, sqrt) == Assign(Scale(p, n));
    assert Scale(p, n) == [5.0 / n, 6.0 / n, 9.0 / n, 10.0 / n];
  }
}
