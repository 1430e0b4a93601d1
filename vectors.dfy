/**
  Flat real vectors as numpy handles them in the descriptor code: row-major
  flattening of a 2-D window, the sum of squares under the Euclidean norm,
  and element-wise division of a vector by a scalar.
 */
module Vectors {

  /** A vector of `n` zeros, as `np.zeros` fills one row of the output. */
  function Zeros(n: nat): (z: seq<real>)
    ensures |z| == n
    ensures forall j :: 0 <= j < n ==> z[j] == 0.0
  {
    seq(n, _ => 0.0)
  }

  /** Row-major (C order) flattening: the rows one after the other. */
  function Flatten(rows: seq<seq<real>>): seq<real>
  {
    if rows == [] then [] else rows[0] + Flatten(rows[1..])
  }

  /** Flattening rows that all have `width` entries gives `|rows| * width`
      entries. */
  lemma {:induction false} FlattenLength(rows: seq<seq<real>>, width: nat)
    requires forall r :: 0 <= r < |rows| ==> |rows[r]| == width
    ensures |Flatten(rows)| == |rows| * width
  {
    if rows != [] {
      FlattenLength(rows[1..], width);
      RowStep(|rows| - 1, width);
    }
  }

  /** `(a + 1) * width` splits off one row of `width` entries. */
  lemma RowStep(a: nat, width: nat)
    ensures (a + 1) * width == width + a * width
  {
  }

  /** In a flattened matrix whose rows all have `width` entries, entry
      (r, c) sits at index `r * width + c`. */
  lemma {:induction false} FlattenAt(rows: seq<seq<real>>, width: nat, r: nat, c: nat)
    requires forall i :: 0 <= i < |rows| ==> |rows[i]| == width
    requires r < |rows| && c < width
    ensures r * width + c < |Flatten(rows)|
    ensures Flatten(rows)[r * width + c] == rows[r][c]
  {
    FlattenLength(rows, width);
    if r > 0 {
      var tail := rows[1..];
      FlattenAt(tail, width, r - 1, c);
      RowStep(r - 1, width);
      assert Flatten(rows) == rows[0] + Flatten(tail);
      assert tail[r - 1] == rows[r];
    }
  }

  /** The sum of squares of the entries; `np.linalg.norm` is its square root. */
  function SumSq(v: seq<real>): (s: real)
    ensures 0.0 <= s
  {
    if v == [] then 0.0 else v[0] * v[0] + SumSq(v[1..])
  }

  /** The norm vanishes exactly on the all-zero vector. */
  lemma {:induction false} SumSqZeroIff(v: seq<real>)
    ensures SumSq(v) == 0.0 <==> forall j :: 0 <= j < |v| ==> v[j] == 0.0
  {
    if v != [] {
      var tail := v[1..];
      SumSqZeroIff(tail);
      assert forall j :: 0 <= j < |tail| ==> tail[j] == v[j + 1];
      if SumSq(v) == 0.0 {
        assert 0.0 <= v[0] * v[0];
        ProductZero(v[0], v[0]);
      }
    }
  }

  /** A product of reals vanishes only when a factor does. */
  lemma ProductZero(a: real, b: real)
    requires a * b == 0.0
    ensures a == 0.0 || b == 0.0
  {
  }

  /** The square of a positive real is positive. */
  lemma SquarePositive(n: real, s: real)
    requires 0.0 < n && n * n == s
    ensures 0.0 < s
  {
    assert 0.0 <= n * n;
    if s == 0.0 {
      ProductZero(n, n);
    }
  }

  /** A positive factor cancels from both sides of `s * m == m`. */
  lemma CancelFactor(s: real, m: real)
    requires 0.0 < m && s * m == m
    ensures s == 1.0
  {
  }

  /** Element-wise division `v / n`, as numpy divides an array by a scalar. */
  function Scale(v: seq<real>, n: real): (u: seq<real>)
    requires n != 0.0
    ensures |u| == |v|
    ensures forall j :: 0 <= j < |v| ==> u[j] * n == v[j]
  {
    seq(|v|, j requires 0 <= j < |v| => v[j] / n)
  }

  /** Dividing every entry by `n` divides the sum of squares by `m == n * n`. */
  lemma {:induction false} ScaleSumSq(v: seq<real>, n: real, m: real)
    requires n != 0.0 && m == n * n
    ensures SumSq(Scale(v, n)) * m == SumSq(v)
  {
    if v != [] {
      var u, tail := Scale(v, n), v[1..];
      ScaleSumSq(tail, n, m);
      assert u[1..] == Scale(tail, n);
      var q, rest := u[0], SumSq(Scale(tail, n));
      assert q * n == v[0];
      assert q * q * m == v[0] * v[0] by {
        assert q * q * (n * n) == (q * n) * (q * n);
      }
      calc {
        SumSq(u) * m;
        (q * q + rest) * m;
        q * q * m + rest * m;
        v[0] * v[0] + SumSq(tail);
      }
    }
  }

  /** `n` is the Euclidean norm of `v`: the non-negative square root of its
      sum of squares. */
  predicate IsNormOf(n: real, v: seq<real>)
  {
    0.0 <= n && n * n == SumSq(v)
  }

  /** Dividing by the (positive) norm yields a unit vector. */
  lemma NormalizeToUnit(v: seq<real>, n: real)
    requires 0.0 < n && IsNormOf(n, v)
    ensures SumSq(Scale(v, n)) == 1.0
  {
    var unit, total := SumSq(Scale(v, n)), SumSq(v);
    ScaleSumSq(v, n, total);
    assert unit * total == total;
    SquarePositive(n, total);
    CancelFactor(unit, total);
  }

  /** Dividing by a positive scalar keeps every entry's sign and every ratio
      between entries. */
  lemma ScaleKeepsDirection(v: seq<real>, n: real)
    requires 0.0 < n
    ensures forall j :: 0 <= j < |v| ==>
              (0.0 < Scale(v, n)[j] <==> 0.0 < v[j]) &&
              (Scale(v, n)[j] < 0.0 <==> v[j] < 0.0)
    ensures forall j, k :: 0 <= j < |v| && 0 <= k < |v| ==>
              Scale(v, n)[j] * v[k] == Scale(v, n)[k] * v[j]
  {
    var u := Scale(v, n);
    forall j | 0 <= j < |v|
      ensures (0.0 < u[j] <==> 0.0 < v[j]) && (u[j] < 0.0 <==> v[j] < 0.0)
    {
      assert u[j] * n == v[j];
      if 0.0 < u[j] { assert 0.0 < u[j] * n; }
      if u[j] < 0.0 { assert u[j] * n < 0.0; }
    }
    forall j, k | 0 <= j < |v| && 0 <= k < |v|
      ensures u[j] * v[k] == u[k] * v[j]
    {
      assert u[j] * (u[k] * n) == u[k] * (u[j] * n);
    }
  }
}
