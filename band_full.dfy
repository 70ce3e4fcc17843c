/** The reference conversions between the compact (banded) and the dense (full)
    representation of a square matrix: band_c, band_e and band_ec of bandmat.full.

    A compact buffer for bandwidths (l, u) has l + u + 1 rows and one column per
    column of the dense matrix.  Row u holds the main diagonal, row u - d the d-th
    super-diagonal and row u + d the d-th sub-diagonal: dense entry (i, j) lives at
    buffer cell (u + i - j, j) whenever -u <= i - j <= l.  Everything else of the
    dense matrix is zero. */
module BandFull {

  /** Dense matrices and compact buffers alike are rows of numbers.
      Element values are modelled as integers: every property here is exact equality. */
  type Matrix = seq<seq<int>>

  predicate IsRect(m: Matrix, rows: nat, cols: nat) {
    |m| == rows && forall k :: 0 <= k < rows ==> |m[k]| == cols
  }

  predicate IsSquare(m: Matrix) {
    IsRect(m, |m|, |m|)
  }

  /** A well-shaped compact buffer for bandwidths (l, u): l + u + 1 rows of equal length. */
  predicate IsCompact(l: nat, u: nat, rect: Matrix) {
    |rect| == l + u + 1 && IsRect(rect, |rect|, |rect[0]|)
  }

  /** The size of the square matrix a compact buffer stands for: its column count. */
  function SizeOf(rect: Matrix): nat
    requires |rect| > 0
  {
    |rect[0]|
  }

  /** Entry (i, j) lies on one of the l sub-diagonals, the main diagonal or one
      of the u super-diagonals. */
  predicate InBand(l: nat, u: nat, i: int, j: int) {
    i - j <= l && j - i <= u
  }

  /** Every entry of the square matrix m off the band (l, u) is zero. */
  predicate ZeroOutsideBand(l: nat, u: nat, m: Matrix)
    requires IsSquare(m)
  {
    forall i, j :: 0 <= i < |m| && 0 <= j < |m| && !InBand(l, u, i, j) ==> m[i][j] == 0
  }

  function ZeroMatrix(rows: nat, cols: nat): (z: Matrix)
    ensures IsRect(z, rows, cols)
    ensures forall i, j :: 0 <= i < rows && 0 <= j < cols ==> z[i][j] == 0
  {
    seq(rows, i => seq(cols, j => 0))
  }

  function Transpose(m: Matrix): (t: Matrix)
    requires IsSquare(m)
    ensures IsSquare(t) && |t| == |m|
  {
    seq(|m|, i requires 0 <= i < |m| => seq(|m|, j requires 0 <= j < |m| => m[j][i]))
  }

  /** band_c: compact to dense. */
  function BandC(l: nat, u: nat, rect: Matrix): (m: Matrix)
    requires IsCompact(l, u, rect)
    ensures IsSquare(m) && |m| == SizeOf(rect)
  {
    var n := SizeOf(rect);
    seq(n, i requires 0 <= i < n =>
      seq(n, j requires 0 <= j < n =>
        if InBand(l, u, i, j) then rect[u + i - j][j] else 0))
  }

  /** band_e: dense to compact, reading only the band and checking nothing.
      Cell (k, j) of the result stands for dense entry (j + k - u, j); the cells
      whose row j + k - u falls outside the matrix (the top-left and bottom-right
      corners of the buffer) are set to zero. */
  function BandE(l: nat, u: nat, m: Matrix): (rect: Matrix)
    requires IsSquare(m)
    ensures IsCompact(l, u, rect) && SizeOf(rect) == |m|
  {
    var n := |m|;
    seq(l + u + 1, k requires 0 <= k < l + u + 1 =>
      seq(n, j requires 0 <= j < n =>
        var i := j + k - u;
        if 0 <= i < n then m[i][j] else 0))
  }

  /** band_ec: extract the band, then construct the dense matrix again. */
  function BandEC(l: nat, u: nat, m: Matrix): (r: Matrix)
    requires IsSquare(m)
    ensures IsSquare(r) && |r| == |m|
  {
    BandC(l, u, BandE(l, u, m))
  }

  /** Two matrices of the same shape with the same entries are equal. */
  lemma EqualRect(a: Matrix, b: Matrix, rows: nat, cols: nat)
    requires IsRect(a, rows, cols) && IsRect(b, rows, cols)
    requires forall i, j :: 0 <= i < rows && 0 <= j < cols ==> a[i][j] == b[i][j]
    ensures a == b
  {
    forall i | 0 <= i < rows
      ensures a[i] == b[i]
    {
      assert forall j :: 0 <= j < cols ==> a[i][j] == b[i][j];
    }
  }

  /** band_ec keeps the entries of m inside the band and zeroes all others. */
  lemma BandECAt(l: nat, u: nat, m: Matrix, i: nat, j: nat)
    requires IsSquare(m) && i < |m| && j < |m|
    ensures BandEC(l, u, m)[i][j] == if InBand(l, u, i, j) then m[i][j] else 0
  {
    var rect := BandE(l, u, m);
    if InBand(l, u, i, j) {
      assert rect[u + i - j][j] == m[i][j];
    }
  }

  /** band_c never produces anything outside its band. */
  lemma BandCZeroOutside(l: nat, u: nat, rect: Matrix)
    requires IsCompact(l, u, rect)
    ensures ZeroOutsideBand(l, u, BandC(l, u, rect))
  {
  }

  /** The condition from_full checks: band_ec leaves m unchanged exactly when m is
      zero outside the band. */
  lemma BandECIdentity(l: nat, u: nat, m: Matrix)
    requires IsSquare(m)
    ensures BandEC(l, u, m) == m <==> ZeroOutsideBand(l, u, m)
  {
    var n := |m|;
    forall i, j | 0 <= i < n && 0 <= j < n {
      BandECAt(l, u, m, i, j);
    }
    if ZeroOutsideBand(l, u, m) {
      EqualRect(BandEC(l, u, m), m, n, n);
    }
  }

  /** band_ec is the identity on its own results. */
  lemma BandECIdempotent(l: nat, u: nat, m: Matrix)
    requires IsSquare(m)
    ensures BandEC(l, u, BandEC(l, u, m)) == BandEC(l, u, m)
  {
    var r := BandEC(l, u, m);
    forall i, j | 0 <= i < |m| && 0 <= j < |m| && !InBand(l, u, i, j)
      ensures r[i][j] == 0
    {
      BandECAt(l, u, m, i, j);
    }
    BandECIdentity(l, u, r);
  }

  /** Restricting to one band and then to another is restricting to their intersection. */
  lemma BandECNarrow(l: nat, u: nat, l2: nat, u2: nat, m: Matrix)
    requires IsSquare(m)
    ensures BandEC(l2, u2, BandEC(l, u, m))
         == BandEC(if l <= l2 then l else l2, if u <= u2 then u else u2, m)
  {
    var l3, u3 := if l <= l2 then l else l2, if u <= u2 then u else u2;
    var n := |m|;
    var inner := BandEC(l, u, m);
    forall i, j | 0 <= i < n && 0 <= j < n
      ensures BandEC(l2, u2, inner)[i][j] == BandEC(l3, u3, m)[i][j]
    {
      BandECAt(l, u, m, i, j);
      BandECAt(l2, u2, inner, i, j);
      BandECAt(l3, u3, m, i, j);
    }
    EqualRect(BandEC(l2, u2, inner), BandEC(l3, u3, m), n, n);
  }

  /** band_e after band_c gives the buffer back, except for the corner cells that
      stand for rows outside the matrix: band_c ignores those and band_e sets them
      to zero. */
  lemma BandERoundTrip(l: nat, u: nat, rect: Matrix)
    requires IsCompact(l, u, rect)
    ensures forall k, j :: 0 <= k < l + u + 1 && 0 <= j < SizeOf(rect) ==>
      BandE(l, u, BandC(l, u, rect))[k][j]
        == if 0 <= j + k - u < SizeOf(rect) then rect[k][j] else 0
  {
    var n := SizeOf(rect);
    var m := BandC(l, u, rect);
    var e := BandE(l, u, m);
    forall k, j | 0 <= k < l + u + 1 && 0 <= j < n
      ensures e[k][j] == if 0 <= j + k - u < n then rect[k][j] else 0
    {
      var i := j + k - u;
      if 0 <= i < n {
        assert InBand(l, u, i, j) && u + i - j == k;
        assert e[k][j] == m[i][j];
      }
    }
  }

  lemma TransposeInvolution(m: Matrix)
    requires IsSquare(m)
    ensures Transpose(Transpose(m)) == m
  {
    var t := Transpose(Transpose(m));
    forall i, j | 0 <= i < |m| && 0 <= j < |m|
      ensures t[i][j] == m[i][j]
    {
      assert Transpose(m)[j][i] == m[i][j];
    }
    EqualRect(t, m, |m|, |m|);
  }

  /** Transposing swaps the roles of the sub- and super-diagonals. */
  lemma TransposeZeroOutside(l: nat, u: nat, m: Matrix)
    requires IsSquare(m) && ZeroOutsideBand(l, u, m)
    ensures ZeroOutsideBand(u, l, Transpose(m))
  {
    var t := Transpose(m);
    forall i, j | 0 <= i < |m| && 0 <= j < |m| && !InBand(u, l, i, j)
      ensures t[i][j] == 0
    {
      assert !InBand(l, u, j, i);
    }
  }

  /** Restricting to a band commutes with transposition, the bandwidths swapping. */
  lemma TransposeBandEC(l: nat, u: nat, m: Matrix)
    requires IsSquare(m)
    ensures Transpose(BandEC(l, u, m)) == BandEC(u, l, Transpose(m))
  {
    var n := |m|;
    var lhs := Transpose(BandEC(l, u, m));
    var rhs := BandEC(u, l, Transpose(m));
    forall i, j | 0 <= i < n && 0 <= j < n
      ensures lhs[i][j] == rhs[i][j]
    {
      BandECAt(l, u, m, j, i);
      BandECAt(u, l, Transpose(m), i, j);
    }
    EqualRect(lhs, rhs, n, n);
  }

  /** The all-zero buffer stands for the all-zero matrix. */
  lemma BandCZeros(l: nat, u: nat, n: nat)
    ensures BandC(l, u, ZeroMatrix(l + u + 1, n)) == ZeroMatrix(n, n)
  {
    var z := ZeroMatrix(l + u + 1, n);
    forall i, j | 0 <= i < n && 0 <= j < n
      ensures BandC(l, u, z)[i][j] == 0
    {
      if InBand(l, u, i, j) {
        assert z[u + i - j][j] == 0;
      }
    }
    EqualRect(BandC(l, u, z), ZeroMatrix(n, n), n, n);
  }

  /** Rows u - u2 .. u + l2 of a buffer for (l, u) form a buffer for the narrower
      band (l2, u2) that stands for band_ec(l2, u2, ·) of the original matrix: the
      zero-copy sub-band view. */
  lemma BandCWindow(l: nat, u: nat, l2: nat, u2: nat, rect: Matrix)
    requires IsCompact(l, u, rect) && l2 <= l && u2 <= u
    ensures IsCompact(l2, u2, rect[u - u2 .. u + l2 + 1])
    ensures BandC(l2, u2, rect[u - u2 .. u + l2 + 1]) == BandEC(l2, u2, BandC(l, u, rect))
  {
    var w := rect[u - u2 .. u + l2 + 1];
    var n := SizeOf(rect);
    assert w[0] == rect[u - u2];
    var m := BandC(l, u, rect);
    forall i, j | 0 <= i < n && 0 <= j < n
      ensures BandC(l2, u2, w)[i][j] == BandEC(l2, u2, m)[i][j]
    {
      BandECAt(l2, u2, m, i, j);
      if InBand(l2, u2, i, j) {
        assert InBand(l, u, i, j);
        assert w[u2 + i - j] == rect[u + i - j];
        assert m[i][j] == rect[u + i - j][j];
      }
    }
    EqualRect(BandC(l2, u2, w), BandEC(l2, u2, m), n, n);
  }
}
