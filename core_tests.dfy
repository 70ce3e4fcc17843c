/** The assertions of bandmat's core test suite, stated for all inputs: client
    code of BandCore whose contracts say what each test checks. */
module CoreTests {
  import opened BandFull
  import opened BandCore

  /** test_BandMat_copy_exact: the copy keeps l, u and the flag and stands for the
      same matrix; adding x to every cell of the copy's buffer changes the copy
      only.  The method has no modifies clause, so it cannot have touched a's
      buffer. */
  method CopyExactThenMutate(a: BandMat, x: int) returns (b: BandMat, copied: Matrix)
    requires a.Valid()
    ensures b.Valid() && b.l == a.l && b.u == a.u && b.transposed == a.transposed
    ensures b.Size() == a.Size() && b.data != a.data
    ensures copied == a.Full()
    ensures forall k, j :: 0 <= k < a.l + a.u + 1 && 0 <= j < a.Size() ==>
      b.Rect()[k][j] == a.Rect()[k][j] + x
    ensures a.Full() == old(a.Full())
  {
    b := a.CopyExact();
    copied := b.Full();
    b.AddToAll(x);
  }

  /** test_BandMat_copy: the same, for a copy that is never transposed; before the
      mutation the copy's rows stood for a's matrix. */
  method CopyThenMutate(a: BandMat, x: int) returns (b: BandMat, rows: Matrix)
    requires a.Valid()
    ensures b.Valid() && b.l == a.l && b.u == a.u && !b.transposed
    ensures b.Size() == a.Size() && b.data != a.data
    ensures IsCompact(a.l, a.u, rows) && BandC(a.l, a.u, rows) == a.Full()
    ensures forall k, j :: 0 <= k < a.l + a.u + 1 && 0 <= j < a.Size() ==>
      b.Rect()[k][j] == rows[k][j] + x
    ensures a.Full() == old(a.Full())
  {
    b := a.Copy();
    rows := b.Rect();
    b.AddToAll(x);
  }

  /** The buffer sharing of the lazy transpose: T is a view, so after the shared
      buffer is changed through the original, the transpose still stands for the
      transpose of the original. */
  method TransposeThenMutate(a: BandMat, x: int) returns (t: BandMat)
    requires a.Valid()
    modifies a.data
    ensures t.Valid() && t.data == a.data
    ensures forall k, j :: 0 <= k < a.l + a.u + 1 && 0 <= j < a.Size() ==>
      a.Rect()[k][j] == old(a.Rect()[k][j]) + x
    ensures t.Full() == Transpose(a.Full())
  {
    t := a.T();
    a.AddToAll(x);
    assert t.Rect() == a.Rect();
    if a.transposed {
      TransposeInvolution(BandC(a.u, a.l, a.Rect()));
    }
  }

  /** The buffer sharing of band_ec_bm_view on a sub-band: after the shared
      buffer is changed through the original, the view still stands for
      band_ec(l, u, ·) of the original's new matrix. */
  method ViewThenMutate(l: nat, u: nat, a: BandMat, x: int) returns (b: BandMat)
    requires a.Valid() && l <= a.l && u <= a.u
    modifies a.data
    ensures b.Valid() && b.data == a.data && b.l == l && b.u == u
    ensures forall k, j :: 0 <= k < a.l + a.u + 1 && 0 <= j < a.Size() ==>
      a.Rect()[k][j] == old(a.Rect()[k][j]) + x
    ensures b.Full() == BandEC(l, u, a.Full())
  {
    b := BandEcBmView(l, u, a);
    a.AddToAll(x);
    SubBandViewFull(b, a);
  }

  /** A worked instance of the full and T tests: a tridiagonal matrix, its
      compact buffer (super-diagonal, diagonal, sub-diagonal, with unused corner
      cells zero) and its transpose. */
  lemma TridiagonalExample()
    ensures IsCompact(1, 1, [[0, 2, 5], [1, 4, 7], [3, 6, 0]])
    ensures BandC(1, 1, [[0, 2, 5], [1, 4, 7], [3, 6, 0]]) == [[1, 2, 0], [3, 4, 5], [0, 6, 7]]
    ensures Transpose([[1, 2, 0], [3, 4, 5], [0, 6, 7]]) == [[1, 3, 0], [2, 4, 6], [0, 5, 7]]
    ensures BandE(1, 1, [[1, 2, 0], [3, 4, 5], [0, 6, 7]]) == [[0, 2, 5], [1, 4, 7], [3, 6, 0]]
  {
    var d := [[0, 2, 5], [1, 4, 7], [3, 6, 0]];
    var m := [[1, 2, 0], [3, 4, 5], [0, 6, 7]];
    EqualRect(BandC(1, 1, d), m, 3, 3);
    EqualRect(Transpose(m), [[1, 3, 0], [2, 4, 6], [0, 5, 7]], 3, 3);
    EqualRect(BandE(1, 1, m), d, 3, 3);
  }

  /** A worked instance of the from_full test: with l = u = 0, from_full accepts
      a diagonal matrix and rejects one with an entry above the diagonal. */
  lemma FromFullExamples()
    ensures BandEC(0, 0, [[1, 0], [0, 2]]) == [[1, 0], [0, 2]]
    ensures BandEC(0, 0, [[1, 1], [0, 2]]) != [[1, 1], [0, 2]]
  {
    BandECIdentity(0, 0, [[1, 0], [0, 2]]);
    BandECIdentity(0, 0, [[1, 1], [0, 2]]);
    assert !InBand(0, 0, 0, 1);
  }
}
