/** The banded matrix store of bandmat.core: BandMat and the functions that build
    and re-band it.

    A BandMat's data is a numpy array that may be a view into a larger buffer.  The
    model gives each BandMat the underlying buffer (an array2) and the first row of
    the buffer that belongs to it: a view shares the buffer, a copy allocates a
    new one. */
module BandCore {
  import opened BandFull

  datatype Error = BandViolation
  datatype Result<T> = Ok(value: T) | Err(error: Error)

  /** Rows r0 .. r0 + rows - 1 of a buffer, as a value. */
  function Window(a: array2<int>, r0: nat, rows: nat): (w: Matrix)
    reads a
    requires r0 + rows <= a.Length0
    ensures IsRect(w, rows, a.Length1)
    ensures forall k, j :: 0 <= k < rows && 0 <= j < a.Length1 ==> w[k][j] == a[r0 + k, j]
  {
    seq(rows, k requires 0 <= k < rows reads a =>
      seq(a.Length1, j requires 0 <= j < a.Length1 reads a => a[r0 + k, j]))
  }

  class BandMat {
    /** number of sub-diagonals */
    const l: nat
    /** number of super-diagonals */
    const u: nat
    /** the buffer holding this matrix's compact rows, possibly shared with other BandMats */
    const data: array2<int>
    /** the first of the l + u + 1 rows of data that belong to this matrix */
    const offset: nat
    /** read the rows with l and u swapped, and transpose the result */
    const transposed: bool

    predicate Valid() {
      offset + l + u + 1 <= data.Length0
    }

    /** The dimension of the square matrix: the buffer's column count, so each of
        the matrix's l + u + 1 rows has Size() cells. */
    function Size(): (n: nat)
      reads data
      ensures Valid() ==> IsRect(Window(data, offset, l + u + 1), l + u + 1, n)
    {
      data.Length1
    }

    /** This matrix's (l + u + 1) x size compact rows. */
    function Rect(): (r: Matrix)
      reads data
      requires Valid()
      ensures IsCompact(l, u, r) && SizeOf(r) == Size()
    {
      Window(data, offset, l + u + 1)
    }

    /** The dense matrix this BandMat stands for. */
    function Full(): (m: Matrix)
      reads data
      requires Valid()
      ensures IsSquare(m) && |m| == Size()
    {
      if transposed then Transpose(BandC(u, l, Rect())) else BandC(l, u, Rect())
    }

    /** Entry (i, j) of the dense matrix, read straight from the buffer. */
    function Get(i: nat, j: nat): (x: int)
      reads data
      requires Valid() && i < Size() && j < Size()
      ensures x == Full()[i][j]
    {
      if transposed then
        (if InBand(u, l, j, i) then data[offset + l + j - i, i] else 0)
      else
        (if InBand(l, u, i, j) then data[offset + u + i - j, j] else 0)
    }

    /** BandMat(l, u, data, transposed): wraps the buffer without copying it. */
    constructor (l: nat, u: nat, data: array2<int>, transposed: bool)
      requires data.Length0 == l + u + 1
      ensures this.l == l && this.u == u && this.data == data
      ensures this.offset == 0 && this.transposed == transposed
      ensures Valid() && Size() == data.Length1
    {
      this.l, this.u, this.data := l, u, data;
      this.offset, this.transposed := 0, transposed;
    }

    /** A BandMat over rows offset .. offset + l + u of a shared buffer. */
    constructor View(l: nat, u: nat, data: array2<int>, offset: nat, transposed: bool)
      requires offset + l + u + 1 <= data.Length0
      ensures this.l == l && this.u == u && this.data == data
      ensures this.offset == offset && this.transposed == transposed
      ensures Valid()
    {
      this.l, this.u, this.data := l, u, data;
      this.offset, this.transposed := offset, transposed;
    }

    /** The lazy transpose: the same rows of the same buffer, l and u swapped and
        the flag flipped. */
    method T() returns (t: BandMat)
      requires Valid()
      ensures t.Valid() && t.l == u && t.u == l && t.transposed == !transposed
      ensures t.data == data && t.offset == offset
      ensures t.Full() == Transpose(Full())
    {
      t := new BandMat.View(u, l, data, offset, !transposed);
      assert t.Rect() == Rect();
      if transposed {
        TransposeInvolution(BandC(u, l, Rect()));
      }
    }

    /** copy_exact: the same l, u and flag over a new buffer holding the same rows. */
    method CopyExact() returns (c: BandMat)
      requires Valid()
      ensures fresh(c) && fresh(c.data) && c.Valid() && c.offset == 0
      ensures c.l == l && c.u == u && c.transposed == transposed && c.Size() == Size()
      ensures c.Rect() == Rect() && c.Full() == Full()
    {
      var rows, n := l + u + 1, Size();
      var buf := new int[rows, n];
      var k := 0;
      while k < rows
        invariant 0 <= k <= rows
        invariant forall k', j :: 0 <= k' < k && 0 <= j < n ==> buf[k', j] == data[offset + k', j]
      {
        var j := 0;
        while j < n
          invariant 0 <= j <= n
          invariant forall k', j' :: 0 <= k' < k && 0 <= j' < n ==> buf[k', j'] == data[offset + k', j']
          invariant forall j' :: 0 <= j' < j ==> buf[k, j'] == data[offset + k, j']
        {
          buf[k, j] := data[offset + k, j];
          j := j + 1;
        }
        k := k + 1;
      }
      c := new BandMat(l, u, buf, transposed);
      EqualRect(c.Rect(), Rect(), rows, n);
    }

    /** copy: a non-transposed BandMat with the same l and u over a new buffer,
        standing for the same dense matrix. */
    method Copy() returns (c: BandMat)
      requires Valid()
      ensures fresh(c) && fresh(c.data) && c.Valid() && c.offset == 0
      ensures c.l == l && c.u == u && !c.transposed && c.Size() == Size()
      ensures c.Full() == Full()
    {
      if !transposed {
        c := CopyExact();
      } else {
        var buf := BandEBm(l, u, this);
        c := new BandMat(l, u, buf, false);
        FullInBand(this);
        BandECIdentity(l, u, Full());
      }
    }

    /** canonicalized: this BandMat itself when it is not transposed, otherwise a
        non-transposed copy. */
    method Canonicalized() returns (c: BandMat)
      requires Valid()
      ensures c.Valid() && c.l == l && c.u == u && !c.transposed
      ensures c.Full() == Full()
      ensures !transposed ==> c == this
      ensures transposed ==> fresh(c.data)
    {
      if transposed {
        c := Copy();
      } else {
        c := this;
      }
    }

    /** data += x: adds x to every cell of this matrix's rows, in place; the rest of
        a shared buffer is left alone. */
    method AddToAll(x: int)
      requires Valid()
      modifies data
      ensures forall r, j :: 0 <= r < data.Length0 && 0 <= j < data.Length1 ==>
        data[r, j] == old(data[r, j]) + (if offset <= r < offset + l + u + 1 then x else 0)
    {
      forall r, j | offset <= r < offset + l + u + 1 && 0 <= j < data.Length1 {
        data[r, j] := data[r, j] + x;
      }
    }
  }

  /** The dense matrix of every BandMat is zero outside its band (l, u). */
  lemma FullInBand(a: BandMat)
    requires a.Valid()
    ensures ZeroOutsideBand(a.l, a.u, a.Full())
  {
    if a.transposed {
      BandCZeroOutside(a.u, a.l, a.Rect());
      TransposeZeroOutside(a.u, a.l, BandC(a.u, a.l, a.Rect()));
    } else {
      BandCZeroOutside(a.l, a.u, a.Rect());
    }
  }

  /** The representation: not transposed, the dense matrix is band_c(l, u, data);
      transposed, its transpose is band_c(u, l, data). */
  lemma FullFollowsRepresentation(a: BandMat)
    requires a.Valid()
    ensures !a.transposed ==> a.Full() == BandC(a.l, a.u, a.Rect())
    ensures a.transposed ==> Transpose(a.Full()) == BandC(a.u, a.l, a.Rect())
  {
    if a.transposed {
      TransposeInvolution(BandC(a.u, a.l, a.Rect()));
    }
  }

  /** zeros(l, u, size): a new non-transposed BandMat over an all-zero buffer. */
  method Zeros(l: nat, u: nat, size: nat) returns (a: BandMat)
    ensures fresh(a) && fresh(a.data) && a.Valid()
    ensures a.l == l && a.u == u && !a.transposed && a.Size() == size
    ensures a.Full() == ZeroMatrix(size, size)
  {
    var buf := new int[l + u + 1, size]((k, j) => 0);
    a := new BandMat(l, u, buf, false);
    EqualRect(a.Rect(), ZeroMatrix(l + u + 1, size), l + u + 1, size);
    BandCZeros(l, u, size);
  }

  /** band_c_bm(l, u, rect): a non-transposed BandMat wrapping rect itself. */
  method BandCBm(l: nat, u: nat, rect: array2<int>) returns (a: BandMat)
    requires rect.Length0 == l + u + 1
    ensures a.Valid() && a.data == rect && a.offset == 0
    ensures a.l == l && a.u == u && !a.transposed && a.Size() == rect.Length1
    ensures a.Full() == BandC(l, u, Window(rect, 0, l + u + 1))
  {
    a := new BandMat(l, u, rect, false);
  }

  /** The check from_full makes: does m have a nonzero entry outside the band? */
  method CheckZeroOutsideBand(l: nat, u: nat, m: Matrix) returns (ok: bool)
    requires IsSquare(m)
    ensures ok <==> ZeroOutsideBand(l, u, m)
  {
    var n := |m|;
    var i := 0;
    while i < n
      invariant 0 <= i <= n
      invariant forall i', j :: 0 <= i' < i && 0 <= j < n && !InBand(l, u, i', j) ==> m[i'][j] == 0
    {
      var j := 0;
      while j < n
        invariant 0 <= j <= n
        invariant forall j' :: 0 <= j' < j && !InBand(l, u, i, j') ==> m[i][j'] == 0
      {
        if !InBand(l, u, i, j) && m[i][j] != 0 {
          return false;
        }
        j := j + 1;
      }
      i := i + 1;
    }
    return true;
  }

  /** from_full(l, u, m): a new non-transposed BandMat standing for m when m is zero
      outside the band (l, u); a band violation otherwise. */
  method FromFull(l: nat, u: nat, m: Matrix) returns (r: Result<BandMat>)
    requires IsSquare(m)
    ensures r.Ok? <==> BandEC(l, u, m) == m
    ensures r.Ok? <==> ZeroOutsideBand(l, u, m)
    ensures r.Ok? ==> fresh(r.value) && fresh(r.value.data) && r.value.Valid()
    ensures r.Ok? ==> r.value.l == l && r.value.u == u && !r.value.transposed
    ensures r.Ok? ==> r.value.Full() == m
  {
    BandECIdentity(l, u, m);
    var ok := CheckZeroOutsideBand(l, u, m);
    if !ok {
      return Err(BandViolation);
    }
    var n := |m|;
    var e := BandE(l, u, m);
    var buf := new int[l + u + 1, n]((k, j) => if 0 <= k < l + u + 1 && 0 <= j < n then e[k][j] else 0);
    var a := new BandMat(l, u, buf, false);
    EqualRect(a.Rect(), e, l + u + 1, n);
    r := Ok(a);
  }

  /** band_e_bm(l, u, a): a new compact buffer for the band (l, u) of a's dense
      matrix, read straight from a's buffer, for any target (l, u). */
  method BandEBm(l: nat, u: nat, a: BandMat) returns (rect: array2<int>)
    requires a.Valid()
    ensures fresh(rect) && rect.Length0 == l + u + 1 && rect.Length1 == a.Size()
    ensures Window(rect, 0, l + u + 1) == BandE(l, u, a.Full())
  {
    var rows, n := l + u + 1, a.Size();
    ghost var e := BandE(l, u, a.Full());
    rect := new int[rows, n];
    var k := 0;
    while k < rows
      invariant 0 <= k <= rows
      invariant forall k', j :: 0 <= k' < k && 0 <= j < n ==> rect[k', j] == e[k'][j]
    {
      var j := 0;
      while j < n
        invariant 0 <= j <= n
        invariant forall k', j' :: 0 <= k' < k && 0 <= j' < n ==> rect[k', j'] == e[k'][j']
        invariant forall j' :: 0 <= j' < j ==> rect[k, j'] == e[k][j']
      {
        var i := j + k - u;
        rect[k, j] := if 0 <= i < n then a.Get(i, j) else 0;
        j := j + 1;
      }
      k := k + 1;
    }
    EqualRect(Window(rect, 0, rows), e, rows, n);
  }

  /** band_ec_bm(l, u, a): a new non-transposed BandMat standing for
      band_ec(l, u, a.full()). */
  method BandEcBm(l: nat, u: nat, a: BandMat) returns (b: BandMat)
    requires a.Valid()
    ensures fresh(b) && fresh(b.data) && b.Valid() && b.offset == 0
    ensures b.l == l && b.u == u && !b.transposed && b.Size() == a.Size()
    ensures b.Full() == BandEC(l, u, a.Full())
  {
    var rect := BandEBm(l, u, a);
    b := new BandMat(l, u, rect, false);
  }

  /** The rows of a's buffer that hold the band (b.l, b.u) of a's matrix when that
      band is a sub-band of a's: b shares a's buffer and flag, and its rows start
      a.u - b.u rows into a's (a.l - b.l when transposed, where the rows are read
      against (a.u, a.l)). */
  ghost predicate IsSubBandView(b: BandMat, a: BandMat) {
    b.l <= a.l && b.u <= a.u && b.data == a.data && b.transposed == a.transposed &&
    b.offset == a.offset + (if a.transposed then a.l - b.l else a.u - b.u)
  }

  /** A sub-band view, whatever the buffer holds, stands for band_ec of the
      matrix it views; so it follows every write to the shared buffer. */
  lemma SubBandViewFull(b: BandMat, a: BandMat)
    requires a.Valid() && IsSubBandView(b, a)
    ensures b.Valid() && b.Full() == BandEC(b.l, b.u, a.Full())
  {
    var l, u := b.l, b.u;
    if a.transposed {
      assert b.Rect() == a.Rect()[a.l - l .. a.l + u + 1];
      BandCWindow(a.u, a.l, u, l, a.Rect());
      TransposeBandEC(u, l, BandC(a.u, a.l, a.Rect()));
      TransposeInvolution(BandC(a.u, a.l, a.Rect()));
    } else {
      assert b.Rect() == a.Rect()[a.u - u .. a.u + l + 1];
      BandCWindow(a.l, a.u, l, u, a.Rect());
    }
  }

  /** band_ec_bm_view(l, u, a): stands for band_ec(l, u, a.full()).  When (l, u) is
      a sub-band of a's, the result is a view of a's buffer (rows of it, keeping a's
      flag); otherwise the rows do not exist and a new buffer is allocated. */
  method BandEcBmView(l: nat, u: nat, a: BandMat) returns (b: BandMat)
    requires a.Valid()
    ensures b.Valid() && b.l == l && b.u == u && b.Size() == a.Size()
    ensures b.Full() == BandEC(l, u, a.Full())
    ensures l <= a.l && u <= a.u ==>
      b.data == a.data && b.transposed == a.transposed &&
      b.offset == a.offset + (if a.transposed then a.l - l else a.u - u)
    ensures !(l <= a.l && u <= a.u) ==> fresh(b.data) && !b.transposed
  {
    if l <= a.l && u <= a.u {
      var shift := if a.transposed then a.l - l else a.u - u;
      b := new BandMat.View(l, u, a.data, a.offset + shift, a.transposed);
      SubBandViewFull(b, a);
    } else {
      b := BandEcBm(l, u, a);
    }
  }
}
