# bandmat core in Dafny

This project models the banded square matrix of the bandmat library. It covers the
`BandMat` store and the three reference conversions between a compact buffer and a
dense matrix. It then proves, for all inputs, the exact equalities the library's
core test suite checks on random inputs.

A matrix with `l` sub-diagonals and `u` super-diagonals is stored as a compact
buffer with `l + u + 1` rows and `size` columns. Dense entry `(i, j)` sits at buffer
cell `(u + i - j, j)` when `-u <= i - j <= l`. Every other dense entry is zero.

- `band_full.dfy`, module `BandFull`: the reference conversions `band_c`
  (compact to dense), `band_e` (dense to compact, unchecked) and `band_ec`
  (`band_c` after `band_e`). They are pure functions over `seq<seq<int>>`, with
  lemmas about them: the from_full condition, idempotence, narrowing, the round
  trip, transposition, and the sub-band window.
- `band_core.dfy`, module `BandCore`: `BandMat` is a class over an `array2<int>`
  buffer. It has the constants `l`, `u`, `transposed` and `offset`, the first buffer
  row that belongs to the matrix. A numpy view is one buffer plus a row offset:
  - `T` and `band_ec_bm_view` (on a sub-band) share the buffer. `band_ec_bm_view`
    makes no zero check on the dropped diagonals: bandmat/test_core.py:161-171
    requires its `full()` to equal `band_ec(l, u, a.full())` for every target band,
    including on data that is nonzero outside `(l, u)`;
  - `copy`, `copy_exact`, `zeros`, `from_full`, `band_e_bm` and `band_ec_bm`
    allocate a fresh one;
  - `band_c_bm` wraps the given buffer without copying it.
- `core_tests.dfy`, module `CoreTests`: the copy and mutate tests as client
  methods, plus two concrete examples.

`full()` is the function `BandMat.Full`. It follows the representation: it is
`band_c(l, u, rows)` when not transposed, and the transpose of
`band_c(u, l, rows)` when transposed. `BandMat.Get` reads one dense entry straight
from the buffer and is proved equal to `Full()` at every index. The buffer
methods `CopyExact` and `BandEBm`, and the scan of a dense matrix
`CheckZeroOutsideBand`, are loops proved against these functions.

A numpy `+=` on a BandMat's data is `BandMat.AddToAll`. The test that mutating a
copy leaves the original alone is stated as `CopyExactThenMutate` and
`CopyThenMutate`. Neither has a `modifies` clause, so the original's buffer
provably cannot change.

## Model

| member | source | states |
|---|---|---|
| BandFull.BandC | bandmat/test_core.py:52-54 | band_c of an (l+u+1) x size buffer is a size x size matrix |
| BandFull.BandE | bandmat/test_core.py:156-158 | band_e of a size x size matrix is an (l+u+1) x size buffer |
| BandFull.BandEC | bandmat/test_core.py:127 | band_ec of a square matrix is a square matrix of the same size |
| BandFull.ZeroMatrix | bandmat/test_core.py:119 | the rows x cols matrix whose every entry is 0 |
| BandFull.Transpose | bandmat/test_core.py:61 | the transpose of a square matrix is square of the same size |
| BandFull.BandECAt | bandmat/test_core.py:127 | band_ec keeps every entry inside the band (l, u) and makes every entry outside it 0 |
| BandFull.BandCZeroOutside | bandmat/test_core.py:52-54 | band_c never puts a nonzero entry outside its band |
| BandFull.BandECIdentity | bandmat/test_core.py:127-135 | band_ec(l, u, M) == M holds exactly when every entry of M outside the band is 0 (both directions) |
| BandFull.BandECIdempotent | bandmat/test_core.py:127 | a property of the model's band_ec (used at this line): applying it twice with the same band is the same as applying it once |
| BandFull.BandECNarrow | bandmat/test_core.py:182 | a property of the model's band_ec (used at this line): band_ec(l2, u2) after band_ec(l, u) is band_ec with the smaller of each bandwidth |
| BandFull.BandERoundTrip | bandmat/test_core.py:142-147 | a property of the model's band_c and band_e (band_c is used at these lines): band_e(band_c(rect)) gives back every buffer cell that stands for a dense entry, and 0 in the unused corner cells |
| BandFull.TransposeInvolution | bandmat/test_core.py:61 | transposing twice gives the matrix back |
| BandFull.TransposeZeroOutside | bandmat/test_core.py:51-54 | a matrix zero outside band (l, u) has a transpose zero outside band (u, l) |
| BandFull.TransposeBandEC | bandmat/test_core.py:161-171 | transposing band_ec(l, u, M) gives band_ec(u, l, M transposed) |
| BandFull.BandCZeros | bandmat/test_core.py:116-119 | the all-zero buffer stands for the size x size zero matrix |
| BandFull.BandCWindow | bandmat/test_core.py:161-171 | for l2 <= l and u2 <= u, buffer rows u-u2 .. u+l2 read with (l2, u2) give band_ec(l2, u2) of the original dense matrix |
| BandCore.BandMat.Size | bandmat/test_core.py:38 | the dimension of the matrix is the buffer's column count: the matrix's l+u+1 rows each have Size() cells |
| BandCore.BandMat.Rect | bandmat/test_core.py:27 | the matrix's rows form a well-shaped (l+u+1) x size compact buffer |
| BandCore.BandMat.Full | bandmat/test_core.py:51-54 | full() is a size x size matrix |
| BandCore.BandMat.Get | bandmat/test_core.py:51-54 | reading entry (i, j) straight from the buffer, honouring the flag, equals full()[i][j] |
| BandCore.BandMat.constructor | bandmat/test_core.py:27-38 | BandMat(l, u, data, transposed) keeps l, u, the flag and the buffer itself, and its size is the buffer's column count |
| BandCore.BandMat.View | bandmat/test_core.py:161-171 | a BandMat over rows offset .. offset+l+u of a shared buffer |
| BandCore.BandMat.T | bandmat/test_core.py:56-61 | T swaps l and u, flips the flag, shares the buffer and rows, and T.full() is full() transposed |
| BandCore.BandMat.CopyExact | bandmat/test_core.py:63-79 | copy_exact keeps l, u and the flag, holds the same rows in a fresh buffer, and stands for the same dense matrix |
| BandCore.BandMat.Copy | bandmat/test_core.py:81-97 | copy keeps l and u, is never transposed, has a fresh buffer and the same full() |
| BandCore.BandMat.Canonicalized | bandmat/test_core.py:99-108 | canonicalized keeps l and u, is never transposed, has the same full(); it is the object itself when not transposed and has a fresh buffer otherwise |
| BandCore.BandMat.AddToAll | bandmat/test_core.py:78 | data += x adds x to every cell of the matrix's own rows and leaves the rest of the buffer unchanged |
| BandCore.FullInBand | bandmat/test_core.py:51-54 | full() of every BandMat, transposed or not, is zero outside its band (l, u) |
| BandCore.FullFollowsRepresentation | bandmat/test_core.py:46-54 | not transposed, full() == band_c(l, u, data); transposed, full() transposed == band_c(u, l, data) |
| BandCore.Zeros | bandmat/test_core.py:110-119 | zeros(l, u, size) keeps l and u, is not transposed, has size columns and full() is the size x size zero matrix |
| BandCore.BandCBm | bandmat/test_core.py:137-147 | band_c_bm(l, u, rect) wraps rect itself and its full() == band_c(l, u, rect) |
| BandCore.CheckZeroOutsideBand | bandmat/test_core.py:127 | the scan returns true exactly when every entry outside the band is 0 |
| BandCore.FromFull | bandmat/test_core.py:121-135 | from_full succeeds exactly when band_ec(l, u, M) == M, then keeps l and u, is not transposed and full() == M; otherwise it reports a band violation |
| BandCore.BandEBm | bandmat/test_core.py:149-159 | band_e_bm(l, u, a) is a fresh buffer equal to band_e(l, u, a.full()), for any target (l, u) |
| BandCore.BandEcBm | bandmat/test_core.py:173-183 | band_ec_bm(l, u, a) is a fresh non-transposed BandMat with bandwidths (l, u) and full() == band_ec(l, u, a.full()) |
| BandCore.BandEcBmView | bandmat/test_core.py:161-171 | band_ec_bm_view(l, u, a).full() == band_ec(l, u, a.full()) for every target; on a sub-band it shares a's buffer, keeps a's flag and starts a.u - u rows into a's rows (a.l - l when transposed); otherwise it has a fresh buffer |
| BandCore.SubBandViewFull | bandmat/test_core.py:161-171 | a BandMat over those rows of a's buffer stands for band_ec(l, u, a.full()) whatever the buffer holds, so the view follows every write to the shared buffer |
| CoreTests.CopyExactThenMutate | bandmat/test_core.py:63-79 | the copy keeps l, u and the flag, stands for a.full(), and after data += x on the copy only the copy's rows changed while a.full() did not |
| CoreTests.CopyThenMutate | bandmat/test_core.py:81-97 | the copy keeps l and u, is not transposed, its rows stood for a.full(), and after data += x on the copy a.full() is unchanged |
| CoreTests.TransposeThenMutate | bandmat/test_core.py:61 | the buffer sharing of the lazy T (the test itself mutates nothing): T shares the buffer, and after data += x through the original, T.full() is still the original's full() transposed |
| CoreTests.ViewThenMutate | bandmat/test_core.py:168-171 | the buffer sharing of band_ec_bm_view on a sub-band: after data += x through the original, the view still stands for band_ec(l, u) of the original's new full() |
| CoreTests.TridiagonalExample | bandmat/test_core.py:51-61 | a worked instance of these tests: the tridiagonal [[1,2,0],[3,4,5],[0,6,7]] and its buffer convert into each other, and its transpose is [[1,3,0],[2,4,6],[0,5,7]] |
| CoreTests.FromFullExamples | bandmat/test_core.py:127-135 | a worked instance of this test: with l = u = 0, band_ec keeps [[1,0],[0,2]] and changes [[1,1],[0,2]] |

## Left out

- Element values are integers, not floating point. Every test compares for exact
  equality, and `+= 1.0` becomes `AddToAll(x)` for any integer x.
- The implementation modules bandmat/core.pyx and bandmat/full.pyx are not part of
  this model. The operations are modelled on the contracts the tests state. The
  buffer layout `copy` uses for a transposed matrix is one of these: the model fills
  the new buffer with `band_e(l, u, full())`.
- BandFull.BandE: the corner cells of the buffer whose row falls outside the
  matrix are set to 0. The source does not pin down their value. No round trip is
  claimed for those cells, and BandERoundTrip says so.
- BandCore.BandEcBmView: the fallback for a target band that is not a sub-band is
  not fixed by the source. The model allocates a new buffer there, through
  `band_ec_bm`, because the test requires success for every target band.
- Shape errors are preconditions, not error results: a buffer without `l + u + 1`
  rows, and a dense matrix that is not square. This is the model's choice: the
  tests only ever build well-shaped buffers (bandmat/test_core.py:27, 142) and
  square matrices, and check no shape error. Negative bandwidths and sizes cannot
  arise, since they are `nat`.
- Random test-case generation and the equality helper are not modelled. The
  properties are stated for all inputs instead.
- The build script and the other modules it lists (tensor, linalg, misc, overlap)
  are not modelled. They are build plumbing, or consumers of this representation.
- Views into buffers of other strides, and reassigning a BandMat's attributes, are
  not modelled. The fields are constants, and only the buffer's contents change.
