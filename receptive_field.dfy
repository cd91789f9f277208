/**
 * The receptive-field sparsity mask built by `RBM.__init__` in deep-auto.py.
 * Each hidden unit k sees only an m x n rectangle of the M x N image whose top-left corner
 * (i[k], j[k]) was drawn at random; the mask is an n_hid x M x N boolean array that is then
 * flattened row-major to n_hid x (M*N). The random corners are inputs here.
 */
module ReceptiveField {
  import opened Wrappers
  import opened Reshape

  /** The `vis_shape` argument: a bare integer or a tuple of dimensions. */
  datatype ShapeArg = Int(n: nat) | Tuple(dims: seq<nat>)

  /** A non-tuple `vis_shape` is wrapped into a one-element tuple. */
  function VisShape(a: ShapeArg): seq<nat>
  {
    match a
    case Int(n) => [n]
    case Tuple(dims) => dims
  }

  /** `np.prod(vis_shape)`: the product of the dimensions, 1 for the empty tuple. */
  function Prod(dims: seq<nat>): nat
  {
    if dims == [] then 1 else dims[0] * Prod(dims[1..])
  }

  /** Why the source raises instead of building a mask. */
  datatype MaskError =
    | NotTwoDimensional   // `assert isinstance(vis_shape, tuple) and len(vis_shape) == 2`
    | FieldLargerThanImage // rng.randint(low=0, high=M-m+1) with an empty range

  /** Where the encoders' mask comes from. */
  datatype MaskSource =
    | NoMask
    | Given(mask: seq<seq<bool>>)
    | Receptive(rows: nat, cols: nat, fieldRows: nat, fieldCols: nat)

  /**
   * The decision at the head of the mask construction: a receptive-field mask is built only when
   * `rf_shape` is given and no mask is supplied, and then `vis_shape` must be two-dimensional and
   * the field must fit in the image for a corner to be drawable.
   */
  function PlanMask(visShape: ShapeArg, rfShape: Option<(nat, nat)>, mask: Option<seq<seq<bool>>>)
    : (r: Result<MaskSource, MaskError>)
    ensures r.Failure? ==> rfShape.Some? && mask.None?
    ensures r.Failure? && r.error == NotTwoDimensional <==>
      rfShape.Some? && mask.None? && |VisShape(visShape)| != 2
    ensures r.Failure? && r.error == FieldLargerThanImage <==>
      rfShape.Some? && mask.None? && |VisShape(visShape)| == 2 &&
      (rfShape.value.0 > VisShape(visShape)[0] || rfShape.value.1 > VisShape(visShape)[1])
    ensures mask.Some? ==> r == Success(Given(mask.value))
    ensures rfShape.None? && mask.None? ==> r == Success(NoMask)
    ensures r.Success? && r.value.Receptive? <==>
      rfShape.Some? && mask.None? && |VisShape(visShape)| == 2 &&
      rfShape.value.0 <= VisShape(visShape)[0] && rfShape.value.1 <= VisShape(visShape)[1]
    ensures r.Success? && r.value.Receptive? ==>
      VisShape(visShape) == [r.value.rows, r.value.cols] &&
      rfShape.value == (r.value.fieldRows, r.value.fieldCols)
  {
    if rfShape.Some? && mask.None? then
      var dims := VisShape(visShape);
      if |dims| != 2 then Failure(NotTwoDimensional)
      else
        var m, n := rfShape.value.0, rfShape.value.1;
        if m > dims[0] || n > dims[1] then Failure(FieldLargerThanImage)
        else Success(Receptive(dims[0], dims[1], m, n))
    else if mask.Some? then Success(Given(mask.value))
    else Success(NoMask)
  }

  /** A two-dimensional `vis_shape` has M*N visible units. */
  lemma VisibleCount(M: nat, N: nat)
    ensures Prod(VisShape(Tuple([M, N]))) == M * N
  {
    assert [N][1..] == [];
    assert Prod([N]) == N;
    assert [M, N][1..] == [N];
  }

  /**
   * Corner k lies in [0, M-m] x [0, N-n], which is what `rng.randint(low=0, high=M-m+1)` and
   * `rng.randint(low=0, high=N-n+1)` promise; hence each rectangle lies inside the image.
   */
  predicate CornersInRange(nHid: nat, M: nat, N: nat, m: nat, n: nat, ci: seq<nat>, cj: seq<nat>)
  {
    |ci| == nHid && |cj| == nHid &&
    forall k :: 0 <= k < nHid ==> ci[k] + m <= M && cj[k] + n <= N
  }

  /** Pixel (r, c) lies in the m x n rectangle whose top-left corner is (i, j). */
  predicate InField(i: nat, j: nat, m: nat, n: nat, r: int, c: int)
  {
    i <= r < i + m && j <= c < j + n
  }

  /** A rectangle whose corner is in range never leaves the image. */
  lemma FieldInsideImage(nHid: nat, M: nat, N: nat, m: nat, n: nat, ci: seq<nat>, cj: seq<nat>,
                         k: nat, r: int, c: int)
    requires CornersInRange(nHid, M, N, m, n, ci, cj) && k < nHid
    requires InField(ci[k], cj[k], m, n, r, c)
    ensures 0 <= r < M && 0 <= c < N
  {
  }

  /** The M x N grid of one unit's mask, before flattening. */
  function FieldGrid(M: nat, N: nat, m: nat, n: nat, i: nat, j: nat): seq<seq<bool>>
  {
    seq(M, r => seq(N, c => InField(i, j, m, n, r, c)))
  }

  /** One unit's mask row after `mask.reshape(n_hid, n_vis)`. */
  function FieldRow(M: nat, N: nat, m: nat, n: nat, i: nat, j: nat): seq<bool>
  {
    Concat(FieldGrid(M, N, m, n, i, j))
  }

  /** The flattened row has n_vis = M*N entries and entry r*N + c is true iff (r, c) is in the field. */
  lemma FieldRowAt(M: nat, N: nat, m: nat, n: nat, i: nat, j: nat, r: nat, c: nat)
    requires r < M && c < N
    ensures |FieldRow(M, N, m, n, i, j)| == M * N
    ensures r * N + c < M * N
    ensures FieldRow(M, N, m, n, i, j)[r * N + c] <==> InField(i, j, m, n, r, c)
  {
    var g := FieldGrid(M, N, m, n, i, j);
    ConcatLength(g, N);
    ConcatIndex(g, N, r, c);
  }

  /** Every position of a flattened row is r*N + c for exactly one in-image pixel (r, c). */
  lemma FlatPosition(M: nat, N: nat, p: nat)
    requires p < M * N
    ensures N > 0 && p / N < M && p % N < N && p == (p / N) * N + p % N
  {
    if N > 0 && p / N >= M {
      MulAtLeastOf(p / N, M, N);
    }
  }

  /** k >= M implies k*N >= M*N for N > 0. */
  lemma MulAtLeastOf(k: nat, M: nat, N: nat)
    requires k >= M && N > 0
    ensures k * N >= M * N
  {
    assert k * N == M * N + (k - M) * N;
  }

  /** Number of true entries of a boolean row. */
  function CountTrue(s: seq<bool>): nat
  {
    if s == [] then 0 else (if s[0] then 1 else 0) + CountTrue(s[1..])
  }

  /** Number of integers in [max(k, lo), hi). */
  function Window(k: int, lo: int, hi: int): nat
  {
    if hi <= k || hi <= lo then 0 else if k <= lo then hi - lo else hi - k
  }

  lemma {:induction false} CountTrueAppend(a: seq<bool>, b: seq<bool>)
    ensures CountTrue(a + b) == CountTrue(a) + CountTrue(b)
  {
    if a == [] {
      assert a + b == b;
    } else {
      CountTrueAppend(a[1..], b);
      assert (a + b)[0] == a[0];
      assert (a + b)[1..] == a[1..] + b;
    }
  }

  /** Sum of the true counts of the rows of a grid. */
  function RowCounts(rows: seq<seq<bool>>): nat
  {
    if rows == [] then 0 else CountTrue(rows[0]) + RowCounts(rows[1..])
  }

  lemma {:induction false} CountConcat(rows: seq<seq<bool>>)
    ensures CountTrue(Concat(rows)) == RowCounts(rows)
  {
    if rows != [] {
      CountTrueAppend(rows[0], Concat(rows[1..]));
      CountConcat(rows[1..]);
    }
  }

  /** A row that is true exactly on [lo, hi) has as many true entries from k on as the window. */
  lemma {:induction false} CountWindow(s: seq<bool>, lo: nat, hi: nat, k: nat)
    requires k <= |s| && hi <= |s|
    requires forall c :: 0 <= c < |s| ==> (s[c] <==> lo <= c < hi)
    ensures CountTrue(s[k..]) == Window(k, lo, hi)
    decreases |s| - k
  {
    if k < |s| {
      CountWindow(s, lo, hi, k + 1);
      assert s[k..][1..] == s[k + 1..];
    }
  }

  /** A grid whose row r holds w true entries when lo <= r < hi, and none otherwise. */
  lemma {:induction false} RowCountsWindow(g: seq<seq<bool>>, lo: nat, hi: nat, w: nat, k: nat)
    requires k <= |g| && hi <= |g|
    requires forall r :: 0 <= r < |g| ==> CountTrue(g[r]) == if lo <= r < hi then w else 0
    ensures RowCounts(g[k..]) == w * Window(k, lo, hi)
    decreases |g| - k
  {
    if k < |g| {
      RowCountsWindow(g, lo, hi, w, k + 1);
      assert g[k..][1..] == g[k + 1..];
      WindowStep(w, k, lo, hi);
    }
  }

  /** Moving the window's start past k drops w from the product exactly when k is inside it. */
  lemma WindowStep(w: nat, k: nat, lo: nat, hi: nat)
    ensures w * Window(k, lo, hi) == (if lo <= k < hi then w else 0) + w * Window(k + 1, lo, hi)
  {
    var x := Window(k + 1, lo, hi);
    if lo <= k < hi {
      assert Window(k, lo, hi) == x + 1;
      MulSucc(x, w);
    } else {
      assert Window(k, lo, hi) == x;
    }
  }

  /** Each unit's mask row has exactly m*n true entries. */
  lemma FieldRowCount(M: nat, N: nat, m: nat, n: nat, i: nat, j: nat)
    requires i + m <= M && j + n <= N
    ensures CountTrue(FieldRow(M, N, m, n, i, j)) == m * n
  {
    var g := FieldGrid(M, N, m, n, i, j);
    forall r | 0 <= r < M
      ensures CountTrue(g[r]) == if i <= r < i + m then n else 0
    {
      GridRowCount(M, N, m, n, i, j, r);
    }
    RowCountsWindow(g, i, i + m, n, 0);
    assert g[0..] == g;
    assert Window(0, i, i + m) == m;
    assert n * m == m * n;
    CountConcat(g);
  }

  /** Row r of a unit's grid holds n true entries inside the field's rows and none outside. */
  lemma GridRowCount(M: nat, N: nat, m: nat, n: nat, i: nat, j: nat, r: nat)
    requires r < M && j + n <= N
    ensures CountTrue(FieldGrid(M, N, m, n, i, j)[r]) == if i <= r < i + m then n else 0
  {
    var row := FieldGrid(M, N, m, n, i, j)[r];
    assert row[0..] == row;
    if i <= r < i + m {
      CountWindow(row, j, j + n, 0);
    } else {
      CountWindow(row, 0, 0, 0);
    }
  }

  /** `mask[k, i:i+m, j:j+n] = True`: sets one unit's rectangle and nothing else. */
  method SetField(mask: array3<bool>, k: nat, i: nat, j: nat, m: nat, n: nat)
    requires k < mask.Length0 && i + m <= mask.Length1 && j + n <= mask.Length2
    modifies mask
    ensures forall k', r, c :: 0 <= k' < mask.Length0 && 0 <= r < mask.Length1 && 0 <= c < mask.Length2 ==>
      mask[k', r, c] == ((k' == k && InField(i, j, m, n, r, c)) || old(mask[k', r, c]))
  {
    for r := i to i + m
      invariant forall k', r', c :: 0 <= k' < mask.Length0 && 0 <= r' < mask.Length1 && 0 <= c < mask.Length2 ==>
        mask[k', r', c] == ((k' == k && i <= r' < r && j <= c < j + n) || old(mask[k', r', c]))
    {
      for c := j to j + n
        invariant forall k', r', c' :: 0 <= k' < mask.Length0 && 0 <= r' < mask.Length1 && 0 <= c' < mask.Length2 ==>
          mask[k', r', c'] == ((k' == k && ((i <= r' < r && j <= c' < j + n) || (r' == r && j <= c' < c)))
                               || old(mask[k', r', c']))
      {
        mask[k, r, c] := true;
      }
    }
  }

  /** The grid of unit k in a three-dimensional mask. */
  function Grid(mask: array3<bool>, k: nat): seq<seq<bool>>
    reads mask
    requires k < mask.Length0
  {
    seq(mask.Length1, r requires 0 <= r < mask.Length1 reads mask =>
      seq(mask.Length2, c requires 0 <= c < mask.Length2 reads mask => mask[k, r, c]))
  }

  /**
   * Allocates the all-false n_hid x M x N mask, sets each unit's rectangle in a loop over the units,
   * and returns it reshaped to n_hid rows of M*N entries.
   */
  method BuildMask(nHid: nat, M: nat, N: nat, m: nat, n: nat, ci: seq<nat>, cj: seq<nat>)
    returns (mask: seq<seq<bool>>)
    requires CornersInRange(nHid, M, N, m, n, ci, cj)
    ensures |mask| == nHid && Uniform(mask, M * N)
    ensures forall k :: 0 <= k < nHid ==> mask[k] == FieldRow(M, N, m, n, ci[k], cj[k])
  {
    var grid := new bool[nHid, M, N]((_, _, _) => false);
    for k := 0 to nHid
      invariant forall k', r, c :: 0 <= k' < nHid && 0 <= r < M && 0 <= c < N ==>
        grid[k', r, c] == (k' < k && InField(ci[k'], cj[k'], m, n, r, c))
    {
      SetField(grid, k, ci[k], cj[k], m, n);
    }
    mask := seq(nHid, k requires 0 <= k < nHid reads grid => Concat(Grid(grid, k)));
    forall k | 0 <= k < nHid
      ensures mask[k] == FieldRow(M, N, m, n, ci[k], cj[k]) && |mask[k]| == M * N
    {
      forall r | 0 <= r < M
        ensures Grid(grid, k)[r] == FieldGrid(M, N, m, n, ci[k], cj[k])[r]
      {
      }
      assert Grid(grid, k) == FieldGrid(M, N, m, n, ci[k], cj[k]);
      ConcatLength(Grid(grid, k), N);
    }
  }
}
