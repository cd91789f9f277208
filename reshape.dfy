/**
 * Row-major reshapes of a leading axis, as numpy performs them:
 * `mask.reshape(n_hid, n_vis)` lays the rows of a grid end to end (Concat), and
 * `images.reshape(-1, size, ...)` groups consecutive rows into equal batches (Batches).
 * Python's `zip` over two partitions is Zip.
 */
module Reshape {
  import opened Wrappers

  /** Every row of `rows` has exactly `n` elements. */
  predicate Uniform<T>(rows: seq<seq<T>>, n: nat)
  {
    forall r :: 0 <= r < |rows| ==> |rows[r]| == n
  }

  /** The rows laid end to end, first row first (row-major flattening). */
  function Concat<T>(rows: seq<seq<T>>): seq<T>
  {
    if rows == [] then [] else rows[0] + Concat(rows[1..])
  }

  lemma {:induction false} ConcatLength<T>(rows: seq<seq<T>>, n: nat)
    requires Uniform(rows, n)
    ensures |Concat(rows)| == |rows| * n
  {
    if rows != [] {
      ConcatLength(rows[1..], n);
      assert |rows| * n == n + (|rows| - 1) * n;
    }
  }

  /** Flattening sends entry (r, c) of a grid with rows of width n to position r*n + c. */
  lemma {:induction false} ConcatIndex<T>(rows: seq<seq<T>>, n: nat, r: nat, c: nat)
    requires Uniform(rows, n)
    requires r < |rows| && c < n
    ensures r * n + c < |Concat(rows)| && Concat(rows)[r * n + c] == rows[r][c]
  {
    ConcatLength(rows, n);
    if r > 0 {
      ConcatIndex(rows[1..], n, r - 1, c);
      assert r * n + c == n + ((r - 1) * n + c);
    }
  }

  /** A positive multiple of a positive size is at least that size. */
  lemma {:induction false} MulAtLeast(k: int, size: int)
    requires size > 0 && k >= 1
    ensures k * size >= size
  {
    if k > 1 {
      MulAtLeast(k - 1, size);
      assert k * size == (k - 1) * size + size;
    }
  }

  /** Euclidean division by a positive size has a unique quotient and remainder. */
  lemma DivModUnique(x: int, size: int, q: int, m: int)
    requires size > 0 && 0 <= m < size && x == q * size + m
    ensures x / size == q && x % size == m
  {
    var q', m' := x / size, x % size;
    assert (q - q') * size == m' - m;
    if q - q' >= 1 {
      MulAtLeast(q - q', size);
    } else if q' - q >= 1 {
      MulAtLeast(q' - q, size);
    }
  }

  /** Removing one batch's worth of rows keeps the remainder modulo the batch size. */
  lemma ModStep(x: int, size: int)
    requires size > 0 && x >= size
    ensures (x - size) % size == x % size
  {
    var q, m := x / size, x % size;
    assert x - size == (q - 1) * size + m;
    DivModUnique(x - size, size, q - 1, m);
  }

  /**
   * `rows.reshape(-1, size, ...)`: consecutive batches of `size` rows, or None when the row
   * count is not a multiple of `size` (numpy raises an error then).
   */
  function Batches<T>(rows: seq<T>, size: nat): (r: Option<seq<seq<T>>>)
    requires size > 0
    ensures r.Some? <==> |rows| % size == 0
    decreases |rows|
  {
    if |rows| == 0 then Some([])
    else if |rows| < size then None
    else
      ModStep(|rows|, size);
      match Batches(rows[size..], size)
      case None => None
      case Some(rest) => Some([rows[..size]] + rest)
  }

  /** Every batch has `size` rows, and laying the batches end to end gives the input back. */
  lemma {:induction false} BatchesFlatten<T>(rows: seq<T>, size: nat)
    requires size > 0 && Batches(rows, size).Some?
    ensures Uniform(Batches(rows, size).value, size)
    ensures Concat(Batches(rows, size).value) == rows
    decreases |rows|
  {
    if |rows| > 0 {
      BatchesFlatten(rows[size..], size);
      assert rows == rows[..size] + rows[size..];
    }
  }

  /** (b + 1) * size == b * size + size. */
  lemma MulSucc(b: int, size: int)
    ensures (b + 1) * size == b * size + size
  {
  }

  /** There are |rows| / size batches. */
  lemma {:induction false} BatchCount<T>(rows: seq<T>, size: nat)
    requires size > 0 && Batches(rows, size).Some?
    ensures |Batches(rows, size).value| * size == |rows|
    ensures |Batches(rows, size).value| == |rows| / size
  {
    var bs := Batches(rows, size).value;
    if |rows| > 0 {
      BatchCount(rows[size..], size);
      MulSucc(|bs| - 1, size);
    }
    DivModUnique(|rows|, size, |bs|, 0);
  }

  /** Inputs of the same length yield the same number of batches, or fail together. */
  lemma {:induction false} SameLengthSameBatches<A, B>(xs: seq<A>, ys: seq<B>, size: nat)
    requires size > 0 && |xs| == |ys|
    ensures Batches(xs, size).Some? <==> Batches(ys, size).Some?
    ensures Batches(xs, size).Some? ==> |Batches(xs, size).value| == |Batches(ys, size).value|
    decreases |xs|
  {
    if |xs| >= size {
      SameLengthSameBatches(xs[size..], ys[size..], size);
    }
  }

  /** Batch b holds rows b*size .. b*size + size - 1 in their original order. */
  lemma {:induction false} BatchSlice<T>(rows: seq<T>, size: nat, b: nat)
    requires size > 0 && Batches(rows, size).Some?
    requires b < |Batches(rows, size).value|
    ensures b * size + size <= |rows|
    ensures Batches(rows, size).value[b] == rows[b * size .. b * size + size]
  {
    var bs := Batches(rows, size).value;
    if b > 0 {
      var rest := Batches(rows[size..], size).value;
      assert bs == [rows[..size]] + rest;
      BatchSlice(rows[size..], size, b - 1);
      MulSucc(b - 1, size);
      var lo := (b - 1) * size;
      assert lo + size == b * size;
      assert bs[b] == rest[b - 1] == rows[size..][lo .. lo + size];
      assert rows[size..][lo .. lo + size] == rows[b * size .. b * size + size];
    }
  }

  /** Reshaping a flattened stack of equal batches gives the batches back. */
  lemma {:induction false} BatchesOfConcat<T>(bs: seq<seq<T>>, size: nat)
    requires size > 0 && Uniform(bs, size)
    ensures Batches(Concat(bs), size) == Some(bs)
  {
    if bs != [] {
      BatchesOfConcat(bs[1..], size);
      assert Concat(bs)[size..] == Concat(bs[1..]);
      assert Concat(bs)[..size] == bs[0];
      assert bs == [bs[0]] + bs[1..];
    }
  }

  /** Python's zip: pairs the k-th elements, stopping at the shorter input. */
  function Zip<A, B>(xs: seq<A>, ys: seq<B>): (z: seq<(A, B)>)
    ensures |z| == if |xs| <= |ys| then |xs| else |ys|
    ensures forall k :: 0 <= k < |z| ==> z[k] == (xs[k], ys[k])
  {
    if xs == [] || ys == [] then [] else [(xs[0], ys[0])] + Zip(xs[1..], ys[1..])
  }

  /**
   * Partitioning equally long images and labels into batches of the same size succeeds for both
   * or for neither, gives the same batch count, and pair b of the zip holds rows
   * b*size .. b*size + size - 1 of the images and of the labels.
   */
  lemma PartitionsAligned<A, B>(images: seq<A>, labels: seq<B>, size: nat)
    requires size > 0 && |images| == |labels|
    ensures Batches(images, size).Some? <==> Batches(labels, size).Some?
    ensures Batches(images, size).Some? ==> Aligned(images, labels, size,
      Zip(Batches(images, size).value, Batches(labels, size).value))
  {
    SameLengthSameBatches(images, labels, size);
    if Batches(images, size).Some? {
      var xs, ys := Batches(images, size).value, Batches(labels, size).value;
      BatchCount(images, size);
      forall b | 0 <= b < |xs|
        ensures IsBatch(images, size, b, xs[b]) && IsBatch(labels, size, b, ys[b])
      {
        BatchSlice(images, size, b);
        BatchSlice(labels, size, b);
      }
      ZipAligned(images, labels, size, xs, ys);
    }
  }

  /** Pair b of `pairs` holds rows b*size .. b*size + size - 1 of both inputs. */
  ghost predicate Aligned<A, B>(images: seq<A>, labels: seq<B>, size: nat, pairs: seq<(seq<A>, seq<B>)>)
  {
    |pairs| * size == |images| == |labels| &&
    forall b :: 0 <= b < |pairs| ==> IsBatch(images, size, b, pairs[b].0) && IsBatch(labels, size, b, pairs[b].1)
  }

  /** `w` is rows b*size .. b*size + size - 1 of `rows`. */
  ghost predicate IsBatch<T>(rows: seq<T>, size: nat, b: nat, w: seq<T>)
  {
    b * size + size <= |rows| && w == rows[b * size .. b * size + size]
  }

  /** Zipping two partitions that cut both inputs at the same places gives aligned pairs. */
  lemma ZipAligned<A, B>(images: seq<A>, labels: seq<B>, size: nat, xs: seq<seq<A>>, ys: seq<seq<B>>)
    requires |xs| == |ys| && |xs| * size == |images| == |labels|
    requires forall b :: 0 <= b < |xs| ==> IsBatch(images, size, b, xs[b]) && IsBatch(labels, size, b, ys[b])
    ensures Aligned(images, labels, size, Zip(xs, ys))
  {
  }
}
