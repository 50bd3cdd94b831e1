/** Properties of the downsamplers that relate several calls: cropping
    does not change the result, a factor of 1 changes nothing, constant
    data stays constant, NaN padding is ignored by the mean, and the
    `truncate` flag of `downsample_axis` only matters for a partial block. */
module DownsampleLaws {
  import opened Arith
  import opened Values
  import opened Estimators
  import opened Slicing
  import opened Downsample

  /* ---------------- cropping ---------------- */

  /** `downsample_1d` drops the trailing `len(a) % factor` entries:
      downsampling `a` and downsampling `a` cropped to whole blocks agree. */
  lemma CropLaw1D<T, U>(a: seq<T>, f: nat, est: seq<T> -> U)
    requires f >= 1
    ensures Downsample1D(a, f, est) == Downsample1D(Crop(a, f), f, est)
  {
    var c := Crop(a, f);
    QuotOfMul(Quot(|a|, f), f);
    var r, s := Downsample1D(a, f, est).value, Downsample1D(c, f, est).value;
    assert |r| == |s|;
    forall k | 0 <= k < |r|
      ensures r[k] == s[k]
    {
      BlockOfPrefix(a, c, f, k);
    }
    assert r == s;
  }

  /** A block that lies inside a prefix is the same block of the whole. */
  lemma BlockOfPrefix<T>(a: seq<T>, c: seq<T>, f: nat, k: nat)
    requires f >= 1 && |c| <= |a| && c == a[..|c|] && k < Quot(|c|, f)
    ensures k < Quot(|a|, f) && Block1D(a, f, k) == Block1D(c, f, k)
  {
    BlockFits(k, |c|, f);
    QuotRem(|a|, f);
    if Quot(|a|, f) <= k {
      MulMono(Quot(|a|, f) + 1, k + 1, f);
      MulSucc(Quot(|a|, f), f);
      MulSucc(k, f);
    }
  }

  /** Likewise `downsample` drops the trailing rows and columns. */
  lemma CropLaw2D<T, U>(m: seq<seq<T>>, f: nat, est: seq<T> -> U)
    requires f >= 1 && IsRect(m)
    ensures IsRect(Crop2D(m, f))
    ensures Downsample2D(m, f, est) == Downsample2D(Crop2D(m, f), f, est)
  {
    var c := Crop2D(m, f);
    QuotOfMul(Quot(|m|, f), f);
    QuotOfMul(Quot(Width(m), f), f);
    var r, s := Downsample2D(m, f, est).value, Downsample2D(c, f, est).value;
    assert |r| == |s|;
    forall p | 0 <= p < |r|
      ensures r[p] == s[p]
    {
      assert |r[p]| == |s[p]|;
      forall q | 0 <= q < |r[p]|
        ensures r[p][q] == s[p][q]
      {
        BlockOfCrop2D(m, f, p, q);
      }
    }
    assert r == s;
  }

  /** A block of the cropped array is the same block of the whole. */
  lemma BlockOfCrop2D<T>(m: seq<seq<T>>, f: nat, p: nat, q: nat)
    requires f >= 1 && IsRect(m) && p < Quot(|m|, f) && q < Quot(Width(m), f)
    ensures IsRect(Crop2D(m, f))
    ensures p < Quot(|Crop2D(m, f)|, f) && q < Quot(Width(Crop2D(m, f)), f)
    ensures Block2D(Crop2D(m, f), f, p, q) == Block2D(m, f, p, q)
  {
    var c := Crop2D(m, f);
    QuotOfMul(Quot(|m|, f), f);
    QuotOfMul(Quot(Width(m), f), f);
    BlockFits(p, |c|, f);
    forall t | 0 <= t < Mul(f, f)
      ensures Block2D(c, f, p, q)[t] == Block2D(m, f, p, q)[t]
    {
      QuotRem(t, f);
      QuotBound(t, f);
      BlockFits(q, Width(c), f);
    }
  }

  /* ---------------- factor 1 ---------------- */

  /** With a factor of 1 every block is a single entry, so an estimator
      that returns the entry of a one-entry block (the mean, and the
      missing-aware mean, NaN included) returns the array unchanged. */
  lemma Identity1D<T>(a: seq<T>, est: seq<T> -> T)
    requires forall x :: est([x]) == x
    ensures Downsample1D(a, 1, est) == Ok(a)
  {
    var r := Downsample1D(a, 1, est).value;
    QuotOfMul(|a|, 1);
    MulOne(|a|);
    forall k | 0 <= k < |a|
      ensures r[k] == a[k]
    {
      MulOne(k);
      assert Block1D(a, 1, k) == [a[k]];
    }
    assert r == a;
  }

  lemma Identity2D<T>(m: seq<seq<T>>, est: seq<T> -> T)
    requires IsRect(m)
    requires forall x :: est([x]) == x
    ensures Downsample2D(m, 1, est) == Ok(m)
  {
    var r := Downsample2D(m, 1, est).value;
    QuotOfMul(|m|, 1);
    MulOne(|m|);
    QuotOfMul(Width(m), 1);
    MulOne(Width(m));
    MulOne(1);
    QuotRemUnique(0, 1, 0, 0);
    forall p | 0 <= p < |m|
      ensures r[p] == m[p]
    {
      forall q | 0 <= q < |m[p]|
        ensures r[p][q] == m[p][q]
      {
        MulOne(p);
        MulOne(q);
        assert Block2D(m, 1, p, q) == [m[p][q]];
      }
      assert r[p] == m[p];
    }
    assert r == m;
  }

  /** Both estimators of the source qualify. */
  lemma SingletonEstimators()
    ensures forall x :: NanMean([x]) == x
    ensures forall x :: Mean([x]) == x
  {
    forall x
      ensures NanMean([x]) == x
    {
      NanMeanSingleton(x);
    }
    forall x
      ensures Mean([x]) == x
    {
      assert Sum([x]) == x + Sum([]);
    }
  }

  /* ---------------- constant data ---------------- */

  /** An array holding one value everywhere downsamples to that value. */
  lemma Constant1D(a: seq<Option<real>>, f: nat, c: real)
    requires f >= 1
    requires forall i :: 0 <= i < |a| ==> a[i] == Some(c)
    ensures forall k :: 0 <= k < Quot(|a|, f) ==> Downsample1D(a, f, NanMean).value[k] == Some(c)
  {
    forall k | 0 <= k < Quot(|a|, f)
      ensures Downsample1D(a, f, NanMean).value[k] == Some(c)
    {
      var b := Block1D(a, f, k);
      BlockFits(k, |a|, f);
      assert forall i :: 0 <= i < |b| ==> b[i] == a[Mul(k, f) + i];
      NanMeanConstant(b, c);
    }
  }

  lemma Constant2D(m: seq<seq<Option<real>>>, f: nat, c: real)
    requires f >= 1 && IsRect(m)
    requires forall y, x :: 0 <= y < |m| && 0 <= x < |m[y]| ==> m[y][x] == Some(c)
    ensures forall p, q :: 0 <= p < Quot(|m|, f) && 0 <= q < Quot(Width(m), f) ==>
              Downsample2D(m, f, NanMean).value[p][q] == Some(c)
  {
    forall p, q | 0 <= p < Quot(|m|, f) && 0 <= q < Quot(Width(m), f)
      ensures Downsample2D(m, f, NanMean).value[p][q] == Some(c)
    {
      var b := Block2D(m, f, p, q);
      MulMono(1, f, f);
      MulOne(f);
      forall t | 0 <= t < |b|
        ensures b[t] == Some(c)
      {
        QuotRem(t, f);
        QuotBound(t, f);
        BlockFits(p, |m|, f);
        BlockFits(q, Width(m), f);
      }
      NanMeanConstant(b, c);
    }
  }

  /* ---------------- block layout ---------------- */

  /** Within a block of `downsample`, the entry at row offset `i` and
      column offset `j` sits at stack position `j*f + i`: the column phase
      is the outer loop of the source's list comprehension. */
  lemma Block2DOrder<T>(m: seq<seq<T>>, f: nat, p: nat, q: nat, i: nat, j: nat)
    requires f >= 1 && IsRect(m) && p < Quot(|m|, f) && q < Quot(Width(m), f)
    requires i < f && j < f
    ensures Mul(j, f) + i < |Block2D(m, f, p, q)|
    ensures Mul(p, f) + i < |m| && Mul(q, f) + j < |m[Mul(p, f) + i]|
    ensures Block2D(m, f, p, q)[Mul(j, f) + i] == m[Mul(p, f) + i][Mul(q, f) + j]
  {
    MulMono(j + 1, f, f);
    MulSucc(j, f);
    QuotRemUnique(Mul(j, f) + i, f, j, i);
    BlockFits(p, |m|, f);
    BlockFits(q, Width(m), f);
  }

  /* ---------------- downsample_axis ---------------- */

  /** The `truncate` flag changes the result exactly when the axis length
      is not a multiple of the factor. */
  lemma TruncateMatters<U>(a: Array3<Option<real>>, f: nat, est: seq<Option<real>> -> U)
    requires f >= 1 && a.Valid()
    ensures DownsampleAxis(a, f, est, true) == DownsampleAxis(a, f, est, false) <==> Rem(a.shape.d1, f) == 0
  {
    if Rem(a.shape.d1, f) == 0 {
      assert AxisPrepared(a, f, true) == AxisPrepared(a, f, false);
    }
  }

  /** Without truncation the axis holds `ceil(xs / f)` blocks: fewer than
      `f` NaN entries are appended, and every block, the last included,
      starts inside the original axis. */
  lemma AxisBlocksCover(xs: nat, f: nat)
    requires f >= 1
    ensures xs <= Mul(AxisBlocks(xs, f, false), f) < xs + f
    ensures forall k :: 0 <= k < AxisBlocks(xs, f, false) ==> Mul(k, f) < xs
  {
    QuotRem(xs, f);
    MulSucc(Quot(xs, f), f);
    forall k | 0 <= k < AxisBlocks(xs, f, false)
      ensures Mul(k, f) < xs
    {
      MulMono(k, AxisBlocks(xs, f, false) - 1, f);
    }
  }

  /** The entries of `a` along the axis from `lo` up to `hi`, at `(x, _, z)`. */
  function Fiber(a: Array3<Option<real>>, x: nat, z: nat, lo: nat, hi: nat): seq<Option<real>>
    requires a.Valid() && x < a.shape.d0 && z < a.shape.d2 && lo <= hi <= a.shape.d1
  {
    seq(hi - lo, i requires 0 <= i < hi - lo => a.cells[x][lo + i][z])
  }

  /** Block `k` along the axis is the original entries from `k*f` on,
      followed by NaN for the positions past the end of the axis. */
  lemma AxisBlockSplit(a: Array3<Option<real>>, f: nat, x: nat, k: nat, z: nat, hi: nat)
    requires f >= 1 && a.Valid() && x < a.shape.d0 && z < a.shape.d2
    requires Mul(k, f) <= hi <= a.shape.d1 && hi <= Mul(k, f) + f
    requires hi == a.shape.d1 || hi == Mul(k, f) + f
    ensures AxisBlock(a, f, x, k, z)[hi - Mul(k, f)..] == seq(Mul(k, f) + f - hi, i => None)
    ensures AxisBlock(a, f, x, k, z)
              == Fiber(a, x, z, Mul(k, f), hi) + AxisBlock(a, f, x, k, z)[hi - Mul(k, f)..]
  {
    var b := AxisBlock(a, f, x, k, z);
    var lo := Mul(k, f);
    assert b[..hi - lo] == Fiber(a, x, z, lo, hi);
    assert b == b[..hi - lo] + b[hi - lo..];
  }

  /** With `nanmean`, the NaN padding of the last block is ignored: each
      output cell is the mean of the original entries of its block, of
      which there is at least one. */
  lemma PaddingIgnored(a: Array3<Option<real>>, f: nat, x: nat, k: nat, z: nat)
    requires f >= 1 && a.Valid()
    requires x < a.shape.d0 && k < AxisBlocks(a.shape.d1, f, false) && z < a.shape.d2
    ensures var lo := Mul(k, f);
      var hi := if lo + f <= a.shape.d1 then lo + f else a.shape.d1;
      && lo < hi <= a.shape.d1
      && DownsampleAxis(a, f, NanMean, false).value.cells[x][k][z] == NanMean(Fiber(a, x, z, lo, hi))
  {
    var lo := Mul(k, f);
    var hi := if lo + f <= a.shape.d1 then lo + f else a.shape.d1;
    assert lo < hi by { AxisBlocksCover(a.shape.d1, f); }
    var b := AxisBlock(a, f, x, k, z);
    assert DownsampleAxis(a, f, NanMean, false).value.cells[x][k][z] == NanMean(b);
    assert NanMean(b) == NanMean(Fiber(a, x, z, lo, hi)) by {
      AxisBlockSplit(a, f, x, k, z, hi);
      NanMeanIgnoresPadding(Fiber(a, x, z, lo, hi), b[hi - lo..]);
    }
  }

  /** A 1-D array as the `1 x n x 1` view `downsample_axis` sees. */
  function Line<T>(s: seq<T>): (r: Array3<T>)
    ensures r.Valid() && r.shape == Shape3(1, |s|, 1)
  {
    Array3(Shape3(1, |s|, 1), [seq(|s|, i requires 0 <= i < |s| => [s[i]])])
  }

  /** On a 1-D array `downsample_axis(..., truncate=True)` is
      `downsample_1d`. */
  lemma AxisAgrees1D<U>(s: seq<Option<real>>, f: nat, est: seq<Option<real>> -> U)
    requires f >= 1
    ensures DownsampleAxis(Line(s), f, est, true) == Ok(Line(Downsample1D(s, f, est).value))
  {
    var r := DownsampleAxis(Line(s), f, est, true).value;
    var l := Line(Downsample1D(s, f, est).value);
    forall x, k, z | 0 <= x < 1 && 0 <= k < Quot(|s|, f) && 0 <= z < 1
      ensures r.cells[x][k][z] == l.cells[x][k][z]
    {
      BlockFits(k, |s|, f);
      assert AxisBlock(Line(s), f, 0, k, 0) == Block1D(s, f, k);
    }
    Array3Ext(r, l);
  }

  /* ---------------- estimators ---------------- */

  /** On NaN-free data the default `nanmean` estimator gives the plain mean
      of every block. */
  lemma NanMeanOnPresentData(a: seq<real>, f: nat, k: nat)
    requires f >= 1 && k < Quot(|a|, f)
    ensures Downsample1D(Lift(a), f, NanMean).value[k] == Some(Downsample1D(a, f, Mean).value[k])
  {
    BlockFits(k, |a|, f);
    assert Block1D(Lift(a), f, k) == Lift(Block1D(a, f, k));
    NanMeanOfPresent(Block1D(a, f, k));
  }

  /** Downsampling with the mean is downsampling with the sum divided by
      the number of entries per block. */
  lemma MeanIsScaledSum(a: seq<real>, f: nat, k: nat)
    requires f >= 1 && k < Quot(|a|, f)
    ensures Downsample1D(a, f, Mean).value[k] == Downsample1D(a, f, Sum).value[k] / (f as real)
  {
    var b := Block1D(a, f, k);
    BlockFits(k, |a|, f);
    assert |b| == f;
    assert Downsample1D(a, f, Mean).value[k] == Mean(b);
    assert Downsample1D(a, f, Sum).value[k] == Sum(b);
  }

  /* ---------------- worked examples ---------------- */

  /** `[1, 2, 3, 4, 5]` and `[1, 2, 3, 4]` downsample by 2 to the same
      `[1.5, 3.5]`: the odd trailing entry is dropped. */
  lemma Example1D()
    ensures Downsample1D([1.0, 2.0, 3.0, 4.0, 5.0], 2, Mean) == Ok([1.5, 3.5])
    ensures Downsample1D([1.0, 2.0, 3.0, 4.0], 2, Mean) == Ok([1.5, 3.5])
  {
    var a := [1.0, 2.0, 3.0, 4.0, 5.0];
    var b := [1.0, 2.0, 3.0, 4.0];
    QuotRemUnique(5, 2, 2, 1);
    QuotRemUnique(4, 2, 2, 0);
    MulZero(2);
    MulOne(2);
    assert Sum([2.0]) == 2.0 && Sum([4.0]) == 4.0;
    assert Mean([1.0, 2.0]) == 1.5 && Mean([3.0, 4.0]) == 3.5;
    var r := Downsample1D(a, 2, Mean).value;
    assert Block1D(a, 2, 0) == [1.0, 2.0] && Block1D(a, 2, 1) == [3.0, 4.0];
    assert |r| == 2 && r[0] == 1.5 && r[1] == 3.5;
    assert r == [1.5, 3.5];
    var t := Downsample1D(b, 2, Mean).value;
    assert Block1D(b, 2, 0) == [1.0, 2.0] && Block1D(b, 2, 1) == [3.0, 4.0];
    assert |t| == 2 && t[0] == 1.5 && t[1] == 3.5;
    assert t == [1.5, 3.5];
  }

  /** A `1 x n x 1` array is the view of the line of its entries. */
  lemma LineOf<T>(r: Array3<T>, s: seq<T>)
    requires r.Valid() && r.shape == Shape3(1, |s|, 1)
    requires forall k :: 0 <= k < |s| ==> r.cells[0][k][0] == s[k]
    ensures r == Line(s)
  {
    forall k | 0 <= k < |s|
      ensures r.cells[0][k] == Line(s).cells[0][k]
    {
    }
    assert r.cells[0] == Line(s).cells[0];
  }

  /* The worked examples below take their literal input as a parameter
     fixed by `requires`. Stating the literal inside the `ensures` makes the
     verifier unfold every function on it at each use, which is much slower. */

  /** `downsample_axis([1, 2, 3, 4], 3)` is `[2, 4]`: the last block is
      `[4, NaN, NaN]`, whose NaN-ignoring mean is 4. */
  lemma ExampleAxisPadded(s: seq<Option<real>>)
    requires s == [Some(1.0), Some(2.0), Some(3.0), Some(4.0)]
    ensures DownsampleAxis(Line(s), 3, NanMean, false) == Ok(Line([Some(2.0), Some(4.0)]))
  {
    var r := DownsampleAxis(Line(s), 3, NanMean, false);
    QuotRemUnique(4, 3, 1, 1);
    ExampleAxisLastBlock(s);
    assert r.value.cells[0][0][0] == Some(2.0) by {
      MulZero(3);
      assert AxisBlock(Line(s), 3, 0, 0, 0) == [Some(1.0), Some(2.0), Some(3.0)];
      FirstBlockMean();
    }
    LineOf(r.value, [Some(2.0), Some(4.0)]);
  }

  /** The partial block of that example averages to 4. */
  lemma ExampleAxisLastBlock(s: seq<Option<real>>)
    requires s == [Some(1.0), Some(2.0), Some(3.0), Some(4.0)]
    ensures DownsampleAxis(Line(s), 3, NanMean, false).Ok?
    ensures DownsampleAxis(Line(s), 3, NanMean, false).value.shape == Shape3(1, 2, 1)
    ensures DownsampleAxis(Line(s), 3, NanMean, false).value.cells[0][1][0] == Some(4.0)
  {
    var a := Line(s);
    QuotRemUnique(4, 3, 1, 1);
    MulZero(3);
    MulSucc(0, 3);
    assert a.cells[0][3] == [Some(4.0)];
    assert AxisBlock(a, 3, 0, 1, 0) == [Some(4.0), None, None];
    LastBlockMean();
  }

  /** With `truncate=True` it is `[2]`. */
  lemma ExampleAxisTruncated(s: seq<Option<real>>)
    requires s == [Some(1.0), Some(2.0), Some(3.0), Some(4.0)]
    ensures DownsampleAxis(Line(s), 3, NanMean, true) == Ok(Line([Some(2.0)]))
  {
    var a := Line(s);
    var r := DownsampleAxis(a, 3, NanMean, true);
    assert r.Ok? && r.value.Valid() && r.value.shape == Shape3(1, 1, 1) by {
      QuotRemUnique(4, 3, 1, 1);
    }
    assert r.value.cells[0][0][0] == Some(2.0) by {
      MulZero(3);
      assert AxisBlock(a, 3, 0, 0, 0) == [Some(1.0), Some(2.0), Some(3.0)];
      FirstBlockMean();
    }
    LineOf(r.value, [Some(2.0)]);
  }

  lemma FirstBlockMean()
    ensures NanMean([Some(1.0), Some(2.0), Some(3.0)]) == Some(2.0)
  {
    var s := [Some(1.0), Some(2.0), Some(3.0)];
    assert s[1..] == [Some(2.0), Some(3.0)] && s[1..][1..] == [Some(3.0)];
    assert Present(s) == [1.0, 2.0, 3.0];
    assert [1.0, 2.0, 3.0][1..] == [2.0, 3.0];
    assert Sum([3.0]) == 3.0 && Sum([2.0, 3.0]) == 5.0;
  }

  lemma LastBlockMean()
    ensures NanMean([Some(4.0), None, None]) == Some(4.0)
  {
    var s := [Some(4.0), None, None];
    assert s[1..] == [None, None] && s[1..][1..] == [None];
    PresentAllMissing(s[1..]);
    assert Present(s) == [4.0];
    assert Sum([4.0]) == 4.0;
  }

  /** The 4 by 4 array holding 0 to 15 row by row downsamples by 2 to a
      2 by 2 array whose top-left cell is the mean of 0, 1, 4 and 5. */
  lemma Example2D(m: seq<seq<real>>)
    requires m == [[0.0, 1.0, 2.0, 3.0], [4.0, 5.0, 6.0, 7.0], [8.0, 9.0, 10.0, 11.0], [12.0, 13.0, 14.0, 15.0]]
    ensures IsRect(m)
    ensures Downsample2D(m, 2, Mean).Ok?
    ensures |Downsample2D(m, 2, Mean).value| == 2 && |Downsample2D(m, 2, Mean).value[0]| == 2
    ensures Downsample2D(m, 2, Mean).value[0][0] == 2.5
  {
    QuotRemUnique(4, 2, 2, 0);
    MulZero(2);
    MulOne(2);
    Block2DOrder(m, 2, 0, 0, 0, 0);
    Block2DOrder(m, 2, 0, 0, 1, 0);
    Block2DOrder(m, 2, 0, 0, 0, 1);
    Block2DOrder(m, 2, 0, 0, 1, 1);
    var b := Block2D(m, 2, 0, 0);
    assert Mul(2, 2) == 4;
    assert b == [0.0, 4.0, 1.0, 5.0];
    assert b[1..][1..][1..] == [5.0];
    assert Sum(b) == 10.0;
  }
}
