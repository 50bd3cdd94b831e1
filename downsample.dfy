/** The downsamplers of `image_tools/downsample.py`. Each crops (or pads)
    the array to whole blocks of `factor` entries per reduced axis, stacks
    the `factor` phases of every reduced axis along a new leading axis with
    `numpy.concatenate`, and applies the estimator along that axis, so that
    output cell `k` is the estimator of block `k`. The functions below
    follow those three steps; their contracts state the result block by
    block. */
module Downsample {
  import opened Arith
  import opened Values
  import opened Estimators
  import opened Slicing

  /* ---------------- estimator(stack, axis=0) ---------------- */

  /** Entry `k` of every member of a stack of 1-D arrays, in stack order. */
  function Column<T>(stack: seq<seq<T>>, k: nat): seq<T>
    requires forall t :: 0 <= t < |stack| ==> k < |stack[t]|
  {
    seq(|stack|, t requires 0 <= t < |stack| => stack[t][k])
  }

  /** `estimator(stack, axis=0)` on a stack of length-`n` arrays. */
  function Reduce1<T, U>(stack: seq<seq<T>>, n: nat, est: seq<T> -> U): seq<U>
    requires forall t :: 0 <= t < |stack| ==> |stack[t]| == n
  {
    seq(n, k requires 0 <= k < n => est(Column(stack, k)))
  }

  /** Entry `(y, x)` of every member of a stack of 2-D arrays. */
  function Column2<T>(stack: seq<seq<seq<T>>>, y: nat, x: nat): seq<T>
    requires forall t :: 0 <= t < |stack| ==> y < |stack[t]| && x < |stack[t][y]|
  {
    seq(|stack|, t requires 0 <= t < |stack| => stack[t][y][x])
  }

  /** `estimator(stack, axis=0)` on a stack of `ny` by `nx` arrays. */
  function Reduce2<T, U>(stack: seq<seq<seq<T>>>, ny: nat, nx: nat, est: seq<T> -> U): seq<seq<U>>
    requires forall t :: 0 <= t < |stack| ==> |stack[t]| == ny
    requires forall t, y :: 0 <= t < |stack| && 0 <= y < ny ==> |stack[t][y]| == nx
  {
    seq(ny, y requires 0 <= y < ny =>
      seq(nx, x requires 0 <= x < nx => est(Column2(stack, y, x))))
  }

  /* ---------------- downsample_1d ---------------- */

  /** The list `[a[i::f] for i in range(f)]`. */
  function Phases<T>(a: seq<T>, f: nat): seq<seq<T>>
    requires f >= 1
  {
    seq(f, i requires 0 <= i < f => Strided(a, i, f))
  }

  /** Block `k` of a 1-D array: the `f` entries `a[k*f : k*f + f]`. */
  function Block1D<T>(a: seq<T>, f: nat, k: nat): seq<T>
    requires f >= 1 && k < Quot(|a|, f)
  {
    BlockFits(k, |a|, f);
    a[Mul(k, f)..Mul(k, f) + f]
  }

  /** The stack `downsample_1d` hands to the estimator:
      `numpy.concatenate` of the one-element list holding the phases of
      the cropped array. */
  function Stack1D<T>(a: seq<T>, f: nat): seq<seq<T>>
    requires f >= 1
  {
    Concat([Phases(Crop(a, f), f)])
  }

  /** The stack has one member per phase, each `len(a) // f` long, and its
      column `k` is block `k`. */
  lemma Stack1DColumns<T>(a: seq<T>, f: nat)
    requires f >= 1
    ensures |Stack1D(a, f)| == f
    ensures forall t :: 0 <= t < f ==> |Stack1D(a, f)[t]| == Quot(|a|, f)
    ensures forall k :: 0 <= k < Quot(|a|, f) ==> Column(Stack1D(a, f), k) == Block1D(a, f, k)
  {
    var cr := Crop(a, f);
    var n := Quot(|a|, f);
    var phases := Phases(cr, f);
    var none: seq<seq<seq<T>>> := [];
    assert [phases][1..] == none;
    assert Concat([phases]) == phases;
    assert Stack1D(a, f) == phases;
    forall t | 0 <= t < f
      ensures |phases[t]| == n
    {
      StridedLength(cr, t, f, n);
    }
    forall k | 0 <= k < n
      ensures Column(phases, k) == Block1D(a, f, k)
    {
      BlockFits(k, |a|, f);
      forall i | 0 <= i < f
        ensures Column(phases, k)[i] == Block1D(a, f, k)[i]
      {
        StridedLength(cr, i, f, n);
        StridedAt(cr, i, f, k);
      }
    }
  }

  /** `downsample_1d(a, factor, estimator)`: output entry `k` is the
      estimator of block `k`; the trailing `len(a) % factor` entries are
      dropped. A factor below 1 is refused. */
  function Downsample1D<T, U>(a: seq<T>, factor: int, est: seq<T> -> U): (r: Result<seq<U>>)
    ensures factor < 1 <==> r == Err(InvalidFactor)
    ensures factor >= 1 ==> r.Ok? && |r.value| == Quot(|a|, factor)
    ensures factor >= 1 ==> forall k :: 0 <= k < |r.value| ==> r.value[k] == est(Block1D(a, factor, k))
  {
    if factor < 1 then Err(InvalidFactor)
    else
      var f := factor as nat;
      Stack1DColumns(a, f);
      Ok(Reduce1(Stack1D(a, f), Quot(|a|, f), est))
  }

  /* ---------------- downsample ---------------- */

  /** The list of lists `[[m[i::f, j::f] for i in range(f)] for j in range(f)]`:
      one group per column phase `j`, holding the row phases `i`. */
  function Phases2D<T>(m: seq<seq<T>>, f: nat): seq<seq<seq<seq<T>>>>
    requires f >= 1
  {
    seq(f, j requires 0 <= j < f => seq(f, i requires 0 <= i < f => Phase2D(m, i, j, f)))
  }

  /** Block `(p, q)` of a 2-D array, the `f` by `f` entries
      `m[p*f : p*f + f, q*f : q*f + f]`, listed in the order the source
      stacks them: column offset outer, row offset inner, so that position
      `t` holds the entry at row offset `t % f` and column offset `t // f`. */
  function Block2D<T>(m: seq<seq<T>>, f: nat, p: nat, q: nat): seq<T>
    requires f >= 1 && IsRect(m) && p < Quot(|m|, f) && q < Quot(Width(m), f)
  {
    BlockFits(p, |m|, f);
    BlockFits(q, Width(m), f);
    seq(Mul(f, f), t requires 0 <= t < Mul(f, f) =>
      QuotRem(t, f); QuotBound(t, f);
      m[Mul(p, f) + Rem(t, f)][Mul(q, f) + Quot(t, f)])
  }

  /** The stack `downsample` hands to the estimator:
      `numpy.concatenate` of `Phases2D` of the cropped array. */
  function Stack2D<T>(m: seq<seq<T>>, f: nat): seq<seq<seq<T>>>
    requires f >= 1 && IsRect(m)
  {
    Concat(Phases2D(Crop2D(m, f), f))
  }

  /** Member `t` of the stack is the phase with row offset `t % f` and
      column offset `t // f`; each member is `ny` by `nx`. */
  lemma Stack2DAt<T>(m: seq<seq<T>>, f: nat, t: nat)
    requires f >= 1 && IsRect(m) && t < Mul(f, f)
    ensures |Stack2D(m, f)| == Mul(f, f) && Rem(t, f) < f && Quot(t, f) < f
    ensures Stack2D(m, f)[t] == Phase2D(Crop2D(m, f), Rem(t, f), Quot(t, f), f)
    ensures |Stack2D(m, f)[t]| == Quot(|m|, f)
    ensures forall y :: 0 <= y < Quot(|m|, f) ==> |Stack2D(m, f)[t][y]| == Quot(Width(m), f)
  {
    var cr := Crop2D(m, f);
    ConcatAt(Phases2D(cr, f), f, t);
    QuotRem(t, f);
    QuotBound(t, f);
    Phase2DShape(cr, Rem(t, f), Quot(t, f), f, Quot(|m|, f), Quot(Width(m), f));
  }

  /** Every member of the stack is `ny` by `nx`. */
  lemma Stack2DShape<T>(m: seq<seq<T>>, f: nat)
    requires f >= 1 && IsRect(m)
    ensures |Stack2D(m, f)| == Mul(f, f)
    ensures forall t :: 0 <= t < |Stack2D(m, f)| ==> |Stack2D(m, f)[t]| == Quot(|m|, f)
    ensures forall t, y :: 0 <= t < |Stack2D(m, f)| && 0 <= y < Quot(|m|, f) ==>
              |Stack2D(m, f)[t][y]| == Quot(Width(m), f)
  {
    ConcatLength(Phases2D(Crop2D(m, f), f), f);
    forall t | 0 <= t < Mul(f, f)
      ensures |Stack2D(m, f)[t]| == Quot(|m|, f)
      ensures forall y :: 0 <= y < Quot(|m|, f) ==> |Stack2D(m, f)[t][y]| == Quot(Width(m), f)
    {
      Stack2DAt(m, f, t);
    }
  }

  /** Entry `(p, q)` of stack member `t` is entry
      `(p*f + t % f, q*f + t // f)` of the array. */
  lemma Stack2DEntry<T>(m: seq<seq<T>>, f: nat, t: nat, p: nat, q: nat)
    requires f >= 1 && IsRect(m) && t < Mul(f, f) && p < Quot(|m|, f) && q < Quot(Width(m), f)
    ensures t < |Stack2D(m, f)| && p < |Stack2D(m, f)[t]| && q < |Stack2D(m, f)[t][p]|
    ensures Mul(p, f) + Rem(t, f) < |m| && Mul(q, f) + Quot(t, f) < |m[Mul(p, f) + Rem(t, f)]|
    ensures Stack2D(m, f)[t][p][q] == m[Mul(p, f) + Rem(t, f)][Mul(q, f) + Quot(t, f)]
  {
    Stack2DAt(m, f, t);
    Phase2DAt(Crop2D(m, f), Rem(t, f), Quot(t, f), f, Quot(|m|, f), Quot(Width(m), f), p, q);
  }

  /** Column `(p, q)` of the stack is block `(p, q)`. */
  lemma Stack2DColumn<T>(m: seq<seq<T>>, f: nat, p: nat, q: nat)
    requires f >= 1 && IsRect(m) && p < Quot(|m|, f) && q < Quot(Width(m), f)
    ensures forall t :: 0 <= t < |Stack2D(m, f)| ==> p < |Stack2D(m, f)[t]| && q < |Stack2D(m, f)[t][p]|
    ensures Column2(Stack2D(m, f), p, q) == Block2D(m, f, p, q)
  {
    Stack2DShape(m, f);
    forall t | 0 <= t < Mul(f, f)
      ensures Column2(Stack2D(m, f), p, q)[t] == Block2D(m, f, p, q)[t]
    {
      Stack2DEntry(m, f, t, p, q);
    }
  }

  /** `downsample(m, factor, estimator)`: output cell `(p, q)` is the
      estimator of block `(p, q)`; the trailing `ys % factor` rows and
      `xs % factor` columns are dropped. A factor below 1 is refused. */
  function Downsample2D<T, U>(m: seq<seq<T>>, factor: int, est: seq<T> -> U): (r: Result<seq<seq<U>>>)
    requires IsRect(m)
    ensures factor < 1 <==> r == Err(InvalidFactor)
    ensures factor >= 1 ==> r.Ok? && |r.value| == Quot(|m|, factor)
    ensures factor >= 1 ==> forall p :: 0 <= p < |r.value| ==> |r.value[p]| == Quot(Width(m), factor)
    ensures factor >= 1 ==> forall p, q :: 0 <= p < |r.value| && 0 <= q < |r.value[p]| ==>
              r.value[p][q] == est(Block2D(m, factor, p, q))
  {
    if factor < 1 then Err(InvalidFactor)
    else
      var f := factor as nat;
      Stack2DShape(m, f);
      var out := Reduce2(Stack2D(m, f), Quot(|m|, f), Quot(Width(m), f), est);
      Stack2DColumns(m, f, est);
      Ok(out)
  }

  lemma Stack2DColumns<T, U>(m: seq<seq<T>>, f: nat, est: seq<T> -> U)
    requires f >= 1 && IsRect(m)
    ensures forall t :: 0 <= t < |Stack2D(m, f)| ==> |Stack2D(m, f)[t]| == Quot(|m|, f)
    ensures forall t, y :: 0 <= t < |Stack2D(m, f)| && 0 <= y < Quot(|m|, f) ==>
              |Stack2D(m, f)[t][y]| == Quot(Width(m), f)
    ensures var out := Reduce2(Stack2D(m, f), Quot(|m|, f), Quot(Width(m), f), est);
      forall p, q :: 0 <= p < |out| && 0 <= q < |out[p]| ==> out[p][q] == est(Block2D(m, f, p, q))
  {
    Stack2DShape(m, f);
    forall p, q | 0 <= p < Quot(|m|, f) && 0 <= q < Quot(Width(m), f)
      ensures Column2(Stack2D(m, f), p, q) == Block2D(m, f, p, q)
    {
      Stack2DColumn(m, f, p, q);
    }
  }

  /* ---------------- downsample_cube ---------------- */

  /** Entry `(x, y, z)` of every member of a stack of 3-D arrays. */
  function Column3<T>(stack: seq<seq<seq<seq<T>>>>, x: nat, y: nat, z: nat): seq<T>
    requires forall t :: 0 <= t < |stack| ==> x < |stack[t]| && y < |stack[t][x]| && z < |stack[t][x][y]|
  {
    seq(|stack|, t requires 0 <= t < |stack| => stack[t][x][y][z])
  }

  /** Every member of a stack of 3-D arrays has shape `s`. */
  predicate Fits<T>(stack: seq<seq<seq<seq<T>>>>, s: Shape3)
  {
    && (forall t :: 0 <= t < |stack| ==> |stack[t]| == s.d0)
    && (forall t, x :: 0 <= t < |stack| && 0 <= x < s.d0 ==> |stack[t][x]| == s.d1)
    && (forall t, x, y :: 0 <= t < |stack| && 0 <= x < s.d0 && 0 <= y < s.d1 ==> |stack[t][x][y]| == s.d2)
  }

  /** `estimator(stack, axis=0)` on a stack of arrays of shape `s`. */
  function Reduce3<T, U>(stack: seq<seq<seq<seq<T>>>>, s: Shape3, est: seq<T> -> U): (r: Array3<U>)
    requires Fits(stack, s)
    ensures r.Valid() && r.shape == s
  {
    Array3(s, seq(s.d0, x requires 0 <= x < s.d0 =>
      seq(s.d1, y requires 0 <= y < s.d1 =>
        seq(s.d2, z requires 0 <= z < s.d2 => est(Column3(stack, x, y, z))))))
  }

  /** `b[:, :ys - ys % f, :xs - xs % f]`. */
  function CropCube<T>(b: Array3<T>, f: nat): seq<seq<seq<T>>>
    requires f >= 1 && b.Valid()
  {
    seq(b.shape.d0, z requires 0 <= z < b.shape.d0 => Crop2D(b.cells[z], f))
  }

  /** The list of lists `[[cr[:, i::f, j::f] for i in range(f)] for j in range(f)]`. */
  function Phases3<T>(cr: seq<seq<seq<T>>>, f: nat): seq<seq<seq<seq<seq<T>>>>>
    requires f >= 1
  {
    seq(f, j requires 0 <= j < f => seq(f, i requires 0 <= i < f =>
      seq(|cr|, z requires 0 <= z < |cr| => Phase2D(cr[z], i, j, f))))
  }

  /** The stack `downsample_cube` hands to `mean`. */
  function Stack3<T>(b: Array3<T>, f: nat): seq<seq<seq<seq<T>>>>
    requires f >= 1 && b.Valid()
  {
    Concat(Phases3(CropCube(b, f), f))
  }

  /** The shape of the cube's output before any swap back. */
  function CoreShape(s: Shape3, f: nat): Shape3
    requires f >= 1
  {
    Shape3(s.d0, Quot(s.d1, f), Quot(s.d2, f))
  }

  /** Slab `z` of stack member `t` is member `t` of the stack `downsample`
      builds from slab `z` alone. */
  lemma Stack3At<T>(b: Array3<T>, f: nat, t: nat, z: nat)
    requires f >= 1 && b.Valid() && t < Mul(f, f) && z < b.shape.d0
    ensures |Stack3(b, f)| == Mul(f, f) && |Stack3(b, f)[t]| == b.shape.d0
    ensures IsRect(b.cells[z]) && t < |Stack2D(b.cells[z], f)|
    ensures Stack3(b, f)[t][z] == Stack2D(b.cells[z], f)[t]
  {
    ConcatAt(Phases3(CropCube(b, f), f), f, t);
    SlabShape(b, z);
    Stack2DAt(b.cells[z], f, t);
  }

  /** Every member of the cube's stack has the shape of the output. */
  lemma Stack3Shape<T>(b: Array3<T>, f: nat)
    requires f >= 1 && b.Valid()
    ensures |Stack3(b, f)| == Mul(f, f)
    ensures Fits(Stack3(b, f), CoreShape(b.shape, f))
  {
    ConcatLength(Phases3(CropCube(b, f), f), f);
    forall t | 0 <= t < Mul(f, f)
      ensures |Stack3(b, f)[t]| == b.shape.d0
    {
      ConcatAt(Phases3(CropCube(b, f), f), f, t);
    }
    forall t, z | 0 <= t < Mul(f, f) && 0 <= z < b.shape.d0
      ensures |Stack3(b, f)[t][z]| == Quot(b.shape.d1, f)
      ensures forall y :: 0 <= y < Quot(b.shape.d1, f) ==> |Stack3(b, f)[t][z][y]| == Quot(b.shape.d2, f)
    {
      Stack3At(b, f, t, z);
      Stack2DAt(b.cells[z], f, t);
      SlabShape(b, z);
      if b.shape.d1 == 0 {
        QuotOfMul(0, f);
        MulZero(f);
      }
    }
  }

  /** Column `(z, p, q)` of the cube's stack is block `(p, q)` of slab `z`. */
  lemma Stack3Column<T>(b: Array3<T>, f: nat, z: nat, p: nat, q: nat)
    requires f >= 1 && b.Valid() && z < b.shape.d0 && p < Quot(b.shape.d1, f) && q < Quot(b.shape.d2, f)
    ensures IsRect(b.cells[z]) && p < Quot(|b.cells[z]|, f) && q < Quot(Width(b.cells[z]), f)
    ensures forall t :: 0 <= t < |Stack3(b, f)| ==>
              z < |Stack3(b, f)[t]| && p < |Stack3(b, f)[t][z]| && q < |Stack3(b, f)[t][z][p]|
    ensures Column3(Stack3(b, f), z, p, q) == Block2D(b.cells[z], f, p, q)
  {
    Stack3Shape(b, f);
    SlabShape(b, z);
    if b.shape.d1 == 0 {
      QuotOfMul(0, f);
      MulZero(f);
    }
    Stack2DColumn(b.cells[z], f, p, q);
    forall t | 0 <= t < Mul(f, f)
      ensures Column3(Stack3(b, f), z, p, q)[t] == Column2(Stack2D(b.cells[z], f), p, q)[t]
    {
      Stack3At(b, f, t, z);
    }
  }

  /** Cell `(z, p, q)` of the reduced cube stack is the NaN-ignoring mean
      of block `(p, q)` of slab `z`. */
  lemma CubeCell(b: Array3<Option<real>>, f: nat, z: nat, p: nat, q: nat)
    requires f >= 1 && b.Valid() && z < b.shape.d0 && p < Quot(b.shape.d1, f) && q < Quot(b.shape.d2, f)
    ensures Fits(Stack3(b, f), CoreShape(b.shape, f))
    ensures IsRect(b.cells[z]) && p < Quot(|b.cells[z]|, f) && q < Quot(Width(b.cells[z]), f)
    ensures Reduce3(Stack3(b, f), CoreShape(b.shape, f), NanMean).cells[z][p][q]
              == NanMean(Block2D(b.cells[z], f, p, q))
  {
    Stack3Shape(b, f);
    Stack3Column(b, f, z, p, q);
  }

  /** Slab `z` of the cube's result is `downsample` of slab `z` with the
      NaN-ignoring mean. */
  lemma CubeSlab(b: Array3<Option<real>>, f: nat, z: nat)
    requires f >= 1 && b.Valid() && z < b.shape.d0
    ensures Fits(Stack3(b, f), CoreShape(b.shape, f)) && IsRect(b.cells[z])
    ensures Downsample2D(b.cells[z], f, NanMean)
              == Ok(Reduce3(Stack3(b, f), CoreShape(b.shape, f), NanMean).cells[z])
  {
    Stack3Shape(b, f);
    SlabShape(b, z);
    var r := Reduce3(Stack3(b, f), CoreShape(b.shape, f), NanMean);
    var d := Downsample2D(b.cells[z], f, NanMean);
    if b.shape.d1 == 0 {
      QuotOfMul(0, f);
      MulZero(f);
    }
    assert |d.value| == |r.cells[z]|;
    forall p | 0 <= p < Quot(b.shape.d1, f)
      ensures d.value[p] == r.cells[z][p]
    {
      assert |d.value[p]| == |r.cells[z][p]|;
      forall q | 0 <= q < Quot(b.shape.d2, f)
        ensures d.value[p][q] == r.cells[z][p][q]
      {
        CubeCell(b, f, z, p, q);
      }
    }
    assert d.value == r.cells[z];
  }

  /** `mean(concatenate(...), axis=0)` of `downsample_cube` on the
      (possibly swapped) array `b`: every leading slab is downsampled on
      its own, exactly as `downsample` would with the NaN-ignoring mean. */
  function CubeCore(b: Array3<Option<real>>, f: nat): (r: Array3<Option<real>>)
    requires f >= 1 && b.Valid()
    ensures r.Valid() && r.shape == Shape3(b.shape.d0, Quot(b.shape.d1, f), Quot(b.shape.d2, f))
    ensures forall z :: 0 <= z < b.shape.d0 ==> Downsample2D(b.cells[z], f, NanMean) == Ok(r.cells[z])
  {
    Stack3Shape(b, f);
    var r := Reduce3(Stack3(b, f), CoreShape(b.shape, f), NanMean);
    forall z | 0 <= z < b.shape.d0
      ensures Downsample2D(b.cells[z], f, NanMean) == Ok(r.cells[z])
    {
      CubeSlab(b, f, z);
    }
    r
  }

  /** `downsample_cube(a, factor, ignoredim)`: the axis `ignoredim` is
      kept and the two others are downsampled with the NaN-ignoring mean.
      A negative `ignoredim` keeps axis 0, like 0; one above 2 is out of
      range for `swapaxes`, which fails before the factor is used; a
      factor below 1 is refused. What each slab becomes is stated by
      `CubeKeeps0`, `CubeKeeps1` and `CubeKeeps2`. */
  function DownsampleCube(a: Array3<Option<real>>, factor: int, ignoredim: int): (r: Result<Array3<Option<real>>>)
    requires a.Valid()
    ensures ignoredim > 2 <==> r == Err(AxisOutOfRange)
    ensures ignoredim <= 2 ==> (factor < 1 <==> r == Err(InvalidFactor))
    ensures ignoredim <= 2 && factor >= 1 ==> r.Ok? && r.value.Valid()
    ensures ignoredim <= 0 && factor >= 1 ==>
              r.value.shape == Shape3(a.shape.d0, Quot(a.shape.d1, factor), Quot(a.shape.d2, factor))
    ensures ignoredim == 1 && factor >= 1 ==>
              r.value.shape == Shape3(Quot(a.shape.d0, factor), a.shape.d1, Quot(a.shape.d2, factor))
    ensures ignoredim == 2 && factor >= 1 ==>
              r.value.shape == Shape3(Quot(a.shape.d0, factor), Quot(a.shape.d1, factor), a.shape.d2)
  {
    if ignoredim > 2 then Err(AxisOutOfRange)
    else if factor < 1 then Err(InvalidFactor)
    else if ignoredim == 1 then Ok(Swap01(CubeCore(Swap01(a), factor)))
    else if ignoredim == 2 then Ok(Swap02(CubeCore(Swap02(a), factor)))
    else Ok(CubeCore(a, factor))
  }

  /** With `ignoredim <= 0` every slab `a[k]` is downsampled on its own. */
  lemma CubeKeeps0(a: Array3<Option<real>>, factor: int, ignoredim: int, k: nat)
    requires a.Valid() && factor >= 1 && ignoredim <= 0 && k < a.shape.d0
    ensures DownsampleCube(a, factor, ignoredim).Ok?
    ensures Downsample2D(Slab(a, 0, k), factor, NanMean) == Ok(Slab(DownsampleCube(a, factor, ignoredim).value, 0, k))
  {
  }

  /** With `ignoredim == 1` the source swaps axes 0 and 1, runs the core
      and swaps back, so every slab `a[:, k, :]` is downsampled on its own. */
  lemma CubeKeeps1(a: Array3<Option<real>>, factor: int, k: nat)
    requires a.Valid() && factor >= 1 && k < a.shape.d1
    ensures DownsampleCube(a, factor, 1).Ok?
    ensures Downsample2D(Slab(a, 1, k), factor, NanMean) == Ok(Slab(DownsampleCube(a, factor, 1).value, 1, k))
  {
    var c := CubeCore(Swap01(a), factor);
    SlabSwap01(a, k);
    SlabOfSwap01(c, k);
  }

  /** With `ignoredim == 2` the source swaps axes 0 and 2, so every slab
      `a[:, :, k]` is downsampled with its rows along axis 1. */
  lemma CubeKeeps2(a: Array3<Option<real>>, factor: int, k: nat)
    requires a.Valid() && factor >= 1 && k < a.shape.d2
    ensures DownsampleCube(a, factor, 2).Ok?
    ensures Downsample2D(Slab(a, 2, k), factor, NanMean) == Ok(Slab(DownsampleCube(a, factor, 2).value, 2, k))
  {
    var c := CubeCore(Swap02(a), factor);
    SlabSwap02(a, k);
    SlabOfSwap02(c, k);
  }

  /* ---------------- downsample_axis ---------------- */

  /** The number of blocks along the downsampled axis: `xs // f` whole
      blocks, plus the NaN-padded partial block when `xs % f != 0` and
      `truncate` is off. */
  function AxisBlocks(xs: nat, f: nat, truncate: bool): nat
    requires f >= 1
  {
    if truncate || Rem(xs, f) == 0 then Quot(xs, f) else Quot(xs, f) + 1
  }

  /** `crarr` of `downsample_axis`: cropped to whole blocks when
      `truncate` is set, otherwise padded with `f - xs % f` NaN slices,
      and left alone when `xs % f == 0`. */
  function AxisPrepared(a: Array3<Option<real>>, f: nat, truncate: bool): (r: Array3<Option<real>>)
    requires f >= 1 && a.Valid()
    ensures r.Valid() && r.shape == Shape3(a.shape.d0, Mul(AxisBlocks(a.shape.d1, f, truncate), f), a.shape.d2)
  {
    QuotRem(a.shape.d1, f);
    if Rem(a.shape.d1, f) != 0 then
      if truncate then CropAxis(a, f)
      else
        MulSucc(Quot(a.shape.d1, f), f);
        PadAxis(a, f - Rem(a.shape.d1, f), None)
    else a
  }

  /** Every entry of `crarr` is the entry of `a` at the same place, or NaN
      past the end of `a`. */
  lemma AxisPreparedAt(a: Array3<Option<real>>, f: nat, truncate: bool, x: nat, y: nat, z: nat)
    requires f >= 1 && a.Valid()
    requires x < a.shape.d0 && y < Mul(AxisBlocks(a.shape.d1, f, truncate), f) && z < a.shape.d2
    ensures AxisPrepared(a, f, truncate).cells[x][y][z] == if y < a.shape.d1 then a.cells[x][y][z] else None
  {
    var r := AxisPrepared(a, f, truncate);
    QuotRem(a.shape.d1, f);
    if Rem(a.shape.d1, f) != 0 && !truncate {
      MulSucc(Quot(a.shape.d1, f), f);
      if y < a.shape.d1 {
        assert r.cells[x][..a.shape.d1] == a.cells[x];
        assert r.cells[x][y] == r.cells[x][..a.shape.d1][y];
      }
    }
  }

  /** The stack `numpy.concatenate([[crarr[makeslice(i)]] for i in range(f)])`. */
  function StackAxis<T>(cr: Array3<T>, f: nat): seq<seq<seq<seq<T>>>>
    requires f >= 1 && cr.Valid()
  {
    Concat(seq(f, i requires 0 <= i < f => [PhaseAxis(cr, i, f)]))
  }

  /** Member `i` of that stack is the phase `crarr[:, i::f, :]`; when the
      axis holds `n` whole blocks its entry `(x, k, z)` is the entry
      `(x, k*f + i, z)` of `crarr`. */
  lemma StackAxisAt<T>(cr: Array3<T>, f: nat, n: nat, i: nat)
    requires f >= 1 && cr.Valid() && cr.shape.d1 == Mul(n, f) && i < f
    ensures |StackAxis(cr, f)| == f && StackAxis(cr, f)[i] == PhaseAxis(cr, i, f)
    ensures |PhaseAxis(cr, i, f)| == cr.shape.d0
    ensures forall x :: 0 <= x < cr.shape.d0 ==> |PhaseAxis(cr, i, f)[x]| == n
  {
    var groups := seq(f, i requires 0 <= i < f => [PhaseAxis(cr, i, f)]);
    MulOne(f);
    MulOne(i);
    ConcatAt(groups, 1, i);
    QuotRemUnique(i, 1, i, 0);
    forall x | 0 <= x < cr.shape.d0
      ensures |PhaseAxis(cr, i, f)[x]| == n
    {
      StridedLength(cr.cells[x], i, f, n);
    }
  }

  lemma StackAxisEntry<T>(cr: Array3<T>, f: nat, n: nat, i: nat, x: nat, k: nat, z: nat)
    requires f >= 1 && cr.Valid() && cr.shape.d1 == Mul(n, f) && i < f
    requires x < cr.shape.d0 && k < n && z < cr.shape.d2
    ensures i + Mul(k, f) < cr.shape.d1
    ensures k < |PhaseAxis(cr, i, f)[x]| && z < |PhaseAxis(cr, i, f)[x][k]|
    ensures PhaseAxis(cr, i, f)[x][k][z] == cr.cells[x][i + Mul(k, f)][z]
  {
    StridedLength(cr.cells[x], i, f, n);
    StridedAt(cr.cells[x], i, f, k);
  }

  /** The `f` entries `estimator` sees for output cell `(x, k, z)`: the
      entries of block `k` along the axis, NaN where the block runs past
      the end of `a`. */
  function AxisBlock(a: Array3<Option<real>>, f: nat, x: nat, k: nat, z: nat): seq<Option<real>>
    requires a.Valid() && x < a.shape.d0 && z < a.shape.d2
  {
    seq(f, i requires 0 <= i < f =>
      if Mul(k, f) + i < a.shape.d1 then a.cells[x][Mul(k, f) + i][z] else None)
  }

  /** The stack of `downsample_axis` has the output's shape and its
      column `(x, k, z)` is `AxisBlock(a, f, x, k, z)`. */
  lemma StackAxisShape(a: Array3<Option<real>>, f: nat, truncate: bool)
    requires f >= 1 && a.Valid()
    ensures |StackAxis(AxisPrepared(a, f, truncate), f)| == f
    ensures Fits(StackAxis(AxisPrepared(a, f, truncate), f),
                 Shape3(a.shape.d0, AxisBlocks(a.shape.d1, f, truncate), a.shape.d2))
  {
    var cr := AxisPrepared(a, f, truncate);
    var n := AxisBlocks(a.shape.d1, f, truncate);
    forall i | 0 <= i < f
      ensures |StackAxis(cr, f)| == f && StackAxis(cr, f)[i] == PhaseAxis(cr, i, f)
      ensures |PhaseAxis(cr, i, f)| == cr.shape.d0
      ensures forall x :: 0 <= x < cr.shape.d0 ==> |PhaseAxis(cr, i, f)[x]| == n
      ensures forall x, k :: 0 <= x < cr.shape.d0 && 0 <= k < n ==> |PhaseAxis(cr, i, f)[x][k]| == cr.shape.d2
    {
      StackAxisAt(cr, f, n, i);
      forall x, k | 0 <= x < cr.shape.d0 && 0 <= k < n
        ensures |PhaseAxis(cr, i, f)[x][k]| == cr.shape.d2
      {
        StridedLength(cr.cells[x], i, f, n);
        StridedAt(cr.cells[x], i, f, k);
      }
    }
    MulOne(f);
    ConcatLength(seq(f, i requires 0 <= i < f => [PhaseAxis(cr, i, f)]), 1);
  }

  lemma StackAxisColumn(a: Array3<Option<real>>, f: nat, truncate: bool, x: nat, k: nat, z: nat)
    requires f >= 1 && a.Valid()
    requires x < a.shape.d0 && k < AxisBlocks(a.shape.d1, f, truncate) && z < a.shape.d2
    ensures Fits(StackAxis(AxisPrepared(a, f, truncate), f),
                 Shape3(a.shape.d0, AxisBlocks(a.shape.d1, f, truncate), a.shape.d2))
    ensures Column3(StackAxis(AxisPrepared(a, f, truncate), f), x, k, z) == AxisBlock(a, f, x, k, z)
  {
    var cr := AxisPrepared(a, f, truncate);
    var n := AxisBlocks(a.shape.d1, f, truncate);
    StackAxisShape(a, f, truncate);
    forall i | 0 <= i < f
      ensures Column3(StackAxis(cr, f), x, k, z)[i] == AxisBlock(a, f, x, k, z)[i]
    {
      StackAxisAt(cr, f, n, i);
      StackAxisEntry(cr, f, n, i, x, k, z);
      AxisPreparedAt(a, f, truncate, x, i + Mul(k, f), z);
    }
  }

  /** `downsample_axis(a, factor, axis, estimator, truncate)` on the array
      seen as `pre x axis x post`: output cell `(x, k, z)` is the estimator
      of block `k` along the axis, padded with NaN past the end unless
      `truncate` drops the partial block. A factor below 1 is refused. */
  function DownsampleAxis<U>(a: Array3<Option<real>>, factor: int, est: seq<Option<real>> -> U, truncate: bool)
    : (r: Result<Array3<U>>)
    requires a.Valid()
    ensures factor < 1 <==> r == Err(InvalidFactor)
    ensures factor >= 1 ==>
              && r.Ok? && r.value.Valid()
              && r.value.shape == Shape3(a.shape.d0, AxisBlocks(a.shape.d1, factor, truncate), a.shape.d2)
    ensures factor >= 1 ==> forall x, k, z :: 0 <= x < a.shape.d0 && 0 <= k < r.value.shape.d1 && 0 <= z < a.shape.d2 ==>
              r.value.cells[x][k][z] == est(AxisBlock(a, factor, x, k, z))
  {
    if factor < 1 then Err(InvalidFactor)
    else
      var f := factor as nat;
      var s := Shape3(a.shape.d0, AxisBlocks(a.shape.d1, f, truncate), a.shape.d2);
      StackAxisShape(a, f, truncate);
      var r := Reduce3(StackAxis(AxisPrepared(a, f, truncate), f), s, est);
      assert forall x, k, z :: 0 <= x < s.d0 && 0 <= k < s.d1 && 0 <= z < s.d2 ==>
               r.cells[x][k][z] == est(AxisBlock(a, f, x, k, z)) by {
        forall x, k, z | 0 <= x < s.d0 && 0 <= k < s.d1 && 0 <= z < s.d2
          ensures r.cells[x][k][z] == est(AxisBlock(a, f, x, k, z))
        {
          StackAxisColumn(a, f, truncate, x, k, z);
        }
      }
      Ok(r)
  }

  /* ---------------- the axis argument of downsample_axis ---------------- */

  /** The number of entries of an array of the given shape. */
  function Prod(shape: seq<nat>): nat
  {
    if |shape| == 0 then 1 else Mul(shape[0], Prod(shape[1..]))
  }

  /** `shape[axis]` as Python indexes the shape tuple: a negative axis
      counts from the end, and one outside `[-n, n)` raises. */
  function NormalAxis(n: nat, axis: int): (r: Result<nat>)
    ensures r.Ok? <==> -(n as int) <= axis < n
    ensures r.Err? ==> r.error == AxisOutOfRange
    ensures r.Ok? ==> r.value < n && (r.value == axis || r.value == axis + n)
  {
    if 0 <= axis < n then Ok(axis)
    else if -(n as int) <= axis < 0 then Ok(axis + n)
    else Err(AxisOutOfRange)
  }

  /** An N-D array of `shape`, seen as `pre x axis x post` around axis
      `ax`: the axes before `ax` flattened, axis `ax`, the axes after it
      flattened. `DownsampleAxis` works on this view. */
  function Layout(shape: seq<nat>, ax: nat): Shape3
    requires ax < |shape|
  {
    Shape3(Prod(shape[..ax]), shape[ax], Prod(shape[ax + 1..]))
  }

  /** The shape `downsample_axis(a, factor, axis, truncate=truncate)`
      returns for an array of `shape`: only the chosen axis changes. The
      axis is looked up before the factor is used. */
  function AxisResultShape(shape: seq<nat>, factor: int, axis: int, truncate: bool): (r: Result<seq<nat>>)
    ensures !(-|shape| <= axis < |shape|) <==> r == Err(AxisOutOfRange)
    ensures -|shape| <= axis < |shape| ==> (factor < 1 <==> r == Err(InvalidFactor))
    ensures r.Ok? ==>
              var ax := NormalAxis(|shape|, axis).value;
              && |r.value| == |shape|
              && r.value[ax] == AxisBlocks(shape[ax], factor, truncate)
              && forall i :: 0 <= i < |shape| && i != ax ==> r.value[i] == shape[i]
  {
    match NormalAxis(|shape|, axis)
    case Err(e) => Err(e)
    case Ok(ax) =>
      if factor < 1 then Err(InvalidFactor)
      else Ok(shape[ax := AxisBlocks(shape[ax], factor, truncate)])
  }

  /** Downsampling the `pre x axis x post` view gives the view of the
      result: the flattened axes before and after `axis` are untouched. */
  lemma AxisLayoutAgrees<U>(shape: seq<nat>, factor: int, axis: int, truncate: bool,
                            a: Array3<Option<real>>, est: seq<Option<real>> -> U)
    requires AxisResultShape(shape, factor, axis, truncate).Ok?
    requires a.Valid() && a.shape == Layout(shape, NormalAxis(|shape|, axis).value)
    ensures DownsampleAxis(a, factor, est, truncate).Ok?
    ensures DownsampleAxis(a, factor, est, truncate).value.shape
              == Layout(AxisResultShape(shape, factor, axis, truncate).value, NormalAxis(|shape|, axis).value)
  {
    var ax := NormalAxis(|shape|, axis).value;
    var r := AxisResultShape(shape, factor, axis, truncate).value;
    assert r[..ax] == shape[..ax];
    assert r[ax + 1..] == shape[ax + 1..];
  }
}
