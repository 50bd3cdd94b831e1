/** The numpy indexing primitives the downsamplers are built from: slices
    with a step (`a[start::step]`), cropping to a multiple of the factor,
    NaN padding along an axis, 3-D arrays that carry their shape, and
    `swapaxes`. */
module Slicing {
  import opened Arith

  /** The number of entries of `a[start::step]` on a sequence of length `n`. */
  function SliceLength(n: nat, start: nat, step: nat): nat
    requires step >= 1
    decreases n - start
  {
    if start >= n then 0 else 1 + SliceLength(n, start + step, step)
  }

  /** Every entry a slice takes lies inside the sequence. */
  lemma {:induction false} SliceInside(n: nat, start: nat, step: nat, k: nat)
    requires step >= 1 && k < SliceLength(n, start, step)
    ensures start + Mul(k, step) < n
    decreases k
  {
    MulZero(step);
    if k > 0 {
      SliceInside(n, start + step, step, k - 1);
      MulSucc(k - 1, step);
    }
  }

  /** The slice stops only at the end of the sequence: one more step would
      leave it. */
  lemma {:induction false} SliceCovers(n: nat, start: nat, step: nat)
    requires step >= 1
    ensures start + Mul(SliceLength(n, start, step), step) >= n
    decreases n - start
  {
    MulZero(step);
    if start < n {
      SliceCovers(n, start + step, step);
      MulSucc(SliceLength(n, start + step, step), step);
    }
  }

  /** Python's `a[start::step]`: the entries at `start`, `start + step`,
      `start + 2*step`, ... that lie inside `a`. */
  function Strided<T>(a: seq<T>, start: nat, step: nat): (r: seq<T>)
    requires step >= 1
    ensures |r| == SliceLength(|a|, start, step)
  {
    seq(SliceLength(|a|, start, step), k requires 0 <= k < SliceLength(|a|, start, step) =>
      SliceInside(|a|, start, step, k); a[start + Mul(k, step)])
  }

  /** Entry `k` of `a[start::step]` is entry `start + k*step` of `a`. */
  lemma StridedAt<T>(a: seq<T>, start: nat, step: nat, k: nat)
    requires step >= 1 && k < |Strided(a, start, step)|
    ensures start + Mul(k, step) < |a| && Strided(a, start, step)[k] == a[start + Mul(k, step)]
  {
    SliceInside(|a|, start, step, k);
  }

  /** On an axis of length `n * f` every phase `i < f` has exactly `n`
      entries. */
  lemma StridedLength<T>(a: seq<T>, i: nat, f: nat, n: nat)
    requires f >= 1 && i < f && |a| == Mul(n, f)
    ensures |Strided(a, i, f)| == n
  {
    var m := SliceLength(|a|, i, f);
    if m > n {
      SliceInside(|a|, i, f, n);
    } else if m < n {
      SliceCovers(|a|, i, f);
      MulMono(m + 1, n, f);
      MulSucc(m, f);
    }
  }

  /** `a[:len(a) - len(a) % f]`: drop the trailing `len(a) % f` entries. */
  function Crop<T>(a: seq<T>, f: nat): (r: seq<T>)
    requires f >= 1
    ensures |r| == Mul(Quot(|a|, f), f)
    ensures |r| <= |a| < |r| + f
    ensures r == a[..|r|]
  {
    QuotRem(|a|, f);
    a[..|a| - Rem(|a|, f)]
  }

  /** The width of a 2-D array stored row by row (0 when it has no rows). */
  function Width<T>(m: seq<seq<T>>): nat
  {
    if |m| == 0 then 0 else |m[0]|
  }

  /** Every row has the same length, as in a 2-D ndarray. */
  predicate IsRect<T>(m: seq<seq<T>>)
  {
    forall y :: 0 <= y < |m| ==> |m[y]| == Width(m)
  }

  /** `m[:ys - ys % f, :xs - xs % f]`. */
  function Crop2D<T>(m: seq<seq<T>>, f: nat): (r: seq<seq<T>>)
    requires f >= 1 && IsRect(m)
    ensures |r| == Mul(Quot(|m|, f), f)
    ensures forall y :: 0 <= y < |r| ==> |r[y]| == Mul(Quot(Width(m), f), f)
    ensures forall y, x :: 0 <= y < |r| && 0 <= x < |r[y]| ==> y < |m| && x < |m[y]| && r[y][x] == m[y][x]
  {
    var rows := Crop(m, f);
    seq(|rows|, y requires 0 <= y < |rows| => Crop(rows[y], f))
  }

  /** `m[i::f, j::f]`: rows `i, i+f, ...` and, in each, columns `j, j+f, ...`. */
  function Phase2D<T>(m: seq<seq<T>>, i: nat, j: nat, f: nat): seq<seq<T>>
    requires f >= 1
  {
    var rows := Strided(m, i, f);
    seq(|rows|, y requires 0 <= y < |rows| => Strided(rows[y], j, f))
  }

  /** On an `ny*f` by `nx*f` array, phase `(i, j)` is `ny` by `nx`. */
  lemma Phase2DShape<T>(m: seq<seq<T>>, i: nat, j: nat, f: nat, ny: nat, nx: nat)
    requires f >= 1 && i < f && j < f
    requires |m| == Mul(ny, f) && forall y :: 0 <= y < |m| ==> |m[y]| == Mul(nx, f)
    ensures |Phase2D(m, i, j, f)| == ny
    ensures forall y :: 0 <= y < ny ==> |Phase2D(m, i, j, f)[y]| == nx
  {
    StridedLength(m, i, f, ny);
    forall y | 0 <= y < ny
      ensures |Phase2D(m, i, j, f)[y]| == nx
    {
      StridedAt(m, i, f, y);
      StridedLength(m[i + Mul(y, f)], j, f, nx);
    }
  }

  /** Entry `(y, x)` of phase `(i, j)` is entry `(i + y*f, j + x*f)`. */
  lemma Phase2DAt<T>(m: seq<seq<T>>, i: nat, j: nat, f: nat, ny: nat, nx: nat, y: nat, x: nat)
    requires f >= 1 && i < f && j < f
    requires |m| == Mul(ny, f) && forall y :: 0 <= y < |m| ==> |m[y]| == Mul(nx, f)
    requires y < ny && x < nx
    ensures i + Mul(y, f) < |m| && j + Mul(x, f) < |m[i + Mul(y, f)]|
    ensures y < |Phase2D(m, i, j, f)| && x < |Phase2D(m, i, j, f)[y]|
    ensures Phase2D(m, i, j, f)[y][x] == m[i + Mul(y, f)][j + Mul(x, f)]
  {
    StridedLength(m, i, f, ny);
    StridedAt(m, i, f, y);
    var row := m[i + Mul(y, f)];
    StridedLength(row, j, f, nx);
    StridedAt(row, j, f, x);
  }

  /** The shape of a 3-D array: axis lengths `d0`, `d1`, `d2`. */
  datatype Shape3 = Shape3(d0: nat, d1: nat, d2: nat)

  /** A 3-D ndarray: its shape and its entries, indexed `cells[x][y][z]`.
      The shape is kept beside the entries because an empty axis would
      otherwise hide the lengths of the axes after it. */
  datatype Array3<T> = Array3(shape: Shape3, cells: seq<seq<seq<T>>>)
  {
    predicate Valid()
    {
      && |cells| == shape.d0
      && (forall x :: 0 <= x < |cells| ==> |cells[x]| == shape.d1)
      && (forall x, y :: 0 <= x < |cells| && 0 <= y < |cells[x]| ==> |cells[x][y]| == shape.d2)
    }
  }

  /** Each leading slab of a 3-D array is a `d1` by `d2` 2-D array. */
  lemma SlabShape<T>(a: Array3<T>, z: nat)
    requires a.Valid() && z < a.shape.d0
    ensures IsRect(a.cells[z]) && |a.cells[z]| == a.shape.d1
    ensures a.shape.d1 > 0 ==> Width(a.cells[z]) == a.shape.d2
  {
  }

  /** `a.swapaxes(0, 1)`. */
  function Swap01<T>(a: Array3<T>): (r: Array3<T>)
    requires a.Valid()
    ensures r.Valid() && r.shape == Shape3(a.shape.d1, a.shape.d0, a.shape.d2)
    ensures forall x, y, z :: 0 <= x < a.shape.d1 && 0 <= y < a.shape.d0 && 0 <= z < a.shape.d2 ==>
              r.cells[x][y][z] == a.cells[y][x][z]
  {
    Array3(Shape3(a.shape.d1, a.shape.d0, a.shape.d2),
      seq(a.shape.d1, x requires 0 <= x < a.shape.d1 =>
        seq(a.shape.d0, y requires 0 <= y < a.shape.d0 => a.cells[y][x])))
  }

  /** `a.swapaxes(0, 2)`. */
  function Swap02<T>(a: Array3<T>): (r: Array3<T>)
    requires a.Valid()
    ensures r.Valid() && r.shape == Shape3(a.shape.d2, a.shape.d1, a.shape.d0)
    ensures forall x, y, z :: 0 <= x < a.shape.d2 && 0 <= y < a.shape.d1 && 0 <= z < a.shape.d0 ==>
              r.cells[x][y][z] == a.cells[z][y][x]
  {
    Array3(Shape3(a.shape.d2, a.shape.d1, a.shape.d0),
      seq(a.shape.d2, x requires 0 <= x < a.shape.d2 =>
        seq(a.shape.d1, y requires 0 <= y < a.shape.d1 =>
          seq(a.shape.d0, z requires 0 <= z < a.shape.d0 => a.cells[z][y][x]))))
  }

  /** Two arrays of the same shape with the same entries are equal. */
  lemma Array3Ext<T>(a: Array3<T>, b: Array3<T>)
    requires a.Valid() && b.Valid() && a.shape == b.shape
    requires forall x, y, z :: 0 <= x < a.shape.d0 && 0 <= y < a.shape.d1 && 0 <= z < a.shape.d2 ==>
               a.cells[x][y][z] == b.cells[x][y][z]
    ensures a == b
  {
    forall x | 0 <= x < a.shape.d0
      ensures a.cells[x] == b.cells[x]
    {
      forall y | 0 <= y < a.shape.d1
        ensures a.cells[x][y] == b.cells[x][y]
      {
      }
    }
  }

  /** Swapping the same pair of axes twice restores the array: the swap at
      the end of `downsample_cube` undoes the one at its start. */
  lemma Swap01Twice<T>(a: Array3<T>)
    requires a.Valid()
    ensures Swap01(Swap01(a)) == a
  {
    Array3Ext(Swap01(Swap01(a)), a);
  }

  lemma Swap02Twice<T>(a: Array3<T>)
    requires a.Valid()
    ensures Swap02(Swap02(a)) == a
  {
    Array3Ext(Swap02(Swap02(a)), a);
  }

  /** The 2-D slice of a 3-D array across `axis` at index `k`, read the
      way `swapaxes(0, axis)` presents it as leading slab `k`: `a[k]`;
      `a[:, k, :]` with rows along axis 0; `a[:, :, k]` with rows along
      axis 1 and columns along axis 0. */
  function Slab<T>(a: Array3<T>, axis: nat, k: nat): (s: seq<seq<T>>)
    requires a.Valid() && axis <= 2
    requires k < (if axis == 0 then a.shape.d0 else if axis == 1 then a.shape.d1 else a.shape.d2)
    ensures IsRect(s)
    ensures |s| == (if axis == 1 then a.shape.d0 else a.shape.d1)
    ensures forall y :: 0 <= y < |s| ==> |s[y]| == (if axis == 2 then a.shape.d0 else a.shape.d2)
  {
    if axis == 0 then a.cells[k]
    else if axis == 1 then
      seq(a.shape.d0, x requires 0 <= x < a.shape.d0 => a.cells[x][k])
    else
      seq(a.shape.d1, y requires 0 <= y < a.shape.d1 =>
        seq(a.shape.d0, x requires 0 <= x < a.shape.d0 => a.cells[x][y][k]))
  }

  /** After `swapaxes(0, 1)` the leading slab `k` is the old `a[:, k, :]`,
      and the slab `[:, k, :]` is the old leading slab `k`. */
  lemma SlabSwap01<T>(a: Array3<T>, k: nat)
    requires a.Valid() && k < a.shape.d1
    ensures Swap01(a).cells[k] == Slab(a, 1, k)
  {
  }

  lemma SlabOfSwap01<T>(c: Array3<T>, k: nat)
    requires c.Valid() && k < c.shape.d0
    ensures Slab(Swap01(c), 1, k) == c.cells[k]
  {
  }

  /** Likewise for `swapaxes(0, 2)` and the slab `a[:, :, k]`. */
  lemma SlabSwap02<T>(a: Array3<T>, k: nat)
    requires a.Valid() && k < a.shape.d2
    ensures Swap02(a).cells[k] == Slab(a, 2, k)
  {
    forall y | 0 <= y < a.shape.d1
      ensures Swap02(a).cells[k][y] == Slab(a, 2, k)[y]
    {
    }
  }

  lemma SlabOfSwap02<T>(c: Array3<T>, k: nat)
    requires c.Valid() && k < c.shape.d0
    ensures Slab(Swap02(c), 2, k) == c.cells[k]
  {
    forall y | 0 <= y < c.shape.d1
      ensures Slab(Swap02(c), 2, k)[y] == c.cells[k][y]
    {
    }
  }

  /** `a[:, :xs - xs % f, :]`: crop the middle axis to a multiple of `f`. */
  function CropAxis<T>(a: Array3<T>, f: nat): (r: Array3<T>)
    requires f >= 1 && a.Valid()
    ensures r.Valid() && r.shape == Shape3(a.shape.d0, Mul(Quot(a.shape.d1, f), f), a.shape.d2)
    ensures r.shape.d1 <= a.shape.d1 < r.shape.d1 + f
    ensures forall x :: 0 <= x < r.shape.d0 ==> r.cells[x] == a.cells[x][..r.shape.d1]
  {
    QuotRem(a.shape.d1, f);
    var n := Mul(Quot(a.shape.d1, f), f);
    Array3(Shape3(a.shape.d0, n, a.shape.d2),
      seq(a.shape.d0, x requires 0 <= x < a.shape.d0 => a.cells[x][..n]))
  }

  /** `numpy.concatenate((a, fill-array of shape (d0, k, d2)), axis=1)`:
      `k` slices of `fill` appended along the middle axis. */
  function PadAxis<T>(a: Array3<T>, k: nat, fill: T): (r: Array3<T>)
    requires a.Valid()
    ensures r.Valid() && r.shape == Shape3(a.shape.d0, a.shape.d1 + k, a.shape.d2)
    ensures forall x :: 0 <= x < r.shape.d0 ==> r.cells[x][..a.shape.d1] == a.cells[x]
    ensures forall x, y, z :: 0 <= x < r.shape.d0 && a.shape.d1 <= y < r.shape.d1 && 0 <= z < r.shape.d2 ==>
              r.cells[x][y][z] == fill
  {
    var slab := seq(a.shape.d2, z requires 0 <= z < a.shape.d2 => fill);
    Array3(Shape3(a.shape.d0, a.shape.d1 + k, a.shape.d2),
      seq(a.shape.d0, x requires 0 <= x < a.shape.d0 =>
        a.cells[x] + seq(k, y requires 0 <= y < k => slab)))
  }

  /** `a[:, i::f, :]`, the view that `makeslice(i)` selects. */
  function PhaseAxis<T>(a: Array3<T>, i: nat, f: nat): seq<seq<seq<T>>>
    requires f >= 1 && a.Valid()
  {
    seq(a.shape.d0, x requires 0 <= x < a.shape.d0 => Strided(a.cells[x], i, f))
  }

  /** `numpy.concatenate` along a new leading axis of a list of groups:
      the members of every group, group after group. */
  function Concat<T>(groups: seq<seq<T>>): seq<T>
  {
    if |groups| == 0 then [] else groups[0] + Concat(groups[1..])
  }

  /** When every group holds `w` members, member `t` of the concatenation
      is member `t % w` of group `t // w`. */
  lemma {:induction false} ConcatAt<T>(groups: seq<seq<T>>, w: nat, t: nat)
    requires w >= 1 && forall g :: 0 <= g < |groups| ==> |groups[g]| == w
    requires t < Mul(|groups|, w)
    ensures |Concat(groups)| == Mul(|groups|, w)
    ensures Quot(t, w) < |groups| && Concat(groups)[t] == groups[Quot(t, w)][Rem(t, w)]
  {
    MulSucc(|groups| - 1, w);
    ConcatLength(groups[1..], w);
    if t < w {
      QuotRemUnique(t, w, 0, t);
    } else {
      ConcatAt(groups[1..], w, t - w);
      QuotRem(t - w, w);
      MulSucc(Quot(t - w, w), w);
      QuotRemUnique(t, w, Quot(t - w, w) + 1, Rem(t - w, w));
    }
  }

  lemma {:induction false} ConcatLength<T>(groups: seq<seq<T>>, w: nat)
    requires forall g :: 0 <= g < |groups| ==> |groups[g]| == w
    ensures |Concat(groups)| == Mul(|groups|, w)
  {
    MulZero(w);
    if |groups| > 0 {
      ConcatLength(groups[1..], w);
      MulSucc(|groups| - 1, w);
    }
  }
}
