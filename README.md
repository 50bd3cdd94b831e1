# Block downsampling of arrays (`image_tools/downsample.py`)

This project models the four downsampling functions of `image_tools/downsample.py`
and proves properties about them:

- `downsample_1d(a, factor, estimator)` cuts off the ragged right end of a 1-D array.
  It then stacks the `factor` strided views `a[i::factor]` and applies the estimator
  along the stacking axis (`Downsample.Downsample1D`).
- `downsample(a, factor, estimator)` does the same on both axes of a 2-D image, with
  `factor * factor` strided views (`Downsample.Downsample2D`).
- `downsample_cube(a, factor, ignoredim)` downsamples the two axes of a 3-D cube that
  are not `ignoredim`, always with the NaN-ignoring mean. If `ignoredim > 0`, it swaps
  that axis to the front first and swaps it back afterwards (`Downsample.DownsampleCube`).
- `downsample_axis(a, factor, axis, estimator, truncate)` downsamples one axis of an
  N-D array (`Downsample.DownsampleAxis`). Its ragged end is either cut off
  (`truncate`) or padded with NaN up to the next multiple of the factor.

Modelling choices:

- **Numbers and NaN.** Array entries are mathematical reals. NaN is `None` in
  `Values.Option<real>`. `Estimators.NanMean` is the NaN-ignoring mean (`nanmean`), and
  `Estimators.Mean` is the plain mean.
- **Estimators.** In the 1-D and 2-D functions the estimator is any function from the
  column of stacked values to a result. It is applied to every output position, as
  `estimator(stack, axis=0)` does for column-wise reductions.
- **Slicing.** Module `Slicing` holds the numpy primitives the code relies on, with
  numpy's own length rules:
  - strided slices `a[start::step]`;
  - the crop `a[:n - n % f]`;
  - NaN padding;
  - `swapaxes`;
  - `concatenate` of a list of lists.
- **Stack order.** The stacked array is built exactly as the code builds it. For the 2-D
  and cube stacks, entry `t = j*f + i` of the stack is the view
  `crarr[i::f, j::f]`.
- **Arrays of three and more axes.** A 3-D array is `Slicing.Array3`, with an explicit
  shape, so arrays with an empty axis keep their shape through `swapaxes`.
  `downsample_axis` is modelled on the `pre x axis x post` view of an N-D array. The
  axes before and after `axis` are flattened, and their shapes are handled by
  `Downsample.Layout` and `Downsample.AxisResultShape`.
- **Errors.** Errors the code raises are `Values.Result` errors. A factor below 1 is
  `InvalidFactor`. An axis that is out of range for `swapaxes` or for `shape[axis]` is
  `AxisOutOfRange`. In both functions that take an axis, the axis is used before the
  factor, so `AxisOutOfRange` wins when both are wrong.
- **Negative `ignoredim`.** The code swaps axes only when `ignoredim > 0` (lines 33 and
  39). A negative `ignoredim` therefore leaves axis 0 as the depth axis, exactly like
  `0`: it does not count from the end the way numpy axes do
  (`Downsample.CubeKeeps0`).

## Model

| member | source | states |
|---|---|---|
| Slicing.Strided | image_tools/downsample.py:56 | `a[start::step]` has as many entries as there are indices `start + k*step` inside `a` (counted by `SliceLength`; `SliceInside` and `SliceCovers` pin that count down) |
| Slicing.StridedAt | image_tools/downsample.py:56 | entry `k` of `a[start::step]` is `a[start + k*step]`, which lies inside `a` |
| Slicing.SliceInside | image_tools/downsample.py:56 | every index a strided slice visits is inside the array |
| Slicing.SliceCovers | image_tools/downsample.py:56 | the strided slice stops only once the next index would be past the end |
| Slicing.StridedLength | image_tools/downsample.py:56 | on a cropped array of length `n*f`, every phase `i < f` has exactly `n` entries |
| Slicing.Crop | image_tools/downsample.py:54-55 | `a[:xs - xs % f]` is the prefix of `a` of length `floor(xs/f)*f`, which drops fewer than `f` entries |
| Slicing.Crop2D | image_tools/downsample.py:21-22 | the 2-D crop keeps rows and columns up to the largest multiple of `f` and keeps every kept entry unchanged |
| Slicing.Phase2DShape | image_tools/downsample.py:23 | on a cropped `ny*f x nx*f` image, every view `crarr[i::f, j::f]` is `ny x nx` |
| Slicing.Phase2DAt | image_tools/downsample.py:23 | entry `(y, x)` of `crarr[i::f, j::f]` is `crarr[i + y*f][j + x*f]` |
| Slicing.SlabShape | image_tools/downsample.py:34 | each depth slab of a cube is a rectangular `ys x xs` image |
| Slicing.Swap01 | image_tools/downsample.py:33 | `swapaxes(0, 1)` exchanges the first two extents and moves entry `[y][x][z]` to `[x][y][z]` |
| Slicing.Swap02 | image_tools/downsample.py:33 | `swapaxes(0, 2)` exchanges the first and last extents and moves entry `[z][y][x]` to `[x][y][z]` |
| Slicing.Swap01Twice | image_tools/downsample.py:33-39 | swapping axes 0 and 1 back restores the original array |
| Slicing.Swap02Twice | image_tools/downsample.py:33-39 | swapping axes 0 and 2 back restores the original array |
| Slicing.Array3Ext | image_tools/downsample.py:34 | two well-formed arrays with the same shape and entries are equal |
| Slicing.Slab | image_tools/downsample.py:33-34 | the slice of a cube at index `k` of a given axis is a rectangular image of the other two extents |
| Slicing.SlabSwap01 | image_tools/downsample.py:33 | after `swapaxes(0, 1)`, depth slab `k` is the original array's slice `a[:, k, :]` |
| Slicing.SlabOfSwap01 | image_tools/downsample.py:39 | swapping the result back puts its depth slab `k` at index `k` of axis 1 |
| Slicing.SlabSwap02 | image_tools/downsample.py:33 | after `swapaxes(0, 2)`, depth slab `k` is the slice `a[:, :, k]` with its two axes exchanged |
| Slicing.SlabOfSwap02 | image_tools/downsample.py:39 | swapping the result back puts its depth slab `k` at index `k` of axis 2 |
| Slicing.CropAxis | image_tools/downsample.py:88-92 | the truncating crop along the axis keeps the first `floor(xs/f)*f` entries of every line and drops fewer than `f` |
| Slicing.PadAxis | image_tools/downsample.py:93-97 | concatenating the NaN extension keeps every original line as a prefix, and every added entry is the fill value |
| Slicing.ConcatAt | image_tools/downsample.py:23-25 | entry `t` of the concatenation of equal-length groups is entry `t mod w` of group `t div w` |
| Slicing.ConcatLength | image_tools/downsample.py:110 | the concatenation of `g` groups of length `w` has `g*w` entries |
| Estimators.Present | image_tools/downsample.py:3-5 | the non-NaN values of a sequence are exactly the values of its present entries |
| Estimators.NanMean | image_tools/downsample.py:3-5 | `nanmean` is NaN exactly when every entry is NaN; otherwise it is the mean of the present entries |
| Estimators.SumAppend | image_tools/downsample.py:112 | the sum of a concatenation is the sum of the parts |
| Estimators.SumConstant | image_tools/downsample.py:112 | the sum of `n` copies of `c` is `n*c` |
| Estimators.MeanConstant | image_tools/downsample.py:112 | the mean of a non-empty constant sequence is that constant |
| Estimators.PresentCounts | image_tools/downsample.py:3-5 | the present values are each value of the block as often as it occurs, with one entry fewer per NaN |
| Estimators.PresentAppend | image_tools/downsample.py:112 | the non-NaN values of a concatenation are those of the parts, in order |
| Estimators.PresentAllMissing | image_tools/downsample.py:96 | an all-NaN extension has no present values |
| Estimators.NanMeanIgnoresPadding | image_tools/downsample.py:96-97 | appending NaN entries does not change `nanmean` |
| Estimators.PresentLift | image_tools/downsample.py:3-5 | data without NaN has all its values present |
| Estimators.NanMeanOfPresent | image_tools/downsample.py:3-5 | on data without NaN, `nanmean` is the plain mean |
| Estimators.NanMeanConstant | image_tools/downsample.py:36-38 | `nanmean` of a non-empty constant block is that constant |
| Estimators.NanMeanSingleton | image_tools/downsample.py:112 | `nanmean` of one entry is that entry, NaN included |
| Downsample.Stack1DColumns | image_tools/downsample.py:56-57 | the stack of phases has `f` rows of length `floor(xs/f)`, and its column `k` is the block `a[k*f .. k*f+f)` |
| Downsample.Downsample1D | image_tools/downsample.py:42-58 | a factor below 1 is an error and only then; otherwise there are `floor(xs/f)` outputs, output `k` being the estimator of block `k` |
| Downsample.Stack2DAt | image_tools/downsample.py:23-25 | the 2-D stack has `f*f` views; view `t` is `crarr[t mod f::f, t div f::f]`, of shape `floor(ys/f) x floor(xs/f)` |
| Downsample.Stack2DShape | image_tools/downsample.py:23-25 | every view of the 2-D stack is `floor(ys/f) x floor(xs/f)` |
| Downsample.Stack2DEntry | image_tools/downsample.py:23-25 | entry `(p, q)` of view `t` is pixel `(p*f + t mod f, q*f + t div f)` of the image |
| Downsample.Stack2DColumn | image_tools/downsample.py:23-25 | the column of the stack at `(p, q)` is the `f x f` block at `(p, q)`, in stack order |
| Downsample.Stack2DColumns | image_tools/downsample.py:23-25 | reducing the stack along axis 0 applies the estimator to each block |
| Downsample.Downsample2D | image_tools/downsample.py:9-26 | a factor below 1 is an error and only then; otherwise the result is `floor(ys/f) x floor(xs/f)`, with cell `(p, q)` the estimator of the `f x f` block at `(p, q)` |
| Downsample.Stack3At | image_tools/downsample.py:35-38 | view `t` of the cube stack, taken at depth `z`, is view `t` of the 2-D stack of slab `z` |
| Downsample.Stack3Shape | image_tools/downsample.py:35-38 | the cube stack has `f*f` views of shape `zs x floor(ys/f) x floor(xs/f)` |
| Downsample.Stack3Column | image_tools/downsample.py:35-38 | the cube stack's column at `(z, p, q)` is the `f x f` block at `(p, q)` of slab `z` |
| Downsample.CubeCell | image_tools/downsample.py:36-38 | cell `(z, p, q)` of the cube result is `nanmean` of that block |
| Downsample.CubeSlab | image_tools/downsample.py:34-38 | slab `z` of the cube result is `downsample` of slab `z` with `nanmean` |
| Downsample.CubeCore | image_tools/downsample.py:34-38 | the depth axis is kept, the other two are divided by `f` with rounding down, and every depth slab is downsampled on its own with `nanmean` |
| Downsample.DownsampleCube | image_tools/downsample.py:28-40 | an `ignoredim` above 2 is an axis error, checked before the factor; otherwise a factor below 1 is an error; otherwise the `ignoredim` axis keeps its length and the other two are divided by `f` with rounding down |
| Downsample.CubeKeeps0 | image_tools/downsample.py:33-40 | with `ignoredim <= 0`, slice `a[k]` of the result is `downsample(a[k], f, nanmean)` |
| Downsample.CubeKeeps1 | image_tools/downsample.py:33-40 | with `ignoredim == 1`, slice `a[:, k, :]` of the result is `downsample(a[:, k, :], f, nanmean)` |
| Downsample.CubeKeeps2 | image_tools/downsample.py:33-40 | with `ignoredim == 2`, slice `a[:, :, k]` of the result (axes exchanged) is `downsample` of that slice (axes exchanged) with `nanmean` |
| Downsample.AxisPrepared | image_tools/downsample.py:86-99 | the cropped or padded array has `AxisBlocks*f` entries along the axis, as the three branches prescribe |
| Downsample.AxisPreparedAt | image_tools/downsample.py:88-99 | inside the original axis, the prepared array has the original entries; past it, it has NaN |
| Downsample.StackAxisAt | image_tools/downsample.py:101-110 | the stack has `f` views; view `i` is `crarr[makeslice(i)]`, with `n` entries along the axis |
| Downsample.StackAxisEntry | image_tools/downsample.py:101-106 | entry `k` of `makeslice(i)` along the axis is entry `i + k*f` of the prepared array |
| Downsample.StackAxisShape | image_tools/downsample.py:110 | the stack fits the output shape `pre x AxisBlocks x post` |
| Downsample.StackAxisColumn | image_tools/downsample.py:110-112 | the stack's column at `(x, k, z)` is block `k` of the line, NaN past the end of the axis |
| Downsample.DownsampleAxis | image_tools/downsample.py:61-113 | a factor below 1 is an error and only then; otherwise the axis holds `AxisBlocks` entries and the others are unchanged, each output being the estimator of its block |
| Downsample.NormalAxis | image_tools/downsample.py:86 | `shape[axis]` accepts exactly `-n <= axis < n`, with a negative axis counting from the end |
| Downsample.AxisResultShape | image_tools/downsample.py:86-112 | an axis out of range is an error before the factor is looked at; otherwise only the chosen axis changes, to `ceil(xs/f)` or `floor(xs/f)` |
| Downsample.AxisLayoutAgrees | image_tools/downsample.py:101-112 | the `pre x axis x post` model produces the layout of the N-D result shape |
| DownsampleLaws.CropLaw1D | image_tools/downsample.py:54-55 | downsampling `a` equals downsampling its cropped prefix |
| DownsampleLaws.BlockOfPrefix | image_tools/downsample.py:54-55 | the blocks of a prefix are blocks of the whole array |
| DownsampleLaws.CropLaw2D | image_tools/downsample.py:21-22 | downsampling an image equals downsampling its cropped part |
| DownsampleLaws.BlockOfCrop2D | image_tools/downsample.py:21-22 | the blocks of the cropped image are the blocks of the image |
| DownsampleLaws.Identity1D | image_tools/downsample.py:54-57 | with factor 1 and an estimator that returns the single value of a one-value column, the result is the input |
| DownsampleLaws.Identity2D | image_tools/downsample.py:21-25 | the same for images |
| DownsampleLaws.SingletonEstimators | image_tools/downsample.py:3-7 | `nanmean` and `mean` of a single value are that value |
| DownsampleLaws.Constant1D | image_tools/downsample.py:54-57 | a constant array downsamples with `nanmean` to the same constant |
| DownsampleLaws.Constant2D | image_tools/downsample.py:21-25 | a constant image downsamples with `nanmean` to the same constant, for every factor |
| DownsampleLaws.Block2DOrder | image_tools/downsample.py:23-25 | stack position `j*f + i` of block `(p, q)` holds pixel `(p*f + i, q*f + j)` |
| DownsampleLaws.TruncateMatters | image_tools/downsample.py:88-99 | `truncate` changes the result exactly when the axis length is not a multiple of the factor |
| DownsampleLaws.AxisBlocksCover | image_tools/downsample.py:93-97 | the padded axis is the least multiple of `f` at or above `xs`, and every block starts inside the original axis |
| DownsampleLaws.AxisBlockSplit | image_tools/downsample.py:93-97 | a padded block is its original entries followed only by NaN |
| DownsampleLaws.PaddingIgnored | image_tools/downsample.py:93-112 | with `nanmean` and padding, each output is the mean of the non-empty run of original entries of its block |
| DownsampleLaws.Line | image_tools/downsample.py:86 | a 1-D array is the `1 x n x 1` view of itself |
| DownsampleLaws.AxisAgrees1D | image_tools/downsample.py:42-113 | on a 1-D array, `downsample_axis(..., truncate=True)` is `downsample_1d` |
| DownsampleLaws.NanMeanOnPresentData | image_tools/downsample.py:2-7 | on data without NaN, `nanmean` and `mean` give the same downsampled values |
| DownsampleLaws.MeanIsScaledSum | image_tools/downsample.py:17-19 | each mean-downsampled value is the sum-downsampled value divided by `f` |
| DownsampleLaws.Example1D | image_tools/downsample.py:54-57 | `[1,2,3,4,5]` and `[1,2,3,4]` both downsample by 2 to `[1.5, 3.5]` |
| DownsampleLaws.LineOf | image_tools/downsample.py:86 | a `1 x n x 1` array is the line of its entries |
| DownsampleLaws.ExampleAxisPadded | image_tools/downsample.py:82-83 | `[1,2,3,4]` by 3 without truncation gives `[2, 4]` |
| DownsampleLaws.ExampleAxisLastBlock | image_tools/downsample.py:82-83 | there, the padded last block `[4, NaN, NaN]` gives 4 |
| DownsampleLaws.ExampleAxisTruncated | image_tools/downsample.py:82-83 | `[1,2,3,4]` by 3 with truncation gives `[2]` |
| DownsampleLaws.FirstBlockMean | image_tools/downsample.py:82-83 | `nanmean([1, 2, 3]) == 2` |
| DownsampleLaws.LastBlockMean | image_tools/downsample.py:82-83 | `nanmean([4, NaN, NaN]) == 4` |
| DownsampleLaws.Example2D | image_tools/downsample.py:9-26 | the 4x4 image `0..15` downsamples by 2 to a 2x2 image whose top-left cell is 2.5 |

## Left out

- The import fallback at lines 2-7 is not modelled. It picks `scipy.stats.nanmean`, else
  `numpy.nanmean`, else `numpy.mean`, and the second `except` clause there can never
  run. The estimator is always passed explicitly, and the source's default `mean` is
  modelled by `Estimators.NanMean`.
- The `AttributeError` branch at lines 114-119 is not modelled. It installs a stub that
  raises when numpy lacks `nanmean`, and it depends on the installed library.
- Floating point is not modelled: entries are reals, and NaN is a separate value. Integer
  dtypes and their promotion to float are not modelled either.
- Views versus copies are not modelled, nor the deprecated indexing by a list of slices
  at lines 92 and 106. Only the values these produce are modelled.
- Factors that are not integers are not modelled. The code calls `int(factor)` in some
  places and uses `factor` itself in others.
- Estimators that do not act column by column along axis 0 are not modelled.
- Arrays of the wrong dimensionality are not modelled: the 1-D function takes a sequence,
  the 2-D function a rectangular image, and the cube function a 3-D array.
- `downsample_1d` on an N-D array is not modelled (the code crops by `myarr.size` but
  slices axis 0).
- `Downsample.DownsampleAxis`: only the `pre x axis x post` layout of an N-D array is
  modelled. The N-D shape and the axis argument are related to it by
  `Downsample.AxisResultShape` and `Downsample.AxisLayoutAgrees`.
- `Downsample.Downsample1D`: every factor below 1 is modelled as `InvalidFactor`. In the
  code, factor 0 raises `ZeroDivisionError`, and a negative factor gives a NaN scalar
  instead of an error.
- `Downsample.Downsample2D`, `Downsample.DownsampleCube` and `Downsample.DownsampleAxis`:
  every factor below 1 is `InvalidFactor`. In the code, factor 0 raises
  `ZeroDivisionError`. A negative factor makes `numpy.concatenate` raise on an empty
  list (lines 23, 36 and 110). In `downsample_axis` with padding, `numpy.empty` raises
  first, on the negative extension length (line 96).
- `Downsample.Downsample2D`: an image is a sequence of rows, so an image with no rows has
  no column count. The code returns shape `(0, xs // f)` for a `(0, xs)` image, while the
  model returns `[]`. No entry differs.
- `Estimators.Mean` of an empty sequence is 0 instead of NaN. No block is ever empty,
  because the factor is at least 1.
- `image_tools/pyhcongrid.py` is not part of this model.
