/** Value-level helpers shared by the downsampling model: an optional value
    (a float that may be NaN) and the error results that replace Python
    exceptions. */
module Values {

  /** `None` stands for a missing (NaN) entry, `Some(v)` for the number `v`. */
  datatype Option<+T> = None | Some(value: T)

  /** The exceptions the downsamplers can raise on bad arguments.
      InvalidFactor: a factor below 1. Factor 0 raises ZeroDivisionError at
      `xs % int(factor)`. A negative factor leaves `range(factor)` empty:
      `downsample_1d` then reduces an empty array to a NaN scalar, the 2-D,
      cube and axis functions raise in `numpy.concatenate`, and the padded
      axis case raises earlier, in `numpy.empty` with a negative length.
      AxisOutOfRange: an axis index the array does not have. */
  datatype Error = InvalidFactor | AxisOutOfRange

  datatype Result<+R> = Ok(value: R) | Err(error: Error)
}
