/** Optional values ("missing" cells) and error results shared by every component. */
module Wrappers {

  /** A cell value that may be missing; `None` plays the role of NaN. */
  datatype Option<+T> = None | Some(value: T)

  /** The failures the kernel can raise instead of producing a grid. */
  datatype Error =
    | NoBands             // `array[-1]` on a raster with no band (IndexError)
    | NegativeDimensions  // `as_strided` asked for a negative dimension (ValueError)
    | QuantileOutOfRange  // `nanquantile` with a probability outside [0, 1] (ValueError)

  datatype Result<+R> = Ok(value: R) | Err(error: Error)
}
