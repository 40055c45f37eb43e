/** Bytes and image sizes, for all three formats. */
module Images {

  const MAX_DIMENSION := 16_384
  const MAX_PIXELS := 16 * 1024 * 1024

  type byte = x: int | 0 <= x < 256

  datatype Dimensions = Dimensions(width: nat, height: nat)

  predicate ValidDimensions(d: Dimensions) {
    && 1 <= d.width <= MAX_DIMENSION
    && 1 <= d.height <= MAX_DIMENSION
    && d.width * d.height <= MAX_PIXELS
  }
}
