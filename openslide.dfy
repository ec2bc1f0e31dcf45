/**
 * The whole-slide imaging library, seen only through the answers it gives.
 * Nothing of its decoding is modelled: each query becomes a field of a
 * value that the entry points receive as a parameter.
 */
module OpenSlide {

  /**
   * An opened slide. `hasError` is whether openslide_get_error reports an
   * error right after opening. The per-level queries are total functions of
   * the level index; `downsample` values are of an opaque type D.
   * `regionWord(x, y, level, w, h, k)` is the k-th 32-bit ARGB word that
   * openslide_read_region stores into the caller's w*h buffer for that request.
   */
  datatype Slide<D> = Slide(
    hasError: bool,
    layerCount: nat,
    layerWidth: nat -> int,
    layerHeight: nat -> int,
    layerDownsample: nat -> D,
    regionWord: (nat, nat, nat, nat, nat, nat) -> bv32)

  /** The library's two entry points that take a path: openslide_can_open and openslide_open. */
  datatype Library<D> = Library(canOpen: string -> bool, open: string -> Slide<D>)

  /** One call into the library, in the order the entry points issue them. */
  datatype Call =
    | CanOpen(path: string)
    | Open(path: string)
    | GetError
    | GetLayerCount
    | GetLayerDimensions(level: nat)
    | GetLayerDownsample(level: nat)
    | ReadRegion(x: nat, y: nat, level: nat, w: nat, h: nat)
    | GetPropertyValue(name: string)

  /** The row-major buffer of w*h ARGB words that openslide_read_region fills for one request. */
  function Region<D>(s: Slide<D>, x: nat, y: nat, level: nat, w: nat, h: nat): (px: seq<bv32>)
    ensures |px| == w * h
  {
    seq(w * h, (k: int) requires 0 <= k < w * h => s.regionWord(x, y, level, w, h, k))
  }
}
