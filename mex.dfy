/**
 * The host numerical environment's arrays, as far as the two entry points
 * look at them: the class of an argument, its two extents (mxGetM, mxGetN)
 * and its data.
 */
module Mex {

  /**
   * An input argument. A character array carries its text as
   * mxArrayToString returns it; a double array carries its entries in
   * column-major order, each already cast to a natural number.
   */
  datatype MxArray =
    | CharArray(m: nat, n: nat, text: string)
    | DoubleArray(m: nat, n: nat, values: seq<nat>)
    | OtherArray(m: nat, n: nat)
  {
    /** The host always hands over arrays whose data fills their extents. */
    predicate Valid() {
      match this
      case CharArray(m, n, text) => |text| == m * n
      case DoubleArray(m, n, values) => |values| == m * n
      case OtherArray(_, _) => true
    }

    /** mxIsChar(p) and mxGetM(p) == 1: a one-row character array. */
    predicate IsCharRow() {
      CharArray? && m == 1
    }
  }

  /** A uint8 numeric array: its dimension vector and its bytes in column-major order. */
  datatype Uint8Array = Uint8Array(dims: seq<nat>, data: seq<bv8>)
}
