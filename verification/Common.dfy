/** Option and Result, for absent values and for the error returns of the source. */
module Common {

  datatype Option<+T> = None | Some(value: T)

  datatype Result<+T, +E> = Ok(value: T) | Err(error: E) {
    predicate IsFailure() {
      Err?
    }

    function PropagateFailure<U>(): Result<U, E>
      requires Err?
    {
      Err(error)
    }

    function Extract(): T
      requires Ok?
    {
      value
    }
  }

  /** The error returns that callers of the allocator can tell apart. */
  datatype Error =
    | NoCIDRsRemaining     // ErrCIDRRangeNoCIDRsRemaining
    | SubNetTooBig         // ErrCIDRSetSubNetTooBig
    | NilCIDR
    | OutOfRange
    | NoSuchSet            // a pod CIDR whose position has no cluster CIDR
    | Unparsable           // the text of a missing block
    | TooSmall             // a prefix too small to carve pod subnets from
    | NodeNotFound
    | NoAddresses          // a node that reports no address
    | PatchFailed
}
