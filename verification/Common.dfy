/** Types shared by every part of the model. */
module Common {

  datatype Option<+T> = None | Some(value: T)

  datatype Result<+T, +E> = Ok(value: T) | Err(error: E)

  // The exception classes the modelled code throws.
  datatype Error = InvalidArgument | OutOfRange | DatabaseError | ServiceError

  const UINT64_MAX := 0xFFFF_FFFF_FFFF_FFFF
  const INT64_MAX := 0x7FFF_FFFF_FFFF_FFFF
  const INT64_MIN := -0x8000_0000_0000_0000

  // Fixed-width machine integers: the verifier checks every intermediate result against the bounds, so a
  // method written over these types cannot wrap around.
  newtype uint64 = x: int | 0 <= x <= UINT64_MAX
  newtype int64 = x: int | INT64_MIN <= x <= INT64_MAX

  // The integers an int64 can hold, for specifications that reason over unbounded integers.
  predicate FitsInt64(x: int) {
    INT64_MIN <= x <= INT64_MAX
  }

  // Shares, contracts or coins: a 64-bit count.
  type Volume = x: int | 0 <= x <= UINT64_MAX

  type Int64 = x: int | FitsInt64(x)
}
