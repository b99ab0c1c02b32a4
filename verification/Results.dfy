/** The outcome of an operation that the program can end with an exception or an abort. */
module Results {

  datatype Result<+T, +E> = Success(value: T) | Failure(error: E)

  datatype Option<+T> = None | Some(value: T)

  /** C `unsigned` arithmetic keeps the low 32 bits. */
  const TWO_TO_32: nat := 0x1_0000_0000

  function U32(n: int): (r: nat)
    ensures r < TWO_TO_32
  {
    n % TWO_TO_32
  }
}
