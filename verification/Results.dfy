/** What an awaited call comes back with: a value, or the error it threw. */
module Results {

  datatype Result<+T, +E> = Returned(value: T) | Thrown(error: E)
}
