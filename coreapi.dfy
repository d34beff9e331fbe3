/** Status codes and the byte type that the POSIX platform layer shares with the
    rest of the core API. Only their signs and their distinctness matter to the
    proofs in this project. */
module CoreApi {

  /** An unsigned char. */
  newtype byte = x: int | 0 <= x < 256

  const PS_SUCCESS: int := 0
  const PS_ARG_FAIL: int := -6
  const PS_PLATFORM_FAIL: int := -7
  const PS_MEM_FAIL: int := -8

  /** A value that may be absent: a NULL pointer, an unset variable. */
  datatype Option<T> = None | Some(value: T)
}
