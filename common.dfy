/**
 * Values shared by the three modelled components: machine integer widths,
 * the exception kinds that the components raise or inspect, and the
 * failure-compatible Option / Result / Outcome wrappers used for the
 * runtime's `PyResult`.
 */
module Common {

  /** An unsigned 8-bit value (`u8`). */
  newtype byte = x: int | 0 <= x < 0x100

  /** An unsigned 16-bit value (`u16`), one UTF-16 code unit. */
  newtype u16 = x: int | 0 <= x < 0x1_0000

  /** An unsigned 32-bit value (`u32`). */
  newtype u32 = x: int | 0 <= x < 0x1_0000_0000

  /** A signed 32-bit value (`i32`). */
  newtype int32 = x: int | -0x8000_0000 <= x < 0x8000_0000

  /** A signed 64-bit value (`i64`). */
  newtype int64 = x: int | -0x8000_0000_0000_0000 <= x < 0x8000_0000_0000_0000

  datatype Option<+T> = None | Some(value: T)

  /**
   * The exception kinds the modelled code creates or tests for. Anything
   * raised by guest code that the core never inspects is `Other(id)`.
   * A `RuntimeError` carries its `__cause__`. `OsError` is what an I/O
   * error becomes; `SslError(cls, msg)` is an instance of one of the ssl
   * module's exception classes, named by `cls`; `OpenSslError(stack)` is the
   * `SSLError` built from an OpenSSL error stack (identified by `stack`),
   * whose text formatting is not part of this model.
   */
  datatype Exc =
    | StopIteration
    | StopAsyncIteration
    | GeneratorExit
    | ValueError(msg: string)
    | TypeError(msg: string)
    | RuntimeError(msg: string, cause: Option<Exc>)
    | OsError(errno: int)
    | SslError(cls: string, msg: string)
    | OpenSslError(stack: nat)
    | Other(id: nat)

  /** `PyResult<T>`: a value, or the exception that propagates. */
  datatype Result<+T> = Ok(value: T) | Err(error: Exc) {
    predicate IsFailure() { Err? }

    function PropagateFailure<U>(): Result<U>
      requires Err?
    {
      Err(error)
    }

    function Extract(): T
      requires Ok?
    {
      value
    }
  }

  /** `PyResult<()>`: success, or the exception that propagates. */
  datatype Outcome = Pass | Fail(error: Exc)
}
