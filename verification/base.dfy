/**
 Shared vocabulary of the events service model: optional values, results that
 carry an error message (Go's `(value, error)` pairs), UUIDs and the HTTP status
 codes the handlers answer with.
 */
module Base {

  /** A value that may be absent: a Go `nil` reference or a missing field. */
  datatype Option<+T> = None | Some(value: T) {

    /** The value, or the given default when absent. */
    function GetOr(default: T): T {
      match this
      case Some(v) => v
      case None => default
    }
  }

  /** The outcome of a call that may fail with an error message. */
  datatype Result<+T> = Ok(value: T) | Err(error: string)

  /** A storage fault injected into one repository call: `None` means the call
      reaches the database and succeeds, `Some(msg)` means it fails with `msg`. */
  type Fault = Option<string>

  /** A UUID, abstracted to the 128-bit number it denotes. */
  datatype Uuid = Uuid(bits: nat)

  /** Parsers the handlers call but whose grammar is not modelled:
      `uuid.Parse` and `time.Parse(time.RFC3339, _)`. Timestamps are abstract
      naturals; `None` means the text does not parse. */
  datatype Parsers = Parsers(uuid: string -> Option<Uuid>, time: string -> Option<nat>)

  /** The zero `time.Time`, which `time.Parse` returns alongside an error. */
  const ZeroTime: nat := 0

  const StatusOK: nat := 200
  const StatusCreated: nat := 201
  const StatusNotModified: nat := 304
  const StatusBadRequest: nat := 400
  const StatusNotFound: nat := 404
  const StatusInternalServerError: nat := 500

  function Min(a: int, b: int): int {
    if a <= b then a else b
  }
}
