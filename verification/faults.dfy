/** Failures the modelled code can raise, and a failure-compatible result type.
    Each fault names the Python exception (or condition) it stands for. */
module Faults {

  datatype Fault =
    /** `IndexError`: a list index past the end of the list. */
    | IndexOutOfRange
    /** `ValueError` from `bytes(...)`: an element outside 0..255. */
    | ByteOutOfRange
    /** The transport raised (connection lost, I/O failure); propagated unchanged. */
    | TransportFault
    /** `RuntimeError('Received error response ...')`: the reply carries the Modbus error flag. */
    | ErrorResponse
    /** `RuntimeError('Inverters not mapped yet.')`: slot 0 returned an empty payload. */
    | NotMappedYet
    /** The unpacker ran out of bytes before the layout was complete. */
    | InsufficientBytes
    /** The unpacker was handed more bytes than the layout consumes. */
    | ExcessBytes

  /** Either a value or the fault that aborted the computation; usable with `:-`. */
  datatype Result<+T> = Success(value: T) | Failure(error: Fault) {

    predicate IsFailure() {
      Failure?
    }

    function PropagateFailure<U>(): Result<U>
      requires Failure?
    {
      Failure(error)
    }

    function Extract(): T
      requires Success?
    {
      value
    }
  }

  /** A value that may be absent, for decoders whose only failure is "not well-formed". */
  datatype Option<+T> = None | Some(value: T)
}
