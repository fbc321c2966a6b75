/**
 * Option and Result, and the error values the configuration tool returns.
 *
 * Go returns `(value, error)` pairs; a `Result` is either the value or the
 * error, never both, so "a failure returns no bytes" is built into the type.
 */
module Wrappers {

  datatype Option<+T> = None | Some(value: T)

  datatype Result<+T> = Ok(value: T) | Err(error: Error)

  /** The error values raised by the modelled code, one case per distinct cause. */
  datatype Error =
    | NumSyntax(input: string)      // strconv: not a decimal number
    | NumRange(input: string)       // strconv: out of range for the bit size
    | CorruptBase64                 // encoding/base64: illegal input
    | RandomUnavailable             // crypto/rand: read failed
    | InvalidAddress(input: string) // net/netip: text is not an address or prefix
    | InvalidKey                    // key text does not hold a usable 32-byte key
    | MissingField(field: string)   // "<field> is required"
    | NotValid(field: string)       // "<field> is not valid"
    | UnknownSection(name: string)  // "unknown section: <name>"
    | DuplicateSection              // "multiple [Interface] sections found"
    | MissingSection                // "missing Interface section"
}
