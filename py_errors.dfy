/** The exceptions the modelled Python code raises, and the wrappers that carry
    either a value or one of them. */
module PyErrors {

  /** Python exceptions raised by the palette reader, the 4-bit packer and the
      fit geometry. */
  datatype PyError =
    | ValueError                       // int() of a malformed string, or unpacking the wrong number of fields
    | NotImplementedError(message: string)
    | IndexError                       // list index out of range, pop from an empty list
    | OverflowError                    // int.to_bytes of a value that does not fit
    | ZeroDivisionError                // true division by a zero dimension
    | UnboundLocalError                // a local read before any branch assigned it

  datatype Result<+T> = Ok(value: T) | Err(error: PyError)

  datatype Option<+T> = None | Some(value: T)
}
