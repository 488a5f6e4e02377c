/**
 * Option and Result wrappers shared by the model. A `Result` stands for a
 * Java method that either returns a value or throws; `Fault` names the
 * exception (or, for the token loop, the exhausted retry budget).
 */
module Results {

  datatype Option<T> = None | Some(value: T)

  datatype Fault =
    | IndexOutOfBounds   // ArrayIndexOutOfBoundsException
    | IllegalArgument    // IllegalArgumentException from an image constructor
    | IllegalRange       // RuntimeException thrown by getRandomInRange
    | RetriesExhausted   // the candidate tokens handed to createCaptcha ran out

  datatype Result<T> = Ok(value: T) | Err(fault: Fault)
}
