/** Results of the service operations: a value, or one of the two exception
    kinds the services raise (ResourceNotFoundException and BusinessException),
    each with its message. */
module Outcome {

  datatype Option<+T> = None | Some(value: T)

  datatype Error =
    | NotFound(message: string)   // ResourceNotFoundException
    | Business(message: string)   // BusinessException

  datatype Result<+T> = Ok(value: T) | Err(error: Error)
}
