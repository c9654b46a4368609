/** Failure-carrying wrappers and the error kinds the capture pipeline can raise. */
module Common {

  datatype Option<+T> = None | Some(value: T)

  datatype Result<+T, +E> = Success(value: T) | Failure(error: E)

  /** The exceptions thrown along the scan path; every one of them ends as an HTTP 400. */
  datatype Error =
    | BadRequestBody                   // the request body is not JSON, or is null so `body.chequeNum` throws
    | ExecFailed(message: string)      // exec reported an error object for the capture script
    | StderrWritten(stderr: string)    // the capture script wrote to its error channel
    | ServiceFailed(message: string)   // upload or generation against the recognition service failed
    | MalformedJson                    // JSON.parse rejected the cleaned response text
    | PathNotAssignable                // the parsed value is a primitive, so `resJson['path'] = ...` throws
}
