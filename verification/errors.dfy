/** The error codes the operation layer reports, and its result type. */
module Errors {
  /**
   * The four codes the resolvers raise themselves, plus InternalServerError
   * for failures they do not catch (a null dereference, a schema validation
   * error, a duplicate-key error from a unique index).
   */
  datatype Code = Unauthenticated | Forbidden | BadUserInput | NotFound | InternalServerError

  datatype Error = Error(code: Code, message: string)

  datatype Result<+T> = Ok(value: T) | Err(error: Error)
}
