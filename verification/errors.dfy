/** The exceptions the modelled services raise, as values. */
module Errors {

  /** An HTTP exception (status code and detail message, as raised through the
      web framework) or the attribute error of the generic search. */
  datatype Error =
    | HttpError(status: nat, detail: string)
    | AttributeError(message: string)

  const Unauthorized: nat := 401
  const NotFound: nat := 404
  const InternalServerError: nat := 500

  /** What the web framework answers for an exception the code does not catch. */
  const Unhandled: Error := HttpError(InternalServerError, "Internal Server Error")
}
