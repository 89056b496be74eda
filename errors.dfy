/** The application's error classes (frontend/src/types/error.ts) and the
    wider set of values a `catch` block can receive. */
module Errors {

  /** `NetworkError`, `ClientError` and `ServerError`: each keeps the
      arguments its constructor was given and never changes afterwards. */
  datatype AppError =
    | NetworkError(message: string)
    | ClientError(statusCode: int, message: string)
    | ServerError(statusCode: int, message: string)
  {
    /** The `name` property each constructor assigns. */
    function Name(): string {
      match this
      case NetworkError(_) => "NetworkError"
      case ClientError(_, _) => "ClientError"
      case ServerError(_, _) => "ServerError"
    }
  }

  /** What a `catch` can receive: one of the application's errors, a built-in
      `TypeError` (what `fetch` rejects with when the transport fails), or any
      other `Error`. */
  datatype Exception =
    | App(error: AppError)
    | TypeError(message: string)
    | PlainError(message: string)
  {
    function Message(): string {
      match this
      case App(e) => e.message
      case TypeError(m) => m
      case PlainError(m) => m
    }
  }

  /** `new NetworkError(message)`. */
  function NewNetworkError(message: string): (e: AppError)
    ensures e.NetworkError? && e.message == message && e.Name() == "NetworkError"
  {
    NetworkError(message)
  }

  /** `new ClientError(statusCode, message)`. */
  function NewClientError(statusCode: int, message: string): (e: AppError)
    ensures e.ClientError? && e.Name() == "ClientError"
    ensures e.statusCode == statusCode && e.message == message
  {
    ClientError(statusCode, message)
  }

  /** `new ServerError(statusCode, message)`. */
  function NewServerError(statusCode: int, message: string): (e: AppError)
    ensures e.ServerError? && e.Name() == "ServerError"
    ensures e.statusCode == statusCode && e.message == message
  {
    ServerError(statusCode, message)
  }

  /** The three kinds never coincide: equal status and message still leave a
      client error and a server error apart, by value and by name. */
  lemma KindsDisjoint(statusCode: int, message: string)
    ensures NewClientError(statusCode, message) != NewServerError(statusCode, message)
    ensures NewClientError(statusCode, message).Name() != NewServerError(statusCode, message).Name()
    ensures NewNetworkError(message).Name() != NewClientError(statusCode, message).Name()
    ensures NewNetworkError(message).Name() != NewServerError(statusCode, message).Name()
  {
  }
}
