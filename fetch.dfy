/**
 * What the two front-end stores see of a network exchange: the `request`
 * helper turns a response into a value or a thrown `Error`, and `setError`
 * turns whatever was caught into the text shown to the user.
 */
module Fetch {
  import opened Common

  /** The body of a failed response once `response.json()` settled:
      `null` when it was not JSON, otherwise an object whose `error`
      field (a string) may be absent. */
  datatype ErrorBody = NotJson | JsonBody(error: Option<string>)

  /** A response as `request` receives it: an ok response with its decoded
      payload, a non-ok one with its status and body, or a `fetch` that
      rejected before any response (a network failure) with its message. */
  datatype Response<T> =
    | Ok(payload: T)
    | Failed(status: int, body: ErrorBody)
    | NetworkError(message: string)

  /** A value a `catch` block may receive. `Falsy` stands for every value
      JavaScript treats as false; `ErrorObject` is an `Error` instance,
      with the `payload` and `status` fields `request` attaches; `Other`
      is any other truthy value, given by its `String(...)` text. */
  datatype Thrown =
    | Falsy
    | ErrorObject(message: string, payload: Option<ErrorBody>, status: Option<int>)
    | Other(text: string)

  /** What an awaited `request` ends in: its value, or what it threw. */
  datatype Outcome<T> = Value(value: T) | Threw(thrown: Thrown)

  const DefaultMessage: string := "Request failed."

  /** `data && data.error ? data.error : 'Request failed.'` */
  function FailureMessage(body: ErrorBody): (m: string)
    ensures m != ""
    ensures body.JsonBody? && body.error.Some? && body.error.value != "" ==> m == body.error.value
    ensures !(body.JsonBody? && body.error.Some? && body.error.value != "") ==> m == DefaultMessage
  {
    match body
    case JsonBody(Some(e)) => if e != "" then e else DefaultMessage
    case _ => DefaultMessage
  }

  /** The text `setError(err)` stores: empty for a falsy value, the message
      of an `Error`, and `String(err)` for anything else. */
  function ErrorText(err: Thrown): string {
    match err
    case Falsy => ""
    case ErrorObject(message, _, _) => message
    case Other(text) => text
  }
}
