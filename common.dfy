/** Values shared by the components: optional values (JavaScript's null and
    undefined), the outcome of a call to the backend, and the Bootstrap badge
    variants the components choose between. */
module Common {

  /** A value that may be missing: `None` stands for null or undefined. */
  datatype Option<+T> = None | Some(value: T)

  /** How an awaited request to the backend ended: it resolved, or it threw and
      the error's `response.data.message` is `message` ("" when that message is
      missing, which JavaScript's `||` treats like an empty one). */
  datatype Reply = Ok | Failed(message: string)

  /** `error.response?.data?.message || fallback`. */
  function FailureText(message: string, fallback: string): (r: string)
    ensures r == "" <==> message == "" && fallback == ""
    ensures message != "" ==> r == message
    ensures message == "" ==> r == fallback
  {
    if message == "" then fallback else message
  }

  /** The `bg` variants of a react-bootstrap Badge. */
  datatype Variant = Primary | Secondary | Success | Danger | Warning | Info | Light
}
