/**
  What the middleware chain attaches to a request and how a step of it
  ends: either it answers with a status code and a message, or it hands the
  request on to the next step.
 */
module Requests {
  import opened JsValues

  /** `req.user`: the two claims the authentication step copies from the token. */
  datatype Identity = Identity(pkey: JsValue, role: JsValue)

  /** A middleware outcome: exactly one of "answer sent" and "next called". */
  datatype Gate = Reject(code: int, message: string) | Next(user: Identity)
}
