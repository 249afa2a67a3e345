/** Small shared datatypes: an optional value, the outcome of one HTTP
    request made through `requests`, and the outcome of any other call that
    may raise. */
module Wrappers {

  datatype Option<+T> = None | Some(value: T)

  /** One HTTP request: either the call raised (connection error, timeout,
      a body that is not JSON), or the server answered with a status code and
      a decoded body. */
  datatype Http<+T> = Raised(error: string) | Responded(status: nat, body: T)

  /** A call that either raised (the exception's text) or returned a value. */
  datatype Attempt<+T> = Threw(error: string) | Returned(value: T)

  /** The reply of an IMAP SEARCH: whether its status is OK, and the message
      ids of `data[0].split()`, in the server's order. */
  datatype SearchReply = SearchReply(ok: bool, ids: seq<string>)
}
