/** The two network calls, seen from the component: a request is a GET of a
    URL, and what comes back is either a reply (its `ok` flag and its parsed
    JSON body) or a rejection carrying an error message. */
module Net {

  /** How one awaited `fetch(url)` followed by `res.json()` settles. */
  datatype Reply<T> = Reply(ok: bool, body: T) | Rejected(message: string)

  /** The outcome of the `try` block around a fetch: the parsed body, or the
      message of the error caught by `catch`. */
  datatype Result<T> = Success(value: T) | Failure(message: string)

  /** A request the component hands to the network. */
  datatype Request = Get(url: string)

  const StatusUrl := "/api/status"

  /** The `try` block: a reply that is not ok is turned into an error whose
      message is `notOkMessage`; a rejection keeps its own message. */
  function Settle<T>(reply: Reply<T>, notOkMessage: string): (r: Result<T>)
    ensures r.Success? <==> reply.Reply? && reply.ok
    ensures r.Success? ==> r.value == reply.body
    ensures r.Failure? ==> r.message == (if reply.Rejected? then reply.message else notOkMessage)
  {
    match reply
    case Rejected(m) => Failure(m)
    case Reply(ok, body) => if ok then Success(body) else Failure(notOkMessage)
  }

  /** How many GETs of the status endpoint a sequence of requests holds. */
  function StatusFetches(requests: seq<Request>): nat
  {
    multiset(requests)[Get(StatusUrl)]
  }
}
