/** The values the Loki delivery handler works on: what the wrapped transport
    hands back, what the caller finally sees, and what is written to the
    console as a fallback diagnostic channel. Real HTTP I/O is replaced by
    these values, which the handler receives as inputs. */
module LokiTypes {

  datatype Option<+T> = None | Some(value: T)

  /** An exception raised by the transport, by a content read or by a file
      write; only its message is ever inspected by the handler. */
  datatype Exception = Exception(message: string)

  /** The result of reading a content stream as a string: either the text, or
      the exception the read raised. */
  datatype Body = Readable(text: string) | Unreadable(fault: Exception)

  /** The outgoing push request; `content` is `None` when the request has no
      content at all (a null `Content`). */
  datatype HttpRequest = HttpRequest(content: Option<Body>)

  /** A response as returned by the inner handler. */
  datatype HttpResponse = HttpResponse(status: int, content: Body)

  /** What the inner handler's send produced: a response, or a fault
      (connection refused, DNS failure, timeout, ...). */
  datatype TransportResult = Responded(response: HttpResponse) | Faulted(fault: Exception)

  /** What the caller of a send observes: a returned response or a thrown
      exception. */
  datatype Outcome = Returned(response: HttpResponse) | Thrown(fault: Exception)

  /** One console line written by the handler, tagged by the place that
      writes it. */
  datatype Diagnostic =
    | SendError(status: int, body: string)   // non-2xx response with its body
    | SendException(message: string)          // exception caught around the send
    | BackupSaved                             // a record was appended to the backup file
    | BackupFailed(message: string)           // the backup attempt raised and was swallowed

  /** The 2xx success class of HTTP status codes (section 15.3 of RFC 9110). */
  predicate IsSuccessStatusCode(status: int)
    ensures IsSuccessStatusCode(status) <==> status / 100 == 2
  {
    200 <= status <= 299
  }

  /** What a caller of the inner handler alone, without the backup wrapper,
      would observe for the same transport result. */
  function Unwrapped(t: TransportResult): Outcome
  {
    match t
    case Responded(response) => Returned(response)
    case Faulted(e) => Thrown(e)
  }
}
