# Loki delivery handler with local backup

A model of `CustomLokiHttpHandler`, the delegating HTTP handler that sits
under the `HttpClient` used by the Grafana Loki sink of this logger. Every
batch pushed to Loki passes through its `SendAsync`:

- a 2xx response is returned and nothing else happens;
- a non-2xx response is reported on the console with its status and body,
  the request payload is handed to `BackupLog`, and the response is returned;
- an exception from the inner handler is reported on the console, the
  payload is handed to `BackupLog`, and the same exception is rethrown;
- if the body of a non-2xx response cannot be read, that read fault is
  caught by the same catch block: it is reported, the payload is backed up
  once, and the read fault is rethrown instead of the response.

`BackupLog` reads the request content; a null or empty payload is skipped,
otherwise one record `"<timestamp>: <payload>\n"` is appended to
`logs/loki_backup.log`. Any exception while reading or writing is caught and
only reported on the console.

Files:

- `types.dfy` (module `LokiTypes`): the inner handler's result
  (`Responded(HttpResponse(status, content))` or `Faulted(e)`, where the
  content reads as text or faults), the request (content absent, readable or
  faulting), the caller's outcome (`Returned` or `Thrown`), the console lines
  as tagged `Diagnostic`s, the 2xx success test (`IsSuccessStatusCode`,
  section 15.3 of RFC 9110) and `Unwrapped`, what the inner handler alone
  would give the caller.
- `backup.dfy` (module `BackupStore`): the record format, the backup file's
  text as the concatenation of its records, a reader that splits that text
  into lines and each line at its first `": "` (the partner of the record
  format), and `BackupEffect`, the pure description of one backup attempt.
- `handler.dfy` (module `LokiHandler`): the classification of a send, the
  caller's outcome, `Send` (everything one send does), the count of records
  over many sends, and the class `CustomLokiHttpHandler` whose fields are the
  backup file and the console and whose methods `BackupLog` and `SendAsync`
  update them in place, each proved to do exactly what the pure description
  says.

Inputs the handler cannot see for itself are parameters: the inner
handler's result, the content read results, the current UTC time as an
opaque string (`timestamp`), and whether the file append fails
(`writeFault`).

Two points of the code's behaviour that the model reproduces as written:

- The body of a 2xx response is never read. The body is read only for a
  non-2xx status (line 84), and a fault while reading it goes to the catch
  block at line 89: it is reported, the payload is backed up once, and the
  read fault is rethrown instead of the response (`CallerOutcome`, `Send`).
- The payload is written unescaped (line 105), so the line-oriented file
  reads back record by record only when payloads hold no newline
  (`DecodeEncode`, `NewlinePayloadReadsAsTwo`).

## Model

| member | source | states |
|---|---|---|
| `LokiHandler.Classify` | Logger/Program.cs:80-84 | only the status decides confirmation: delivered iff a 2xx response; rejected (with that status and body) iff a non-2xx response with a readable body; caught iff the transport faulted or the non-2xx body read faulted, carrying exactly that fault |
| `LokiHandler.CallerOutcome` | Logger/Program.cs:75-95 | the caller sees exactly what the inner handler alone would give, except (iff) when a non-2xx body read faults, where that read fault is thrown; a returned response is always the transport's own; an exception is thrown iff the path is the catch block |
| `LokiHandler.Send` | Logger/Program.cs:75-96 | a 2xx send leaves backup file and console untouched; any other send makes exactly one failure diagnostic (status and body of a rejection, or the caught exception's message) followed by exactly one backup attempt; at most one record per send, and one iff delivery is not confirmed, the payload is non-empty and the write succeeds; the outcome depends on the transport result only, so a failing backup cannot change it |
| `LokiTypes.IsSuccessStatusCode` | Logger/Program.cs:82 | a status is a success exactly when it is in the 2xx class, i.e. its hundreds digit is 2 |
| `LokiHandler.Report` | Logger/Program.cs:84-91 | the failure line carries the status and body of a rejected response, or the message of the transport fault or of the body-read fault that reached the catch block |
| `LokiHandler.RunRecordCount` | Logger/Program.cs:75-96 | over any sequence of sends, the records they append (as `SendAsync`'s contract gives them call by call) are exactly one per captured send and none otherwise, never more records than sends |
| `LokiHandler.RunRecordsEncode` | Logger/Program.cs:75-105 | the records a sequence of sends appends are the records of the captured sends' timestamps and payloads, in order |
| `LokiHandler.RunDecodes` | Logger/Program.cs:75-105 | the backup text of a sequence of sends reads back as exactly the (timestamp, payload) of each captured send, in order, when no payload or timestamp holds a newline and no timestamp holds `": "` |
| `BackupStore.DecodeEncode` | Logger/Program.cs:105 | round trip of the record format: the file text of records for newline-free entries (timestamps without `": "`) splits into lines and at the first `": "` back into exactly those entries, one per record |
| `BackupStore.NewlinePayloadReadsAsTwo` | Logger/Program.cs:105 | as written, one record whose payload is `"a\nt: b"` has the same file text as two records `a` and `b`, and reads back as two entries |
| `BackupStore.ConcatAppend` | Logger/Program.cs:105 | appending records appends their text to the file: the earlier text is preserved as a prefix |
| `BackupStore.BackupEffect` | Logger/Program.cs:98-113 | at most one record and one console line; a record iff the payload is non-empty and the write succeeds, and then it is the payload's record; nothing at all iff the content is null or empty; a saved line iff a record was appended; a failing read or write yields only a failure line with its message |
| `LokiHandler.CustomLokiHttpHandler.constructor` | Logger/Program.cs:47 | a new handler keeps the existing backup file and has written nothing to the console |
| `LokiHandler.CustomLokiHttpHandler.BackupLog` | Logger/Program.cs:98-113 | the backup file becomes the old records followed by what `BackupEffect` appends, the console the old lines followed by its lines, and the file text is extended accordingly |
| `LokiHandler.CustomLokiHttpHandler.SendAsync` | Logger/Program.cs:75-96 | the returned or thrown outcome, the records appended and the console lines written are those of `Send`, with all earlier records and lines kept as a prefix |

## Left out

- The top-level statements (configuration loading, Serilog pipeline
  assembly, console, rolling-file and Loki sinks, `CloseAndFlush`) and the
  commented-out configuration variants: they only call into libraries that
  are not part of this model.
- Real HTTP I/O, `async`/`await` and `CancellationToken`: the inner
  handler's result is an input value.
- Concurrent sends and concurrent appends to `logs/loki_backup.log`: the code
  takes no lock, so no atomicity is claimed; sends are modelled one after
  the other.
- A file append that fails part-way: a failing write is modelled as
  appending nothing.
- Payloads holding a newline: the code appends them unescaped, so such a
  record cannot be told apart from several records when the file is read
  back (`NewlinePayloadReadsAsTwo`); the read-back lemmas assume newline-free
  payloads and timestamps.
- The text of `DateTime.UtcNow`: the timestamp is an opaque input string.
- Console wording, the status enum's printed name, and the wrapping of a
  faulted content read in an `AggregateException` by `.Result`: console lines
  are tagged values carrying the status, the body or the exception message.
