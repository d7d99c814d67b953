/** The delivering handler placed under the HTTP client that pushes batches to
    Loki. It forwards every push to the inner handler, and when delivery
    cannot be confirmed (a non-2xx status, or an exception) it writes a
    console diagnostic and makes one backup attempt of the request payload,
    then hands the response or the exception back to its caller. */
module LokiHandler {
  import opened LokiTypes
  import opened BackupStore

  /** The path a send takes through the handler. `Delivered`: a 2xx
      response, nothing else happens. `Rejected`: a non-2xx response whose
      body was read. `Caught`: the exception that ends in the catch block,
      either the transport's own fault or the fault raised while reading the
      body of a non-2xx response. */
  datatype Path = Delivered | Rejected(status: int, body: string) | Caught(fault: Exception)

  /** A non-2xx response whose body cannot be read: the only case in which the
      handler's outcome differs from the inner handler's. */
  predicate RejectionBodyFaults(t: TransportResult)
  {
    t.Responded? && !IsSuccessStatusCode(t.response.status) && t.response.content.Unreadable?
  }

  /** Classifies a transport result. Only the status decides whether the
      delivery is confirmed; the body is read only when it is not, and a
      fault while reading it is caught like a transport fault. */
  function Classify(t: TransportResult): (p: Path)
    ensures p.Delivered? <==> t.Responded? && IsSuccessStatusCode(t.response.status)
    ensures p.Rejected? <==> t.Responded? && !IsSuccessStatusCode(t.response.status) && t.response.content.Readable?
    ensures p.Rejected? ==> p.status == t.response.status && p.body == t.response.content.text
    ensures p.Caught? <==> t.Faulted? || RejectionBodyFaults(t)
    ensures p.Caught? && t.Faulted? ==> p.fault == t.fault
    ensures p.Caught? && t.Responded? ==> p.fault == t.response.content.fault
  {
    match t
    case Faulted(e) => Caught(e)
    case Responded(response) =>
      if IsSuccessStatusCode(response.status) then Delivered
      else
        match response.content
        case Readable(body) => Rejected(response.status, body)
        case Unreadable(e) => Caught(e)
  }

  /** The console line written when delivery is not confirmed: the status
      and body of a rejected response, or the message of the exception that
      reached the catch block. */
  function Report(t: TransportResult): (d: Diagnostic)
    requires !Classify(t).Delivered?
    ensures Classify(t).Rejected? ==> d == SendError(t.response.status, t.response.content.text)
    ensures t.Faulted? ==> d == SendException(t.fault.message)
    ensures RejectionBodyFaults(t) ==> d == SendException(t.response.content.fault.message)
  {
    match Classify(t)
    case Rejected(status, body) => SendError(status, body)
    case Caught(e) => SendException(e.message)
  }

  /** What the caller of the handler observes. It is exactly what the inner
      handler alone would have given, except when the body of a non-2xx
      response cannot be read: then the read fault is thrown instead of the
      response. A returned response is always the transport's own. */
  function CallerOutcome(t: TransportResult): (o: Outcome)
    ensures o == Unwrapped(t) <==> !RejectionBodyFaults(t)
    ensures RejectionBodyFaults(t) ==> o == Thrown(t.response.content.fault)
    ensures o.Returned? ==> t.Responded? && o.response == t.response
    ensures o.Thrown? <==> Classify(t).Caught?
  {
    match Classify(t)
    case Caught(e) => Thrown(e)
    case _ => Returned(t.response)
  }

  /** Everything one send does: the caller's outcome, the records appended to
      the backup file and the console lines written, in order. */
  datatype Effect = Effect(outcome: Outcome, records: seq<string>, diagnostics: seq<Diagnostic>)

  /** One send through the handler. A confirmed delivery touches neither the
      backup file nor the console. Otherwise there is exactly one diagnostic
      for the failure followed by exactly one backup attempt, so at most one
      record. The outcome depends on the transport result alone: neither the
      payload nor a failing backup write can change what the caller sees. */
  function Send(request: HttpRequest, t: TransportResult, timestamp: string, writeFault: Option<Exception>): (e: Effect)
    ensures e.outcome == CallerOutcome(t)
    ensures Classify(t).Delivered? ==> e.records == [] && e.diagnostics == []
    ensures !Classify(t).Delivered? ==>
              var c := BackupEffect(request, timestamp, writeFault);
              e.records == c.records && e.diagnostics == [Report(t)] + c.diagnostics
    ensures Classify(t).Rejected? ==> e.diagnostics[0] == SendError(t.response.status, t.response.content.text)
    ensures Classify(t).Caught? ==> e.diagnostics[0] == SendException(Classify(t).fault.message)
    ensures |e.records| <= 1
    ensures e.records != [] <==> !Classify(t).Delivered? && HasPayload(request) && writeFault.None?
  {
    var p := Classify(t);
    if p.Delivered? then
      Effect(CallerOutcome(t), [], [])
    else
      var c := BackupEffect(request, timestamp, writeFault);
      Effect(CallerOutcome(t), c.records, [Report(t)] + c.diagnostics)
  }

  /** One push attempt, with everything the handler cannot see for itself:
      the inner handler's result, the clock and whether the file append
      fails. */
  datatype Attempt = Attempt(request: HttpRequest, transport: TransportResult, timestamp: string, writeFault: Option<Exception>)

  /** The records a sequence of pushes through the same handler appends to
      the backup file, in the order the pushes conclude. */
  function RunRecords(attempts: seq<Attempt>): seq<string>
  {
    if attempts == [] then []
    else
      var a := attempts[0];
      Send(a.request, a.transport, a.timestamp, a.writeFault).records + RunRecords(attempts[1..])
  }

  /** An attempt whose payload ends up in the backup file: delivery not
      confirmed, a non-empty payload and a write that succeeds. */
  predicate Captures(a: Attempt)
  {
    !Classify(a.transport).Delivered? && HasPayload(a.request) && a.writeFault.None?
  }

  function CountCaptured(attempts: seq<Attempt>): nat
  {
    if attempts == [] then 0
    else (if Captures(attempts[0]) then 1 else 0) + CountCaptured(attempts[1..])
  }

  /** No double capture over many pushes: N pushes append exactly one record
      per captured attempt and none for any other, so never more records than
      pushes. */
  lemma {:induction false} RunRecordCount(attempts: seq<Attempt>)
    ensures |RunRecords(attempts)| == CountCaptured(attempts) <= |attempts|
  {
    if attempts != [] {
      RunRecordCount(attempts[1..]);
    }
  }

  /** The entries a sequence of pushes leaves in the backup file: the
      timestamp and payload of each captured attempt, in order. */
  function CapturedEntries(attempts: seq<Attempt>): seq<Entry>
  {
    if attempts == [] then []
    else
      var a := attempts[0];
      (if Captures(a) then [Entry(a.timestamp, a.request.content.value.text)] else [])
        + CapturedEntries(attempts[1..])
  }

  /** The records of a run are exactly the records of its captured attempts'
      timestamps and payloads, in order. */
  lemma {:induction false} RunRecordsEncode(attempts: seq<Attempt>)
    ensures RunRecords(attempts) == Encode(CapturedEntries(attempts))
  {
    if attempts != [] {
      var a := attempts[0];
      var rest := CapturedEntries(attempts[1..]);
      RunRecordsEncode(attempts[1..]);
      var records := Send(a.request, a.transport, a.timestamp, a.writeFault).records;
      assert RunRecords(attempts) == records + Encode(rest);
      if Captures(a) {
        var e := Entry(a.timestamp, a.request.content.value.text);
        assert records == [Record(e.timestamp, e.payload)];
        assert CapturedEntries(attempts) == [e] + rest;
        assert ([e] + rest)[1..] == rest;
      } else {
        assert records == [];
        assert CapturedEntries(attempts) == rest;
      }
    }
  }

  /** Reading the backup text of a run back gives exactly the timestamp and
      payload of every captured attempt, in order, when none of them holds a
      newline and no timestamp holds `": "`. */
  lemma RunDecodes(attempts: seq<Attempt>)
    requires forall a :: a in attempts && Captures(a) ==>
               Recoverable(Entry(a.timestamp, a.request.content.value.text))
    ensures Decode(Concat(RunRecords(attempts))) == Some(CapturedEntries(attempts))
  {
    RunRecordsEncode(attempts);
    CapturedRecoverable(attempts);
    DecodeEncode(CapturedEntries(attempts));
  }

  lemma {:induction false} CapturedRecoverable(attempts: seq<Attempt>)
    requires forall a :: a in attempts && Captures(a) ==>
               Recoverable(Entry(a.timestamp, a.request.content.value.text))
    ensures forall k :: 0 <= k < |CapturedEntries(attempts)| ==> Recoverable(CapturedEntries(attempts)[k])
  {
    if attempts != [] {
      assert forall a :: a in attempts[1..] ==> a in attempts;
      CapturedRecoverable(attempts[1..]);
    }
  }

  /** The handler, with the state its sends change: the backup file (as the
      records appended to it) and the console. */
  class CustomLokiHttpHandler {
    var backupFile: seq<string>
    var console: seq<Diagnostic>

    /** A handler over a backup file that may already hold records. */
    constructor (existing: seq<string>)
      ensures backupFile == existing && console == []
    {
      backupFile := existing;
      console := [];
    }

    /** The text of the backup file. */
    function BackupText(): string
      reads this
    {
      Concat(backupFile)
    }

    /** Appends the request payload to the backup file. A null or empty
        payload is skipped; any exception from reading the content or from
        writing the file is caught and reported on the console only. Earlier
        records, and the file's earlier text, are kept as a prefix. */
    method BackupLog(request: HttpRequest, timestamp: string, writeFault: Option<Exception>)
      modifies this
      ensures var c := BackupEffect(request, timestamp, writeFault);
              backupFile == old(backupFile) + c.records && console == old(console) + c.diagnostics
      ensures BackupText() == old(BackupText()) + Concat(BackupEffect(request, timestamp, writeFault).records)
    {
      var caught: Option<Exception> := None;
      match request.content {
        case None =>
        case Some(Unreadable(e)) =>
          caught := Some(e);
        case Some(Readable(logData)) =>
          if logData != "" {
            if writeFault.Some? {
              caught := writeFault;
            } else {
              backupFile := backupFile + [Record(timestamp, logData)];
              console := console + [BackupSaved];
            }
          }
      }
      if caught.Some? {
        console := console + [BackupFailed(caught.value.message)];
      }
      ConcatAppend(old(backupFile), BackupEffect(request, timestamp, writeFault).records);
    }

    /** Forwards a push whose inner result is `transport`. A 2xx response is
        returned with nothing else done; a non-2xx response is reported,
        backed up and returned; an exception is reported, backed up and
        rethrown. */
    method SendAsync(request: HttpRequest, transport: TransportResult, timestamp: string, writeFault: Option<Exception>)
      returns (outcome: Outcome)
      modifies this
      ensures var e := Send(request, transport, timestamp, writeFault);
              outcome == e.outcome && backupFile == old(backupFile) + e.records && console == old(console) + e.diagnostics
    {
      var caught: Option<Exception> := None;
      match transport {
        case Faulted(e) =>
          caught := Some(e);
        case Responded(response) =>
          outcome := Returned(response);
          if !IsSuccessStatusCode(response.status) {
            match response.content {
              case Unreadable(e) =>
                caught := Some(e);
              case Readable(body) =>
                console := console + [SendError(response.status, body)];
                BackupLog(request, timestamp, writeFault);
            }
          }
      }
      if caught.Some? {
        console := console + [SendException(caught.value.message)];
        BackupLog(request, timestamp, writeFault);
        outcome := Thrown(caught.value);
      }
    }
  }
}
