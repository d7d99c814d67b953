/** The backup store: the local text file `logs/loki_backup.log` that
    receives, one record per captured push, the payloads whose delivery to
    Loki could not be confirmed. The file is modelled as the sequence of the
    records appended to it; its text is their concatenation. */
module BackupStore {
  import opened LokiTypes

  /** The text appended for one captured payload: the capture timestamp, a
      colon and a space, the payload, and a newline. The timestamp is the
      opaque text of the current UTC time. The contract says how the record
      is read back: the payload sits between the separator and the final
      newline. */
  function Record(timestamp: string, payload: string): (r: string)
    ensures |r| == |timestamp| + |payload| + 3
    ensures r[..|timestamp|] == timestamp
    ensures r[|timestamp|..|timestamp| + 2] == ": "
    ensures r[|timestamp| + 2..|r| - 1] == payload
    ensures r[|r| - 1] == '\n'
  {
    timestamp + ": " + payload + "\n"
  }

  /** The text of a file made of the given records, in append order. */
  function Concat(records: seq<string>): string
  {
    if records == [] then "" else records[0] + Concat(records[1..])
  }

  /** Appending records to the file appends their text to the file's text:
      the earlier text is kept unchanged as a prefix. */
  lemma {:induction false} ConcatAppend(front: seq<string>, back: seq<string>)
    ensures Concat(front + back) == Concat(front) + Concat(back)
  {
    if front == [] {
      assert front + back == back;
    } else {
      assert (front + back)[1..] == front[1..] + back;
      ConcatAppend(front[1..], back);
    }
  }

  /** A record read back from the backup file: its timestamp and its
      payload. */
  datatype Entry = Entry(timestamp: string, payload: string)

  /** The records written for the given entries, in order. */
  function Encode(entries: seq<Entry>): seq<string>
  {
    if entries == [] then [] else [Record(entries[0].timestamp, entries[0].payload)] + Encode(entries[1..])
  }

  /** The position of the first `c` in `s`, or `|s|` when there is none. */
  function IndexOf(s: string, c: char): (i: nat)
    ensures i <= |s|
    ensures i < |s| ==> s[i] == c
    ensures forall k :: 0 <= k < i ==> s[k] != c
  {
    if s == [] then 0 else if s[0] == c then 0 else 1 + IndexOf(s[1..], c)
  }

  /** A `": "` separator starts at position `k` of `s`. */
  predicate SeparatorAt(s: string, k: int)
  {
    0 <= k && k + 1 < |s| && s[k] == ':' && s[k + 1] == ' '
  }

  /** The position of the first `": "` in `s`, or `|s|` when there is none. */
  function SeparatorIndex(s: string): (i: nat)
    ensures i <= |s|
    ensures i + 2 <= |s| ==> SeparatorAt(s, i)
    ensures forall k :: 0 <= k < i ==> !SeparatorAt(s, k)
  {
    if |s| < 2 then |s|
    else if SeparatorAt(s, 0) then 0
    else
      var i := 1 + SeparatorIndex(s[1..]);
      assert forall k :: 1 <= k < |s| ==> SeparatorAt(s, k) == SeparatorAt(s[1..], k - 1);
      i
  }

  /** Splits one line of the backup file at its first `": "`; a line without
      a separator is not a record. */
  function ParseLine(line: string): Option<Entry>
  {
    var i := SeparatorIndex(line);
    if i + 2 <= |line| then Some(Entry(line[..i], line[i + 2..])) else None
  }

  /** Reads the backup file's text back as entries: one per line, each line
      split at its first `": "`. `None` when some line is not a record. */
  function Decode(text: string): Option<seq<Entry>>
    decreases |text|
  {
    if text == "" then Some([])
    else
      var i := IndexOf(text, '\n');
      var rest := if i < |text| then text[i + 1..] else "";
      match ParseLine(text[..i])
      case None => None
      case Some(entry) =>
        match Decode(rest)
        case None => None
        case Some(entries) => Some([entry] + entries)
  }

  predicate NoSeparator(s: string)
  {
    forall k :: 0 <= k < |s| ==> !SeparatorAt(s, k)
  }

  /** An entry the line-oriented file format can carry: no newline in the
      timestamp or the payload, and no `": "` inside the timestamp. */
  predicate Recoverable(e: Entry)
  {
    '\n' !in e.timestamp && '\n' !in e.payload && NoSeparator(e.timestamp)
  }

  lemma {:induction false} IndexOfAfter(s: string, t: string, c: char)
    requires c !in s && t != [] && t[0] == c
    ensures IndexOf(s + t, c) == |s|
  {
    if s != [] {
      assert (s + t)[1..] == s[1..] + t;
      IndexOfAfter(s[1..], t, c);
    }
  }

  lemma {:induction false} SeparatorAfter(timestamp: string, payload: string)
    requires NoSeparator(timestamp)
    ensures SeparatorIndex(timestamp + ": " + payload) == |timestamp|
  {
    var s := timestamp + ": " + payload;
    if timestamp != [] {
      assert !SeparatorAt(s, 0) by {
        if |timestamp| >= 2 { assert !SeparatorAt(timestamp, 0); } else { assert s[1] == ':'; }
      }
      assert s[1..] == timestamp[1..] + ": " + payload;
      assert NoSeparator(timestamp[1..]) by {
        forall k | 0 <= k < |timestamp[1..]| ensures !SeparatorAt(timestamp[1..], k) {
          assert !SeparatorAt(timestamp, k + 1);
        }
      }
      SeparatorAfter(timestamp[1..], payload);
    }
  }

  /** Round trip of the file format: the text of the records written for
      recoverable entries reads back as exactly those entries, in order, and
      hence as exactly as many entries as records. */
  lemma {:induction false} DecodeEncode(entries: seq<Entry>)
    requires forall k :: 0 <= k < |entries| ==> Recoverable(entries[k])
    ensures Decode(Concat(Encode(entries))) == Some(entries)
    ensures |Encode(entries)| == |entries|
  {
    if entries != [] {
      var e := entries[0];
      var tail := Concat(Encode(entries[1..]));
      var line := e.timestamp + ": " + e.payload;
      var text := Concat(Encode(entries));
      assert Encode(entries) == [Record(e.timestamp, e.payload)] + Encode(entries[1..]);
      assert text == line + ("\n" + tail);
      assert '\n' !in line by {
        forall k | 0 <= k < |line| ensures line[k] != '\n' {
          if k < |e.timestamp| { assert line[k] == e.timestamp[k]; }
          else if k >= |e.timestamp| + 2 { assert line[k] == e.payload[k - |e.timestamp| - 2]; }
        }
      }
      IndexOfAfter(line, "\n" + tail, '\n');
      assert text[..|line|] == line;
      assert text[|line| + 1..] == tail;
      SeparatorAfter(e.timestamp, e.payload);
      assert line[..|e.timestamp|] == e.timestamp;
      assert line[|e.timestamp| + 2..] == e.payload;
      assert ParseLine(line) == Some(e);
      DecodeEncode(entries[1..]);
      assert [e] + entries[1..] == entries;
    }
  }

  /** As written, the payload is appended without escaping: one record whose
      payload holds a newline followed by `"<timestamp>: "` has the same text
      as two records, and reads back as two entries. */
  lemma NewlinePayloadReadsAsTwo()
    ensures Concat([Record("t", "a\nt: b")]) == Concat([Record("t", "a"), Record("t", "b")])
    ensures Decode(Concat([Record("t", "a\nt: b")])) == Some([Entry("t", "a"), Entry("t", "b")])
  {
    var one, first, second := Record("t", "a\nt: b"), Record("t", "a"), Record("t", "b");
    assert one == first + second;
    assert Concat([one]) == one by {
      assert [one][1..] == [];
    }
    assert Concat([first, second]) == first + second by {
      assert [first, second][1..] == [second];
      assert [second][1..] == [];
    }
    var two := [Entry("t", "a"), Entry("t", "b")];
    assert Encode(two) == [first, second] by {
      assert two[1..][1..] == [];
    }
    assert Recoverable(two[0]) && Recoverable(two[1]);
    DecodeEncode(two);
  }

  /** The payload that a backup attempt would save: present when the request
      has content that reads as a non-empty string. */
  predicate HasPayload(request: HttpRequest)
  {
    request.content.Some? && request.content.value.Readable? && request.content.value.text != ""
  }

  /** Nothing to save: the request has no content, or its content reads as the
      empty string (a null or empty `logData`). */
  predicate IsNullOrEmpty(request: HttpRequest)
  {
    request.content.None? || request.content.value == Readable("")
  }

  /** The effect of one backup attempt: the records appended to the backup
      file and the console lines written. */
  datatype Capture = Capture(records: seq<string>, diagnostics: seq<Diagnostic>)

  /** One backup attempt for `request`, at time `timestamp`, where
      `writeFault` is the exception the file append raises, if any. A null or
      empty payload is skipped silently; a failing content read or file write
      is swallowed and only reported on the console. */
  function BackupEffect(request: HttpRequest, timestamp: string, writeFault: Option<Exception>): (c: Capture)
    ensures |c.records| <= 1 && |c.diagnostics| <= 1
    ensures c.records != [] <==> HasPayload(request) && writeFault.None?
    ensures c.records != [] ==> c.records == [Record(timestamp, request.content.value.text)]
    ensures c.diagnostics == [] <==> IsNullOrEmpty(request)
    ensures c.diagnostics == [BackupSaved] <==> c.records != []
    ensures HasPayload(request) && writeFault.Some? ==> c.diagnostics == [BackupFailed(writeFault.value.message)]
    ensures request.content.Some? && request.content.value.Unreadable? ==>
              c.diagnostics == [BackupFailed(request.content.value.fault.message)]
  {
    match request.content
    case None => Capture([], [])
    case Some(Unreadable(e)) => Capture([], [BackupFailed(e.message)])
    case Some(Readable(text)) =>
      if text == "" then Capture([], [])
      else
        match writeFault
        case Some(e) => Capture([], [BackupFailed(e.message)])
        case None => Capture([Record(timestamp, text)], [BackupSaved])
  }
}
