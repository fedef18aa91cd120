/** Reading the newline-delimited JSON response of a shard upload. Bytes are byte-valued characters;
`parse` stands for the JSON decoder. */
module ShardNdjson {
  import opened Lists
  import opened Text
  import opened Wrappers

  const MAX_NDJSON_LINE_BYTES := 1_048_576
  const NEWLINE := "\n"

  datatype Event =
    | Validating(detail: string)
    | Committing(detail: string)
    | Unknown
    | Result
    | Error(message: string, retryable: bool)

  datatype Outcome = Success | Retryable | Fatal

  /** How the response body ends: cleanly, or with a transport error that may or may not be transient. */
  datatype Ending = Clean | Broken(transient: bool)

  /** What one event decides, if anything. */
  function Handle(e: Event): Option<Outcome> {
    match e
    case Validating(_) => None
    case Committing(_) => None
    case Unknown => None
    case Result => Some(Success)
    case Error(_, retryable) => Some(if retryable then Retryable else Fatal)
  }

  // ---------------------------------------------------------------- what the bytes mean

  /** The events given to the callback, and the outcome. */
  datatype Reading = Reading(events: seq<Event>, outcome: Outcome)

  function After(events: seq<Event>, r: Reading): Reading {
    Reading(events + r.events, r.outcome)
  }

  function Frame(parse: string -> Option<Event>, line: string): Option<Event> {
    if |line| > MAX_NDJSON_LINE_BYTES then None else parse(line)
  }

  /** What is left after the last newline. */
  function Tail(parse: string -> Option<Event>, line: string, ending: Ending): Reading {
    if |line| > MAX_NDJSON_LINE_BYTES then Reading([], Fatal)
    else if ending.Broken? then Reading([], if ending.transient then Retryable else Fatal)
    else if line == "" || parse(line).None? then Reading([], Fatal)
    else
      var e := parse(line).value;
      Reading([e], if Handle(e).Some? then Handle(e).value else Fatal)
  }

  /** Walks the newline-separated pieces of the whole body; the last piece has no newline. */
  function Walk(parse: string -> Option<Event>, pieces: seq<string>, ending: Ending): (r: Reading)
    requires pieces != []
    decreases |pieces|
  {
    var line := pieces[0];
    if |pieces| == 1 then Tail(parse, line, ending)
    else if line == "" then Walk(parse, pieces[1..], ending)
    else if Frame(parse, line).None? then Reading([], Fatal)
    else
      var e := Frame(parse, line).value;
      if Handle(e).Some? then Reading([e], Handle(e).value) else After([e], Walk(parse, pieces[1..], ending))
  }

  /** The meaning of a body, whatever chunks it came in. */
  function Meaning(parse: string -> Option<Event>, bytes: string, ending: Ending): Reading {
    Walk(parse, Split(bytes, NEWLINE), ending)
  }

  // ---------------------------------------------------------------- the reader

  /** What draining the complete frames of a buffer leads to. */
  datatype Drained = Stopped(outcome: Outcome) | Waiting(buffer: string)

  /** The inner loop: takes every complete frame off the buffer. */
  method Drain(parse: string -> Option<Event>, start: string, ghost rest: string, ghost ending: Ending)
      returns (events: seq<Event>, r: Drained)
    ensures r.Stopped? ==> Meaning(parse, start + rest, ending) == Reading(events, r.outcome)
    ensures r.Waiting? ==> Lacks(r.buffer, '\n')
    ensures r.Waiting? ==>
              Meaning(parse, start + rest, ending) == After(events, Meaning(parse, r.buffer + rest, ending))
  {
    hide Find, Split, Walk;
    var buffer := start;
    events := [];
    AfterNothing(Meaning(parse, start + rest, ending));
    var newline := Find(buffer, NEWLINE);
    while newline.Some?
      invariant newline == Find(buffer, NEWLINE)
      invariant Meaning(parse, start + rest, ending) == After(events, Meaning(parse, buffer + rest, ending))
      decreases |buffer|
    {
      var i := newline.value;
      var line := buffer[..i];
      FrameOff(parse, buffer, i, rest, ending);
      buffer := buffer[i + 1..];
      if |line| > MAX_NDJSON_LINE_BYTES {
        AfterStop(events, [], Fatal);
        return events, Stopped(Fatal);
      }
      if line != "" {
        var event := parse(line);
        if event.None? {
          AfterStop(events, [], Fatal);
          return events, Stopped(Fatal);
        }
        var handled := Handle(event.value);
        if handled.Some? {
          AfterStop(events, [event.value], handled.value);
          return events + [event.value], Stopped(handled.value);
        }
        AfterMany(events, [event.value], Meaning(parse, buffer + rest, ending));
        events := events + [event.value];
      }
      newline := Find(buffer, NEWLINE);
    }
    NoNewline(buffer);
    r := Waiting(buffer);
  }

  /** The reader over network chunks equals the meaning of their concatenation. */
  method ReadShardUploadNdjson(parse: string -> Option<Event>, chunks: seq<string>, ending: Ending)
      returns (events: seq<Event>, outcome: Outcome)
    ensures Reading(events, outcome) == Meaning(parse, Concat(chunks), ending)
  {
    hide Find, Split, Walk;
    var buffer := "";
    events := [];
    ghost var whole := Meaning(parse, Concat(chunks), ending);
    assert chunks[0..] == chunks && buffer + Concat(chunks) == Concat(chunks);
    AfterNothing(whole);
    for i := 0 to |chunks|
      invariant whole == After(events, Meaning(parse, buffer + Concat(chunks[i..]), ending))
      invariant Lacks(buffer, '\n') && |buffer| <= MAX_NDJSON_LINE_BYTES
    {
      ghost var rest := Concat(chunks[i + 1..]);
      assert chunks[i..][1..] == chunks[i + 1..];
      ConcatCons(chunks[i..]);
      assert buffer + chunks[i] + rest == buffer + Concat(chunks[i..]);
      var more, drained := Drain(parse, buffer + chunks[i], rest, ending);
      ghost var before := events;
      events := events + more;
      if drained.Stopped? {
        AfterStop(before, more, drained.outcome);
        return events, drained.outcome;
      }
      buffer := drained.buffer;
      AfterMany(before, more, Meaning(parse, buffer + rest, ending));
      if |buffer| > MAX_NDJSON_LINE_BYTES {
        Oversized(parse, buffer, rest, ending);
        AfterStop(events, [], Fatal);
        return events, Fatal;
      }
    }
    assert buffer + Concat(chunks[|chunks|..]) == buffer;
    Trailing(parse, buffer, ending);
    if ending.Broken? {
      outcome := if ending.transient then Retryable else Fatal;
      AfterStop(events, [], outcome);
    } else if buffer != "" && parse(buffer).Some? {
      var event := parse(buffer).value;
      outcome := if Handle(event).Some? then Handle(event).value else Fatal;
      AfterStop(events, [event], outcome);
      events := events + [event];
    } else {
      outcome := Fatal;
      AfterStop(events, [], Fatal);
    }
  }

  lemma {:induction false} AfterNothing(r: Reading)
    ensures After([], r) == r
  {
    assert [] + r.events == r.events;
  }

  lemma {:induction false} AfterStop(events: seq<Event>, more: seq<Event>, outcome: Outcome)
    ensures After(events, Reading(more, outcome)) == Reading(events + more, outcome)
    ensures After(events, Reading([], outcome)) == Reading(events, outcome)
  {
    assert events + [] == events;
  }

  lemma {:induction false} AfterMany(a: seq<Event>, b: seq<Event>, r: Reading)
    ensures After(a, After(b, r)) == After(a + b, r)
  {
    assert a + (b + r.events) == a + b + r.events;
  }

  lemma {:induction false} NoNewline(s: string)
    requires Find(s, NEWLINE).None?
    ensures Lacks(s, '\n')
  {
    forall i | 0 <= i < |s| ensures s[i] != '\n' {
      assert !Occurs(s, NEWLINE, i);
      assert s[i..i + 1] == [s[i]];
    }
  }

  /** Up to the first newline, a body is its first frame. */
  lemma {:induction false} FrameOff(parse: string -> Option<Event>, buffer: string, i: nat, rest: string,
      ending: Ending)
    requires Find(buffer, NEWLINE) == Some(i)
    ensures i < |buffer|
    ensures var line, m := buffer[..i], Meaning(parse, buffer + rest, ending);
            var next := Meaning(parse, buffer[i + 1..] + rest, ending);
            if line == "" then m == next
            else if Frame(parse, line).None? then m == Reading([], Fatal)
            else
              var e := Frame(parse, line).value;
              m == if Handle(e).Some? then Reading([e], Handle(e).value) else After([e], next)
  {
    hide Find, Split;
    var line, tail := buffer[..i], buffer[i + 1..] + rest;
    FirstLine(buffer, i);
    assert buffer == line + NEWLINE + buffer[i + 1..];
    assert buffer + rest == line + NEWLINE + tail;
    SplitLine(line, tail);
    assert ([line] + Split(tail, NEWLINE))[1..] == Split(tail, NEWLINE);
  }

  lemma {:induction false} FirstLine(buffer: string, i: nat)
    requires Find(buffer, NEWLINE) == Some(i)
    ensures i < |buffer| && buffer[i] == '\n' && Lacks(buffer[..i], '\n')
  {
    assert buffer[i..i + 1][0] == buffer[i];
    forall j | 0 <= j < i ensures buffer[j] != '\n' {
      assert !Occurs(buffer, NEWLINE, j);
      assert buffer[j..j + 1] == [buffer[j]];
    }
  }

  lemma {:induction false} SplitLine(line: string, rest: string)
    requires Lacks(line, '\n')
    ensures Split(line + NEWLINE + rest, NEWLINE) == [line] + Split(rest, NEWLINE)
  {
    var s := line + NEWLINE + rest;
    FindAfter(line, NEWLINE, rest);
    assert s[..|line|] == line && s[|line| + 1..] == rest;
  }

  /** An unfinished frame over the limit is fatal whatever follows it. */
  lemma {:induction false} Oversized(parse: string -> Option<Event>, buffer: string, rest: string, ending: Ending)
    requires Lacks(buffer, '\n') && |buffer| > 1_048_576
    ensures Meaning(parse, buffer + rest, ending) == Reading([], Fatal)
  {
    hide Find;
    var next := Find(rest, NEWLINE);
    if next.None? {
      NoNewline(rest);
      FindNowhere(buffer + rest, NEWLINE);
    } else {
      var i := next.value;
      FirstLine(rest, i);
      var line, tail := buffer + rest[..i], rest[i + 1..];
      assert rest == rest[..i] + NEWLINE + tail;
      assert buffer + rest == line + NEWLINE + tail;
      SplitLine(line, tail);
    }
  }

  lemma {:induction false} Trailing(parse: string -> Option<Event>, buffer: string, ending: Ending)
    requires Lacks(buffer, '\n')
    ensures Meaning(parse, buffer, ending) == Tail(parse, buffer, ending)
  {
    FindNowhere(buffer, NEWLINE);
  }

  // ---------------------------------------------------------------- what the outcome says

  predicate Progress(e: Event) {
    e.Validating? || e.Committing? || e.Unknown?
  }

  /** No line is too long, and every line that is complete and not empty decodes. */
  predicate Readable(parse: string -> Option<Event>, pieces: seq<string>)
    requires pieces != []
  {
    && (forall i :: 0 <= i < |pieces| ==> |pieces[i]| <= 1_048_576)
    && forall i :: 0 <= i < |pieces| - 1 && pieces[i] != "" ==> parse(pieces[i]).Some?
  }

  /** Every event but the last is progress. A last event that is a result, a retryable error or another
  error makes the outcome; without one of these the body was readable and broke off for a transient
  reason, which may be retried, or the upload has failed. */
  lemma {:induction false} OutcomeIsLastEvent(parse: string -> Option<Event>, pieces: seq<string>, ending: Ending)
    requires pieces != []
    ensures var r := Walk(parse, pieces, ending);
            var n := |r.events|;
            && (forall i :: 0 <= i < n - 1 ==> Progress(r.events[i]))
            && r.outcome == (if n > 0 && r.events[n - 1].Result? then Success
                             else if n > 0 && r.events[n - 1].Error? then
                               if r.events[n - 1].retryable then Retryable else Fatal
                             else if ending == Broken(true) && Readable(parse, pieces) then Retryable else Fatal)
    decreases |pieces|
  {
    hide Readable;
    ReadableNext(parse, pieces);
    if |pieces| > 1 {
      OutcomeIsLastEvent(parse, pieces[1..], ending);
    }
  }

  lemma {:induction false} ReadableNext(parse: string -> Option<Event>, pieces: seq<string>)
    requires pieces != []
    ensures |pieces| == 1 ==> (Readable(parse, pieces) <==> |pieces[0]| <= MAX_NDJSON_LINE_BYTES)
    ensures |pieces| > 1 ==>
              (Readable(parse, pieces)
               <==> (pieces[0] == "" || Frame(parse, pieces[0]).Some?) && Readable(parse, pieces[1..]))
  {
    if |pieces| > 1 {
      var rest := pieces[1..];
      assert forall i :: 0 < i < |pieces| ==> pieces[i] == rest[i - 1];
      if Readable(parse, rest) && (pieces[0] == "" || Frame(parse, pieces[0]).Some?) {
        assert forall i :: 0 <= i < |pieces| ==> |pieces[i]| <= 1_048_576;
      }
    }
  }

  /** The lines that may hold an event: all that are not empty, the unfinished last one only after a clean
  end. */
  function Lines(pieces: seq<string>, ending: Ending): seq<string>
    requires pieces != []
    decreases |pieces|
  {
    if |pieces| == 1 then if pieces[0] == "" || ending.Broken? then [] else pieces
    else (if pieces[0] == "" then [] else [pieces[0]]) + Lines(pieces[1..], ending)
  }

  /** The events are the decoded lines in order, from the first line up to the first event that ends the
  upload or the first line that does not decode or is too long, and no more. */
  ghost predicate Decoded(parse: string -> Option<Event>, lines: seq<string>, events: seq<Event>) {
    var n := |events|;
    && n <= |lines|
    && (forall i :: 0 <= i < n ==> |lines[i]| <= 1_048_576 && parse(lines[i]) == Some(events[i]))
    && (n == |lines| || (n > 0 && !Progress(events[n - 1]))
        || |lines[n]| > 1_048_576 || parse(lines[n]).None?)
  }

  lemma {:induction false} DecodedNext(parse: string -> Option<Event>, line: string, lines: seq<string>,
      events: seq<Event>)
    ensures |line| > 1_048_576 || parse(line).None? ==> Decoded(parse, [line] + lines, [])
    ensures |line| <= 1_048_576 && parse(line).Some? ==>
              && (!Progress(parse(line).value) ==> Decoded(parse, [line] + lines, [parse(line).value]))
              && (Progress(parse(line).value) && Decoded(parse, lines, events)
                  ==> Decoded(parse, [line] + lines, [parse(line).value] + events))
  {
    hide Progress;
    var all := [line] + lines;
    assert all[0] == line;
    if parse(line).Some? {
      var more := [parse(line).value] + events;
      assert forall i :: 0 < i < |all| ==> all[i] == lines[i - 1];
      assert forall i :: 0 < i < |more| ==> more[i] == events[i - 1];
    }
  }

  lemma {:induction false} DecodedOne(parse: string -> Option<Event>, line: string)
    ensures Decoded(parse, [], [])
    ensures |line| <= 1_048_576 && parse(line).Some? ==> Decoded(parse, [line], [parse(line).value])
  {
  }

  /** What the callback is given are the decoded lines. */
  lemma {:induction false} EventsAreLines(parse: string -> Option<Event>, pieces: seq<string>, ending: Ending)
    requires pieces != []
    ensures Decoded(parse, Lines(pieces, ending), Walk(parse, pieces, ending).events)
    decreases |pieces|
  {
    hide Decoded;
    var line := pieces[0];
    DecodedOne(parse, line);
    if |pieces| == 1 {
      DecodedNext(parse, line, [], []);
      assert pieces == [line] && [line] + [] == [line];
    } else {
      var rest, more := pieces[1..], Lines(pieces[1..], ending);
      EventsAreLines(parse, rest, ending);
      DecodedNext(parse, line, more, Walk(parse, rest, ending).events);
      assert [] + more == more;
    }
  }
}
