/**
 * Frame parsing and the reconnecting event loop of client/src/agent/gateway.ts
 * (parseFrame, compareEventIds and streamHostedAgentRun).
 *
 * Across any number of reconnects no event is delivered twice or out of order; if
 * the server replays its log honestly none is skipped either, and delivery stops at
 * the first terminal event.
 */
module HostedRun {
  import EventFrames
  import opened Sequences
  import opened Wrappers

  // ---------- parseFrame ----------

  /** split(/\r?\n/) */
  function SplitLines(s: string): (lines: seq<string>)
    ensures |lines| > 0
  {
    if s == "" then [""]
    else if s[0] == '\n' then [""] + SplitLines(s[1..])
    else if |s| > 1 && s[0] == '\r' && s[1] == '\n' then [""] + SplitLines(s[2..])
    else
      var rest := SplitLines(s[1..]);
      [[s[0]] + rest[0]] + rest[1..]
  }

  function IndexOfColon(line: string, i: nat): (r: Option<nat>)
    requires i <= |line|
    ensures r.Some? ==> i <= r.value < |line|
    decreases |line| - i
  {
    if i == |line| then None else if line[i] == ':' then Some(i) else IndexOfColon(line, i + 1)
  }

  datatype Fields = Fields(id: string, name: string, data: seq<string>)

  /** One line of a frame, as section 9.2.6 of the WHATWG HTML Standard reads it. */
  function ReadField(acc: Fields, line: string): Fields
  {
    if line == "" || line[0] == ':' then acc
    else
      var colon := IndexOfColon(line, 0);
      var field := if colon.None? then line else line[..colon.value];
      var raw := if colon.None? then "" else line[colon.value + 1..];
      var value := if raw != "" && raw[0] == ' ' then raw[1..] else raw;
      if field == "id" then acc.(id := value)
      else if field == "event" then acc.(name := value)
      else if field == "data" then acc.(data := acc.data + [value])
      else acc
  }

  function ReadFields(acc: Fields, lines: seq<string>): Fields
    decreases |lines|
  {
    if lines == [] then acc else ReadFields(ReadField(acc, lines[0]), lines[1..])
  }

  predicate IsDigits(s: string)
  {
    s != "" && forall k :: 0 <= k < |s| ==> '0' <= s[k] <= '9'
  }

  /** BigInt of a digit string. */
  function Value(s: string): nat
    requires forall k :: 0 <= k < |s| ==> '0' <= s[k] <= '9'
  {
    if s == "" then 0 else 10 * Value(s[..|s| - 1]) + (s[|s| - 1] as int - '0' as int)
  }

  function JoinLines(lines: seq<string>): string
  {
    if lines == [] then "" else if |lines| == 1 then lines[0] else lines[0] + "\n" + JoinLines(lines[1..])
  }

  datatype Parsed = Nothing | Invalid | Event(id: nat, name: string, data: string)

  function Unmarked(frame: string): string
  {
    if frame != "" && frame[0] == '\U{FEFF}' then frame[1..] else frame
  }

  function Parse(frame: string): Parsed
  {
    var fields := ReadFields(Fields("", "", []), SplitLines(Unmarked(frame)));
    if fields.data == [] then Nothing
    else if !IsDigits(fields.id) || fields.name == "" then Invalid
    else if EventFrames.ByteLength(JoinLines(fields.data)) > EventFrames.MAX_EVENT_BYTES then Invalid
    else Event(Value(fields.id), fields.name, JoinLines(fields.data))
  }

  method ParseFrame(frame: string) returns (parsed: Parsed)
    ensures parsed == Parse(frame)
  {
    var lines := SplitLines(Unmarked(frame));
    var fields := Fields("", "", []);
    var k := 0;
    while k < |lines|
      invariant 0 <= k <= |lines|
      invariant ReadFields(fields, lines[k..]) == ReadFields(Fields("", "", []), lines)
    {
      ghost var ahead := lines[k..];
      assert ahead[0] == lines[k] && ahead[1..] == lines[k + 1..];
      fields := ReadField(fields, lines[k]);
      k := k + 1;
    }
    if fields.data == [] {
      parsed := Nothing;
    } else if !IsDigits(fields.id) || fields.name == "" {
      parsed := Invalid;
    } else {
      var serialized := JoinLines(fields.data);
      parsed := if EventFrames.ByteLength(serialized) > EventFrames.MAX_EVENT_BYTES then Invalid
                else Event(Value(fields.id), fields.name, serialized);
    }
  }

  // ---------- A server frame reads back ----------

  /** A line a sender may emit: no line break in it, and no carriage return before the next one. */
  predicate Clean(line: string)
  {
    '\n' !in line && '\r' !in line
  }

  function FieldLine(field: string, value: string): string { field + ": " + value }

  function DataLines(data: seq<string>): seq<string>
  {
    if data == [] then [] else [FieldLine("data", data[0])] + DataLines(data[1..])
  }

  /** The frame a conforming server writes for one event. */
  function FrameLines(id: string, name: string, data: seq<string>): seq<string>
  {
    [FieldLine("id", id), FieldLine("event", name)] + DataLines(data)
  }

  lemma {:induction false} SplitPrepends(line: string, rest: string)
    requires Clean(line)
    ensures SplitLines(line) == [line]
    ensures SplitLines(line + "\n" + rest) == [line] + SplitLines(rest)
  {
    var whole := line + "\n" + rest;
    if line == "" {
      assert whole[0] == '\n' && whole[1..] == rest;
    } else {
      SplitPrepends(line[1..], rest);
      assert whole[0] == line[0] && whole[1..] == line[1..] + "\n" + rest;
      assert line == [line[0]] + line[1..];
    }
  }

  lemma {:induction false} SplitUndoesJoin(lines: seq<string>)
    requires lines != [] && forall k :: 0 <= k < |lines| ==> Clean(lines[k])
    ensures SplitLines(JoinLines(lines)) == lines
  {
    if |lines| == 1 {
      SplitPrepends(lines[0], "");
    } else {
      var rest := JoinLines(lines[1..]);
      assert JoinLines(lines) == lines[0] + "\n" + rest && lines == [lines[0]] + lines[1..];
      SplitPrepends(lines[0], rest);
      SplitUndoesJoin(lines[1..]);
    }
  }

  lemma ReadPrefixed(acc: Fields, field: string, value: string)
    requires field in {"id", "event", "data"}
    ensures ReadField(acc, FieldLine(field, value)) ==
      if field == "id" then acc.(id := value)
      else if field == "event" then acc.(name := value)
      else acc.(data := acc.data + [value])
  {
    var line := FieldLine(field, value);
    FirstColon(field, ": " + value, 0);
    assert line == field + (": " + value);
    assert line[..|field|] == field;
    assert line[|field| + 1..] == " " + value;
    assert (" " + value)[1..] == value;
  }

  lemma {:induction false} FirstColon(field: string, rest: string, i: nat)
    requires ':' !in field && rest != "" && rest[0] == ':' && i <= |field|
    ensures IndexOfColon(field + rest, i) == Some(|field|)
    decreases |field| - i
  {
    if i < |field| {
      assert (field + rest)[i] == field[i];
      FirstColon(field, rest, i + 1);
    }
  }

  lemma {:induction false} ReadDataLines(acc: Fields, data: seq<string>)
    ensures ReadFields(acc, DataLines(data)) == acc.(data := acc.data + data)
    decreases |data|
  {
    if data == [] {
      assert acc.data + [] == acc.data;
    } else {
      var next := acc.(data := acc.data + [data[0]]);
      ReadPrefixed(acc, "data", data[0]);
      ReadDataLines(next, data[1..]);
      assert acc.data + [data[0]] + data[1..] == acc.data + data;
    }
  }

  lemma {:induction false} DataLinesClean(data: seq<string>)
    requires forall k :: 0 <= k < |data| ==> Clean(data[k])
    ensures forall k :: 0 <= k < |DataLines(data)| ==> Clean(DataLines(data)[k])
  {
    if data != [] {
      DataLinesClean(data[1..]);
    }
  }

  lemma ReadServerLines(id: string, name: string, data: seq<string>)
    ensures ReadFields(Fields("", "", []), FrameLines(id, name, data)) == Fields(id, name, data)
  {
    var start, tail := Fields("", "", []), DataLines(data);
    ReadPrefixed(start, "id", id);
    ReadPrefixed(start.(id := id), "event", name);
    ReadDataLines(Fields(id, name, []), data);
    assert [] + data == data;
    assert FrameLines(id, name, data) == [FieldLine("id", id)] + ([FieldLine("event", name)] + tail);
  }

  lemma ServerLinesClean(id: string, name: string, data: seq<string>)
    requires IsDigits(id) && Clean(name) && forall k :: 0 <= k < |data| ==> Clean(data[k])
    ensures var lines := FrameLines(id, name, data);
      forall k :: 0 <= k < |lines| ==> Clean(lines[k])
  {
    DataLinesClean(data);
    assert Clean(FieldLine("id", id)) && Clean(FieldLine("event", name));
  }

  /** Every event a conforming server frames within the limit is read back exactly. */
  lemma ServerFrameReadsBack(id: string, name: string, data: seq<string>)
    requires IsDigits(id) && name != "" && Clean(name) && data != []
    requires forall k :: 0 <= k < |data| ==> Clean(data[k])
    requires EventFrames.ByteLength(JoinLines(data)) <= EventFrames.MAX_EVENT_BYTES
    ensures Parse(JoinLines(FrameLines(id, name, data))) == Event(Value(id), name, JoinLines(data))
  {
    var lines := FrameLines(id, name, data);
    ServerLinesClean(id, name, data);
    SplitUndoesJoin(lines);
    ReadServerLines(id, name, data);
    assert Unmarked(JoinLines(lines)) == JoinLines(lines) by {
      assert JoinLines(lines)[0] == lines[0][0] == 'i';
    }
  }

  // ---------- One response ----------

  datatype Envelope = Envelope(id: nat, name: string, data: string)

  predicate Terminal(e: Envelope)
  {
    e.name in {"run.completed", "run.failed", "run.cancelled"}
  }

  datatype Ending = Finished | Dropped | Malformed | Aborted

  /** What one connection attempt amounts to for the loop. */
  datatype Response =
    | Refused(status: nat)
    | NotAStream
    | Stream(events: seq<Envelope>, ending: Ending)

  /** JavaScript white space, as trim() sees it. */
  predicate IsBlank(s: string)
  {
    forall k :: 0 <= k < |s| ==>
      s[k] in {'\t', '\n', '\U{000B}', '\U{000C}', '\r', ' ', '\U{00A0}', '\U{1680}', '\U{2028}', '\U{2029}', '\U{202F}',
               '\U{205F}', '\U{3000}', '\U{FEFF}'}
      || '\U{2000}' <= s[k] <= '\U{200A}'
  }

  predicate Accepted(parsed: Parsed, accepts: (string, string) -> bool)
  {
    parsed.Event? && accepts(parsed.name, parsed.data)
  }

  /** The events of a list of frames; a frame that does not parse, or whose event is rejected, ends the stream. */
  function Events(frames: seq<string>, accepts: (string, string) -> bool): (r: Response)
    ensures r.Stream? && (r.ending.Finished? || r.ending.Malformed?)
  {
    if frames == [] then Stream([], Finished)
    else
      var parsed := Parse(frames[0]);
      if parsed.Nothing? then Events(frames[1..], accepts)
      else if !Accepted(parsed, accepts) then Stream([], Malformed)
      else
        var rest := Events(frames[1..], accepts);
        Stream([Envelope(parsed.id, parsed.name, parsed.data)] + rest.events, rest.ending)
  }

  /**
   * How reading a body ends: the body is done; the connection is lost; or the caller's
   * signal aborts, between two reads or in one.
   */
  datatype Closing = Done | Lost | AbortedBetween | AbortedReading

  /** Only when its reading loop is left in the ordinary way does the reader look at the unterminated rest. */
  predicate ReadsRest(closing: Closing) { closing.Done? || closing.AbortedBetween? }

  function Read(chunks: seq<string>): EventFrames.Run
  {
    EventFrames.Feed(chunks, EventFrames.Run([], "", false))
  }

  /** A response body received as these chunks, the last ones read before it closed. */
  function Received(chunks: seq<string>, closing: Closing, accepts: (string, string) -> bool): (r: Response)
    ensures r.Stream?
  {
    var run := Read(chunks);
    var last := if ReadsRest(closing) && !run.overflow && !IsBlank(run.buffer) then [run.buffer] else [];
    var seen := Events(run.frames + last, accepts);
    Stream(seen.events,
      if closing.AbortedBetween? || closing.AbortedReading? then Aborted
      else if seen.ending.Malformed? || run.overflow then Malformed
      else if closing.Done? then Finished
      else Dropped)
  }

  /** What the loop sees of a body that fits the limit does not depend on its chunks. */
  lemma ReceivedIgnoresChunking(a: seq<string>, b: seq<string>, closing: Closing, accepts: (string, string) -> bool)
    requires EventFrames.Flat(a) == EventFrames.Flat(b) && EventFrames.Fits(EventFrames.Flat(a))
    ensures Received(a, closing, accepts) == Received(b, closing, accepts)
  {
    EventFrames.ChunkingIsIrrelevantIffFits(EventFrames.Flat(a));
  }

  // ---------- The unterminated last frame ----------

  lemma {:induction false} OneMoreFrame(frames: seq<string>, last: string, accepts: (string, string) -> bool)
    ensures var seen, parsed := Events(frames, accepts), Parse(last);
      Events(frames + [last], accepts) ==
        if seen.ending.Malformed? || parsed.Nothing? then seen
        else if Accepted(parsed, accepts) then Stream(seen.events + [Envelope(parsed.id, parsed.name, parsed.data)], Finished)
        else Stream(seen.events, Malformed)
    decreases |frames|
  {
    if frames == [] {
      assert [] + [last] == [last] && [last][1..] == [];
      assert Events([last][1..], accepts) == Stream([], Finished);
    } else {
      assert (frames + [last])[1..] == frames[1..] + [last];
      OneMoreFrame(frames[1..], last, accepts);
    }
  }

  lemma {:induction false} BlankLines(s: string, k: nat)
    requires IsBlank(s) && k < |SplitLines(s)|
    ensures IsBlank(SplitLines(s)[k])
    decreases |s|
  {
    if s != "" && s[0] != '\n' {
      if |s| > 1 && s[0] == '\r' && s[1] == '\n' {
        if k > 0 {
          BlankLines(s[2..], k - 1);
        }
      } else {
        BlankLines(s[1..], k);
      }
    } else if s != "" && k > 0 {
      BlankLines(s[1..], k - 1);
    }
  }

  lemma BlankLineIsNoField(acc: Fields, line: string)
    requires IsBlank(line)
    ensures ReadField(acc, line) == acc
  {
    var colon := IndexOfColon(line, 0);
    if colon.Some? {
      ColonFound(line, 0);
      assert false;
    }
  }

  lemma {:induction false} ColonFound(line: string, i: nat)
    requires i <= |line| && IndexOfColon(line, i).Some?
    ensures line[IndexOfColon(line, i).value] == ':'
    decreases |line| - i
  {
    if line[i] != ':' {
      ColonFound(line, i + 1);
    }
  }

  lemma {:induction false} BlankFields(acc: Fields, lines: seq<string>)
    requires forall k :: 0 <= k < |lines| ==> IsBlank(lines[k])
    ensures ReadFields(acc, lines) == acc
    decreases |lines|
  {
    if lines != [] {
      BlankLineIsNoField(acc, lines[0]);
      BlankFields(acc, lines[1..]);
    }
  }

  /** Skipping a blank rest is no more than a shortcut: it would parse to nothing. */
  lemma BlankIsNothing(s: string)
    requires IsBlank(s)
    ensures Parse(s).Nothing?
  {
    var text := Unmarked(s);
    assert IsBlank(text);
    forall k | 0 <= k < |SplitLines(text)|
      ensures IsBlank(SplitLines(text)[k])
    {
      BlankLines(text, k);
    }
    BlankFields(Fields("", "", []), SplitLines(text));
  }

  /**
   * A body that is done and one cut off at the same place: the first also delivers the
   * event of an unterminated rest, and is malformed for a rest that is no event. Both
   * are the same to the loop, which reconnects, exactly when the rest holds no data, or
   * what came before it was refused already.
   */
  lemma LastFrameCountsIff(chunks: seq<string>, accepts: (string, string) -> bool)
    ensures var whole, cut := Received(chunks, Done, accepts), Received(chunks, Lost, accepts);
      var run := Read(chunks);
      var refused, rest := run.overflow || Events(run.frames, accepts).ending.Malformed?, Parse(run.buffer);
      && cut.events <= whole.events && |whole.events| <= |cut.events| + 1
      && (whole.events == cut.events <==> refused || !Accepted(rest, accepts))
      && (whole.ending.Malformed? == cut.ending.Malformed? <==> refused || rest.Nothing? || Accepted(rest, accepts))
      && (whole.events == cut.events && whole.ending.Malformed? == cut.ending.Malformed? <==> refused || rest.Nothing?)
  {
    var run := Read(chunks);
    assert run.frames + [] == run.frames;
    if IsBlank(run.buffer) {
      BlankIsNothing(run.buffer);
    }
    OneMoreFrame(run.frames, run.buffer, accepts);
  }

  lemma CleanHasNoBoundary(line: string)
    requires Clean(line)
    ensures EventFrames.EventBoundary(line).None?
  {
    EventFrames.BoundaryIsFirst(line);
  }

  lemma OneLineIsHeld(line: string)
    requires Clean(line) && 4 * |line| <= EventFrames.MAX_EVENT_BYTES
    ensures Read([line]) == EventFrames.Run([], line, false)
  {
    var none: seq<string>, chunks := [], [line];
    CleanHasNoBoundary(line);
    AtMostFourBytesEach(line);
    var run := EventFrames.Run(none, line, false);
    assert EventFrames.Frames(line) == EventFrames.Cut(none, line);
    assert chunks[1..] == none && EventFrames.Feed(none, run) == run;
    assert "" + line == line && none + none == none;
  }

  lemma {:induction false} AtMostFourBytesEach(s: string)
    ensures EventFrames.ByteLength(s) <= 4 * |s|
  {
    if s != "" {
      AtMostFourBytesEach(s[..|s| - 1]);
    }
  }

  lemma DataAloneIsInvalid(value: string)
    requires Clean(value)
    ensures Parse(FieldLine("data", value)).Invalid?
  {
    var none: seq<string>, line := [], FieldLine("data", value);
    SplitPrepends(line, "");
    assert line[0] == 'd';
    ReadPrefixed(Fields("", "", none), "data", value);
    var fields := Fields("", "", none + [value]);
    assert [line][1..] == none && ReadFields(fields, none) == fields;
  }

  lemma HeldLine(line: string, accepts: (string, string) -> bool)
    requires Read([line]) == EventFrames.Run([], line, false) && Parse(line).Invalid?
    ensures Received([line], Done, accepts) == Stream([], Malformed)
    ensures Received([line], Lost, accepts) == Stream([], Dropped)
  {
    var none: seq<string> := [];
    if IsBlank(line) {
      BlankIsNothing(line);
    }
    OneMoreFrame(none, line, accepts);
    assert none + none == none;
  }

  lemma OneEmptyStream(ending: Ending, after: Option<nat>, failing: set<Envelope>)
    ensures Session([Stream([], ending)], 0, after, failing) == Delivery([], after, StopOf(Exhausted, ending))
  {
    var none: seq<Envelope>, responses := [], [Stream([], ending)];
    assert none + none == none;
    assert Session(responses, 1, after, failing) == Delivery([], after, Exhausted);
  }

  /**
   * A rest cut in the middle of the data ends the session as malformed when the body is
   * done, and lets it go on when the connection is lost.
   */
  lemma CutFieldEndsSession(value: string, accepts: (string, string) -> bool, after: Option<nat>, failing: set<Envelope>)
    requires Clean(value) && 4 * |FieldLine("data", value)| <= EventFrames.MAX_EVENT_BYTES
    ensures var line := FieldLine("data", value);
      && Session([Received([line], Done, accepts)], 0, after, failing) == Delivery([], after, InvalidResponse)
      && Session([Received([line], Lost, accepts)], 0, after, failing) == Delivery([], after, Exhausted)
  {
    var line := FieldLine("data", value);
    OneLineIsHeld(line);
    DataAloneIsInvalid(value);
    HeldLine(line, accepts);
    OneEmptyStream(Malformed, after, failing);
    OneEmptyStream(Dropped, after, failing);
  }

  // ---------- The reconnect loop ----------

  datatype Stop = Exhausted | Completed | ConsumerFailed | InvalidResponse | Rejected | Cancelled
  datatype Delivery = Delivery(delivered: seq<Envelope>, after: Option<nat>, stop: Stop)

  predicate Stale(e: Envelope, after: Option<nat>)
  {
    after.Some? && e.id <= after.value
  }

  /** Events k.. of one response; `failing` are the events the consumer throws on. */
  function Consume(events: seq<Envelope>, k: nat, after: Option<nat>, failing: set<Envelope>): Delivery
    requires k <= |events|
    decreases |events| - k
  {
    if k == |events| then Delivery([], after, Exhausted)
    else
      var e := events[k];
      if Stale(e, after) then Consume(events, k + 1, after, failing)
      else if e in failing then Delivery([e], Some(e.id), ConsumerFailed)
      else if Terminal(e) then Delivery([e], Some(e.id), Completed)
      else
        var rest := Consume(events, k + 1, Some(e.id), failing);
        Delivery([e] + rest.delivered, rest.after, rest.stop)
  }

  /** The caller's abort is asked about before anything that was thrown. */
  function StopOf(consumed: Stop, ending: Ending): Stop
  {
    if consumed == Completed then Completed
    else if ending.Aborted? then Cancelled
    else if consumed != Exhausted then consumed
    else if ending.Malformed? then InvalidResponse
    else Exhausted
  }

  /** The whole session over a sequence of connection attempts. */
  function Session(responses: seq<Response>, k: nat, after: Option<nat>, failing: set<Envelope>): Delivery
    requires k <= |responses|
    decreases |responses| - k
  {
    if k == |responses| then Delivery([], after, Exhausted)
    else
      match responses[k]
      case Refused(status) =>
        if 0 < status < 500 then Delivery([], after, Rejected) else Session(responses, k + 1, after, failing)
      case NotAStream => Delivery([], after, InvalidResponse)
      case Stream(events, ending) =>
        var first := Consume(events, 0, after, failing);
        var stop := StopOf(first.stop, ending);
        if stop != Exhausted then Delivery(first.delivered, first.after, stop)
        else
          var rest := Session(responses, k + 1, first.after, failing);
          Delivery(first.delivered + rest.delivered, rest.after, rest.stop)
  }

  /** One pass of the for-await loop. */
  method ConsumeEvents(events: seq<Envelope>, start: Option<nat>, failing: set<Envelope>)
    returns (delivered: seq<Envelope>, after: Option<nat>, stop: Stop)
    ensures Delivery(delivered, after, stop) == Consume(events, 0, start, failing)
  {
    delivered, after := [], start;
    var k := 0;
    while k < |events|
      invariant 0 <= k <= |events|
      invariant var rest := Consume(events, k, after, failing);
        Consume(events, 0, start, failing) == Delivery(delivered + rest.delivered, rest.after, rest.stop)
    {
      var envelope := events[k];
      if !Stale(envelope, after) {
        Regroup(delivered, [envelope], Consume(events, k + 1, Some(envelope.id), failing).delivered);
        after := Some(envelope.id);
        delivered := delivered + [envelope];
        if envelope in failing {
          return delivered, after, ConsumerFailed;
        }
        if Terminal(envelope) {
          return delivered, after, Completed;
        }
      }
      k := k + 1;
    }
    stop := Exhausted;
    assert delivered + [] == delivered;
  }

  method StreamHostedAgentRun(responses: seq<Response>, start: Option<nat>, failing: set<Envelope>)
    returns (delivered: seq<Envelope>, after: Option<nat>, stop: Stop)
    ensures Delivery(delivered, after, stop) == Session(responses, 0, start, failing)
  {
    delivered, after := [], start;
    var k := 0;
    while k < |responses|
      invariant 0 <= k <= |responses|
      invariant var rest := Session(responses, k, after, failing);
        Session(responses, 0, start, failing) == Delivery(delivered + rest.delivered, rest.after, rest.stop)
    {
      match responses[k] {
        case Refused(status) =>
          if 0 < status < 500 {
            assert delivered + [] == delivered;
            return delivered, after, Rejected;
          }
        case NotAStream =>
          assert delivered + [] == delivered;
          return delivered, after, InvalidResponse;
        case Stream(events, ending) =>
          var got, last, consumed := ConsumeEvents(events, after, failing);
          Regroup(delivered, got, Session(responses, k + 1, last, failing).delivered);
          delivered, after, stop := delivered + got, last, StopOf(consumed, ending);
          if stop != Exhausted {
            return;
          }
      }
      k := k + 1;
    }
    stop := Exhausted;
    assert delivered + [] == delivered;
  }

  // ---------- Never twice, never out of order ----------

  ghost predicate Ascending(events: seq<Envelope>, after: Option<nat>)
  {
    && (forall i :: 0 <= i < |events| ==> !Stale(events[i], after))
    && (forall i, j :: 0 <= i < j < |events| ==> events[i].id < events[j].id)
  }

  /** The resume point never moves backwards and is at least every delivered id. */
  ghost predicate Caught(d: Delivery, after: Option<nat>)
  {
    && Ascending(d.delivered, after)
    && (after.Some? ==> d.after.Some? && after.value <= d.after.value)
    && (forall i :: 0 <= i < |d.delivered| ==> Stale(d.delivered[i], d.after))
  }

  lemma {:induction false} ConsumeAscends(events: seq<Envelope>, k: nat, after: Option<nat>, failing: set<Envelope>)
    requires k <= |events|
    ensures Caught(Consume(events, k, after, failing), after)
    decreases |events| - k
  {
    if k < |events| {
      ConsumeAscends(events, k + 1, if Stale(events[k], after) then after else Some(events[k].id), failing);
    }
  }

  /** Whatever the responses contain, delivered ids strictly increase from the starting point. */
  lemma {:induction false} SessionAscends(responses: seq<Response>, k: nat, after: Option<nat>, failing: set<Envelope>)
    requires k <= |responses|
    ensures Caught(Session(responses, k, after, failing), after)
    decreases |responses| - k
  {
    if k < |responses| {
      match responses[k]
      case Refused(_) => SessionAscends(responses, k + 1, after, failing);
      case NotAStream =>
      case Stream(events, _) =>
        ConsumeAscends(events, 0, after, failing);
        var first := Consume(events, 0, after, failing);
        SessionAscends(responses, k + 1, first.after, failing);
    }
  }

  /** Wherever the loop may resume, it resumes after an event that was handled, or where it began. */
  lemma {:induction false} ResumesAfterHandled(events: seq<Envelope>, k: nat, after: Option<nat>, failing: set<Envelope>)
    requires k <= |events|
    ensures var d := Consume(events, k, after, failing);
      d.stop == Exhausted ==>
        && (forall i :: 0 <= i < |d.delivered| ==> d.delivered[i] !in failing && !Terminal(d.delivered[i]))
        && d.after == if d.delivered == [] then after else Some(d.delivered[|d.delivered| - 1].id)
    decreases |events| - k
  {
    if k < |events| {
      ResumesAfterHandled(events, k + 1, if Stale(events[k], after) then after else Some(events[k].id), failing);
    }
  }

  // ---------- Nothing skipped ----------

  ghost predicate IsLog(log: seq<Envelope>)
  {
    forall i, j :: 0 <= i < j < |log| ==> log[i].id < log[j].id
  }

  /** The first log entry still to deliver is the one at position p. */
  ghost predicate IsNext(log: seq<Envelope>, after: Option<nat>, p: nat)
  {
    && p <= |log|
    && (forall k :: 0 <= k < p ==> Stale(log[k], after))
    && (forall k :: p <= k < |log| ==> !Stale(log[k], after))
  }

  /** A delivery of log entries p..q: all of them, once, in order, up to the first terminal one. */
  ghost predicate Delivers(log: seq<Envelope>, p: nat, q: nat, d: Delivery)
  {
    && p <= q <= |log|
    && d.delivered == log[p..q]
    && IsNext(log, d.after, q)
    && (forall k :: p <= k < q - 1 ==> !Terminal(log[k]))
    && (d.stop == Completed ==> p < q && Terminal(log[q - 1]))
    && (p < q && Terminal(log[q - 1]) ==> d.stop == Completed || d.stop == ConsumerFailed || d.stop == Cancelled)
  }

  /** A contiguous stretch a..b of the log that starts no later than the next entry. */
  lemma {:induction false} ConsumeFromLog(log: seq<Envelope>, a: nat, b: nat, k: nat, after: Option<nat>, p: nat, failing: set<Envelope>)
    returns (q: nat)
    requires IsLog(log) && a + k <= b <= |log| && a + k <= p && IsNext(log, after, p)
    ensures Delivers(log, p, q, Consume(log[a..b], k, after, failing))
    decreases b - a - k
  {
    q := p;
    assert log[p..p] == [];
    if k < |log[a..b]| {
      var e := log[a + k];
      assert log[a..b][k] == e;
      if a + k < p {
        q := ConsumeFromLog(log, a, b, k + 1, after, p, failing);
      } else {
        q := p + 1;
        assert log[p..p + 1] == [e];
        assert IsNext(log, Some(e.id), p + 1);
        if e !in failing && !Terminal(e) {
          q := ConsumeFromLog(log, a, b, k + 1, Some(e.id), p + 1, failing);
          DeliversAlso(log, p, q, Consume(log[a..b], k + 1, Some(e.id), failing));
        }
      }
    }
  }

  lemma DeliversAlso(log: seq<Envelope>, p: nat, q: nat, rest: Delivery)
    requires p < |log| && !Terminal(log[p]) && Delivers(log, p + 1, q, rest)
    ensures Delivers(log, p, q, Delivery([log[p]] + rest.delivered, rest.after, rest.stop))
  {
    assert log[p..q] == [log[p]] + log[p + 1..q];
  }

  lemma DeliversOn(log: seq<Envelope>, p: nat, m: nat, q: nat, first: Delivery, rest: Delivery)
    requires Delivers(log, p, m, first) && first.stop == Exhausted && Delivers(log, m, q, rest)
    ensures Delivers(log, p, q, Delivery(first.delivered + rest.delivered, rest.after, rest.stop))
  {
    assert log[p..q] == log[p..m] + log[m..q];
  }

  /** Every stream served is a stretch of the log starting no later than the first event after the resume point. */
  ghost predicate Honest(log: seq<Envelope>, responses: seq<Response>, k: nat, after: Option<nat>, failing: set<Envelope>)
    requires k <= |responses|
    decreases |responses| - k
  {
    k == |responses| ||
    match responses[k]
    case Refused(_) => Honest(log, responses, k + 1, after, failing)
    case NotAStream => true
    case Stream(events, _) =>
      && (exists a, b :: 0 <= a <= b <= |log| && events == log[a..b]
            && forall i {:trigger log[i]} :: 0 <= i < a ==> Stale(log[i], after))
      && Honest(log, responses, k + 1, Consume(events, 0, after, failing).after, failing)
  }

  /**
   * Against an honest server the session delivers a contiguous run of the log,
   * starting with the first event after the resume point and ending at the first
   * terminal event, whatever drops and reconnects happen in between.
   */
  lemma {:induction false} SessionFollowsLog(log: seq<Envelope>, responses: seq<Response>, k: nat, after: Option<nat>, p: nat,
                                             failing: set<Envelope>)
    returns (q: nat)
    requires IsLog(log) && k <= |responses| && IsNext(log, after, p) && Honest(log, responses, k, after, failing)
    ensures Delivers(log, p, q, Session(responses, k, after, failing))
    decreases |responses| - k
  {
    q := p;
    assert log[p..p] == [];
    if k < |responses| {
      match responses[k]
      case Refused(status) =>
        if !(0 < status < 500) {
          q := SessionFollowsLog(log, responses, k + 1, after, p, failing);
        }
      case NotAStream =>
      case Stream(events, ending) =>
        var a, b :| 0 <= a <= b <= |log| && events == log[a..b] && forall i :: 0 <= i < a ==> Stale(log[i], after);
        assert p < |log| ==> !Stale(log[p], after);
        q := ConsumeFromLog(log, a, b, 0, after, p, failing);
        var first := Consume(events, 0, after, failing);
        if StopOf(first.stop, ending) == Exhausted {
          var m := q;
          q := SessionFollowsLog(log, responses, k + 1, first.after, m, failing);
          DeliversOn(log, p, m, q, first, Session(responses, k + 1, first.after, failing));
        }
    }
  }

  /** A fresh session over an honest server delivers a prefix of the log, whole when it completes. */
  lemma FreshSessionDeliversPrefix(log: seq<Envelope>, responses: seq<Response>, failing: set<Envelope>)
    requires IsLog(log) && Honest(log, responses, 0, None, failing)
    ensures var d := Session(responses, 0, None, failing);
      && d.delivered <= log
      && (forall k :: 0 <= k < |d.delivered| - 1 ==> !Terminal(log[k]))
      && (d.stop == Completed ==> d.delivered != [] && Terminal(log[|d.delivered| - 1]))
  {
    var q := SessionFollowsLog(log, responses, 0, None, 0, failing);
    assert log[0..q] == log[..q];
  }
}
