/**
 * `parseICSForLLM` (src/ics.js:6-102): the input is stripped of carriage
 * returns and split into lines, and a two-state scanner walks the lines:
 * outside an event it only waits for `BEGIN:VEVENT`; inside one it feeds
 * property lines to the event until `END:VEVENT` pushes the event onto the
 * list. The list is then handed to `formatEventsForLLM`.
 */
module Scanner {
  import opened Wrappers
  import opened JsText
  import opened IcsDate
  import opened Recurrence
  import opened Calendar
  import opened Formatter

  const BeginLine: string := "BEGIN:VEVENT"
  const EndLine: string := "END:VEVENT"

  /** The scanner's variables: the events pushed so far and `currentEvent` (`None` for `null`). */
  datatype ScanState = ScanState(events: seq<Event>, current: Option<Event>)

  /** The state before the first line. */
  const Start: ScanState := ScanState([], None)

  // ---------------------------------------------------------------- input lines

  /** `icsString.replace(/\r/g, '')`. */
  function RemoveCR(s: string): string {
    ReplaceAll(s, "\r", "")
  }

  /** The characters of `s` other than carriage returns, in order. */
  function WithoutCR(s: string): string {
    if |s| == 0 then ""
    else (if s[0] == '\r' then "" else [s[0]]) + WithoutCR(s[1..])
  }

  /** Removing carriage returns keeps every other character, in order, and leaves none behind. */
  lemma {:induction false} RemoveCRKeepsTheRest(s: string)
    ensures RemoveCR(s) == WithoutCR(s)
    ensures '\r' !in RemoveCR(s)
  {
    if |s| > 0 {
      RemoveCRKeepsTheRest(s[1..]);
      if s[0] == '\r' {
        assert s[..1] == "\r";
        assert RemoveCR(s) == "" + RemoveCR(s[1..]);
      } else {
        assert s[..1] != "\r";
        assert RemoveCR(s) == [s[0]] + RemoveCR(s[1..]);
      }
    }
  }

  /** The lines the loop walks: no line holds a line feed or a carriage return, and joined with "\n" they give back the input without carriage returns. */
  function InputLines(icsString: string): (lines: seq<string>)
    ensures |lines| >= 1
    ensures Join(lines, "\n") == RemoveCR(icsString)
    ensures forall k :: 0 <= k < |lines| ==> '\n' !in lines[k] && '\r' !in lines[k]
  {
    RemoveCRKeepsTheRest(icsString);
    var lines := Split(RemoveCR(icsString), '\n');
    forall k | 0 <= k < |lines|
      ensures '\r' !in lines[k]
    {
      SplitPieceIn(lines, k, RemoveCR(icsString));
    }
    lines
  }

  /** Every character of a piece occurs in the joined string. */
  lemma {:induction false} SplitPieceIn(lines: seq<string>, k: nat, s: string)
    requires k < |lines| && Join(lines, "\n") == s
    ensures forall c :: c in lines[k] ==> c in s
  {
    if k == 0 {
      if |lines| > 1 {
        assert s == lines[0] + ("\n" + Join(lines[1..], "\n"));
      }
    } else {
      var rest := Join(lines[1..], "\n");
      assert s == lines[0] + "\n" + rest;
      SplitPieceIn(lines[1..], k - 1, rest);
      assert lines[1..][k - 1] == lines[k];
      forall c | c in rest
        ensures c in s
      {
        var i :| 0 <= i < |rest| && rest[i] == c;
        assert s[|lines[0]| + 1 + i] == c;
      }
    }
  }

  // ---------------------------------------------------------------- one line

  /** A folded continuation line (RFC 5545 section 3.1): it starts with a space or a tab. */
  predicate IsContinuation(line: string) {
    StartsWith(line, " ") || StartsWith(line, "\t")
  }

  /** What a property line does to the open event: nothing when it has no name, otherwise the switch on its name. */
  function PropertyStep(ev: Event, line: string, render: DateRenderer): Result<Event, RuleError> {
    match PropertyLine(line)
    case None => Success(ev)
    case Some((property, value)) => ApplyProperty(ev, property, value, render)
  }

  /**
   * One pass of the loop body on `line`; `first` is `i == 0`. A continuation
   * line after the first is appended to the previous line, which has already
   * been handled, so it changes nothing.
   */
  function Step(st: ScanState, line: string, first: bool, render: DateRenderer): Result<ScanState, RuleError> {
    if IsContinuation(line) && !first then Success(st) else LineStep(st, line, render)
  }

  /** The rest of the loop body: the two marker lines, lines outside an event, and property lines. */
  function LineStep(st: ScanState, line: string, render: DateRenderer): Result<ScanState, RuleError> {
    if line == BeginLine then Success(ScanState(st.events, Some(EmptyEvent)))
    else if line == EndLine then
      if st.current.Some? then Success(ScanState(st.events + [st.current.value], None)) else Success(st)
    else if st.current.None? then Success(st)
    else
      match PropertyStep(st.current.value, line, render)
      case Failure(e) => Failure(e)
      case Success(ev) => Success(ScanState(st.events, Some(ev)))
  }

  /** The loop over `lines` from state `st`; the first failure (an RRULE that throws) ends the scan. */
  function Scan(st: ScanState, lines: seq<string>, first: bool, render: DateRenderer): Result<ScanState, RuleError>
    decreases |lines|
  {
    if |lines| == 0 then Success(st)
    else
      match Step(st, lines[0], first, render)
      case Failure(e) => Failure(e)
      case Success(next) => Scan(next, lines[1..], false, render)
  }

  /** The events collected from `lines`, or the error that escapes the loop. */
  function EventsOfLines(lines: seq<string>, render: DateRenderer): Result<seq<Event>, RuleError> {
    match Scan(Start, lines, true, render)
    case Failure(e) => Failure(e)
    case Success(st) => Success(st.events)
  }

  /** The events `parseICSForLLM` collects, or the error that escapes it. */
  function EventsOf(icsString: string, render: DateRenderer): Result<seq<Event>, RuleError> {
    EventsOfLines(InputLines(icsString), render)
  }

  /** What `parseICSForLLM(icsString)` returns, or the error it throws. */
  function ParseICS(icsString: string, render: DateRenderer): Result<string, RuleError> {
    match EventsOf(icsString, render)
    case Failure(e) => Failure(e)
    case Success(events) => Success(EventsDocument(events))
  }

  /** The loop body's handling of a line inside an event (src/ics.js:43-96): cut at the first `:` and at a `;` in the name, then the switch. */
  method HandlePropertyLine(ev: Event, line: string, render: DateRenderer) returns (r: Result<Event, RuleError>)
    ensures r == PropertyStep(ev, line, render)
  {
    r := Success(ev);
    var colonIndex := IndexOf(line, ':');
    if colonIndex > 0 {
      var property := Substring(line, 0, colonIndex);
      var value := Substring(line, colonIndex + 1, |line|);
      var semiIndex := IndexOf(property, ';');
      if semiIndex > 0 {
        property := Substring(property, 0, semiIndex);
      }
      r := SetProperty(ev, property, value, render);
    }
  }

  /** The loop body after the continuation test, on the loop's `events` and `currentEvent`. */
  method HandleLine(events: seq<Event>, currentEvent: Option<Event>, line: string, render: DateRenderer)
    returns (r: Result<ScanState, RuleError>)
    ensures r == LineStep(ScanState(events, currentEvent), line, render)
  {
    if line == "BEGIN:VEVENT" {
      return Success(ScanState(events, Some(EmptyEvent)));
    }
    if line == "END:VEVENT" {
      if currentEvent.Some? {
        return Success(ScanState(events + [currentEvent.value], None));
      }
      return Success(ScanState(events, currentEvent));
    }
    if currentEvent.None? {
      return Success(ScanState(events, currentEvent));
    }
    var updated := HandlePropertyLine(currentEvent.value, line, render);
    if updated.Failure? {
      return Failure(updated.error);
    }
    return Success(ScanState(events, Some(updated.value)));
  }

  /** One step of `Scan` on the line at `i`. */
  lemma ScanStep(st: ScanState, lines: seq<string>, i: nat, render: DateRenderer)
    requires i < |lines|
    ensures Scan(st, lines[i..], i == 0, render) ==
              match Step(st, lines[i], i == 0, render)
              case Failure(e) => Failure(e)
              case Success(next) => Scan(next, lines[i + 1..], false, render)
  {
    assert lines[i..][0] == lines[i] && lines[i..][1..] == lines[i + 1..];
  }

  /**
   * The `for` loop of `parseICSForLLM` over the array of lines, with its
   * `events` and `currentEvent`; a folded line is appended in place to the
   * line before it, as the source does.
   */
  method ScanLines(lines: array<string>, render: DateRenderer) returns (r: Result<ScanState, RuleError>)
    modifies lines
    ensures r == Scan(Start, old(lines[..]), true, render)
    ensures r.Success? ==> forall k :: 0 <= k < lines.Length ==> lines[k] == Unfolded(old(lines[..]), k, lines.Length)
  {
    ghost var split := lines[..];
    var events: seq<Event> := [];
    var currentEvent: Option<Event> := None;
    for i := 0 to lines.Length
      invariant lines[i..] == split[i..]
      invariant forall k :: 0 <= k < i ==> lines[k] == Unfolded(split, k, i)
      invariant Scan(Start, split, true, render) == Scan(ScanState(events, currentEvent), split[i..], i == 0, render)
    {
      var line := lines[i];
      assert line == split[i];
      ScanStep(ScanState(events, currentEvent), split, i, render);
      if StartsWith(line, " ") || StartsWith(line, "\t") {
        if i > 0 {
          lines[i - 1] := lines[i - 1] + Substring(line, 1, |line|);
          assert lines[i + 1..] == split[i + 1..];
          continue;
        }
      }
      var next := HandleLine(events, currentEvent, line, render);
      if next.Failure? {
        return Failure(next.error);
      }
      events, currentEvent := next.value.events, next.value.current;
    }
    assert split[|split|..] == [];
    return Success(ScanState(events, currentEvent));
  }

  /**
   * The line at `k` once the first `n` lines have been read: the text after
   * the first character of a continuation line at `k + 1` is appended to it.
   */
  function Unfolded(lines: seq<string>, k: nat, n: nat): string
    requires k < |lines|
  {
    if k + 1 < n && k + 1 < |lines| && IsContinuation(lines[k + 1]) then lines[k] + lines[k + 1][1..] else lines[k]
  }

  /** `parseICSForLLM(icsString)`: split into lines, scan them, then format the events collected. */
  method ParseICSForLLM(icsString: string, render: DateRenderer) returns (r: Result<string, RuleError>)
    ensures r == ParseICS(icsString, render)
  {
    var split := InputLines(icsString);
    var lines := new string[|split|](k requires 0 <= k < |split| => split[k]);
    assert lines[..] == split;
    var scanned := ScanLines(lines, render);
    if scanned.Failure? {
      ParseICSOfFailedScan(icsString, scanned.error, render);
      return Failure(scanned.error);
    }
    ParseICSOfScan(icsString, scanned.value, render);
    var text := FormatEventsForLLM(scanned.value.events);
    return Success(text);
  }

  /** A scan of the whole input that ends in state `st` yields the document of its events. */
  lemma ParseICSOfScan(icsString: string, st: ScanState, render: DateRenderer)
    requires Scan(Start, InputLines(icsString), true, render) == Success(st)
    ensures ParseICS(icsString, render) == Success(EventsDocument(st.events))
  {
  }

  /** A scan of the whole input that throws makes `parseICSForLLM` throw the same error. */
  lemma ParseICSOfFailedScan(icsString: string, e: RuleError, render: DateRenderer)
    requires Scan(Start, InputLines(icsString), true, render) == Failure(e)
    ensures ParseICS(icsString, render) == Failure(e)
  {
  }

  // ---------------------------------------------------------------- properties

  /** A line starting with a space or a tab is neither marker line. */
  lemma ContinuationIsNoMarker(line: string)
    requires IsContinuation(line)
    ensures line != BeginLine && line != EndLine
  {
    assert line[0] == ' ' || line[0] == '\t';
    assert BeginLine[0] == 'B' && EndLine[0] == 'E';
  }

  /** Scanning two stretches of lines one after the other. */
  lemma {:induction false} ScanConcat(st: ScanState, a: seq<string>, b: seq<string>, first: bool, render: DateRenderer)
    ensures Scan(st, a + b, first, render) ==
              match Scan(st, a, first, render)
              case Failure(e) => Failure(e)
              case Success(mid) => Scan(mid, b, first && |a| == 0, render)
    decreases |a|
  {
    if |a| == 0 {
      assert a + b == b;
    } else {
      assert (a + b)[0] == a[0];
      assert (a + b)[1..] == a[1..] + b;
      match Step(st, a[0], first, render)
      case Failure(e) =>
      case Success(next) =>
        ScanConcat(next, a[1..], b, false, render);
    }
  }

  /** The `i == 0` test only matters for a continuation line, and not even then while no event is open. */
  lemma FirstFlagIrrelevant(st: ScanState, lines: seq<string>, render: DateRenderer)
    requires st.current.None? || |lines| == 0 || !IsContinuation(lines[0])
    ensures Scan(st, lines, true, render) == Scan(st, lines, false, render)
  {
    if |lines| > 0 && IsContinuation(lines[0]) {
      ContinuationIsNoMarker(lines[0]);
    }
  }

  /** The lines that are not continuation lines, in order. */
  function WithoutContinuations(lines: seq<string>): (r: seq<string>)
    ensures forall k :: 0 <= k < |r| ==> !IsContinuation(r[k])
  {
    if |lines| == 0 then []
    else (if IsContinuation(lines[0]) then [] else [lines[0]]) + WithoutContinuations(lines[1..])
  }

  /** Dropping continuation lines commutes with concatenation. */
  lemma {:induction false} WithoutContinuationsConcat(a: seq<string>, b: seq<string>)
    ensures WithoutContinuations(a + b) == WithoutContinuations(a) + WithoutContinuations(b)
  {
    if |a| > 0 {
      assert (a + b)[0] == a[0];
      assert (a + b)[1..] == a[1..] + b;
      WithoutContinuationsConcat(a[1..], b);
    } else {
      assert a + b == b;
    }
  }

  /** Continuation lines are scanned as if they were not there. */
  lemma {:induction false} DropContinuations(st: ScanState, lines: seq<string>, first: bool, render: DateRenderer)
    requires first ==> st.current.None?
    ensures Scan(st, lines, first, render) == Scan(st, WithoutContinuations(lines), first, render)
    decreases |lines|
  {
    if |lines| > 0 {
      var line, rest := lines[0], lines[1..];
      if IsContinuation(line) {
        ContinuationIsNoMarker(line);
        assert Step(st, line, first, render) == Success(st);
        assert Scan(st, lines, first, render) == Scan(st, rest, false, render);
        assert WithoutContinuations(lines) == [] + WithoutContinuations(rest) == WithoutContinuations(rest);
        DropContinuations(st, rest, false, render);
        if first {
          FirstFlagIrrelevant(st, WithoutContinuations(rest), render);
        }
      } else {
        var w := WithoutContinuations(rest);
        assert WithoutContinuations(lines) == [line] + w;
        assert ([line] + w)[0] == line && ([line] + w)[1..] == w;
        match Step(st, line, first, render)
        case Failure(e) =>
        case Success(next) =>
          DropContinuations(next, rest, false, render);
      }
    }
  }

  /**
   * Folding is not implemented: a line starting with a space or a tab changes
   * nothing, wherever it stands. The whole input scans as if all such lines
   * were removed, and inserting one anywhere leaves the result as it was.
   */
  lemma ContinuationLinesChangeNothing(lines: seq<string>, a: seq<string>, c: string, b: seq<string>, render: DateRenderer)
    requires IsContinuation(c)
    ensures Scan(Start, lines, true, render) == Scan(Start, WithoutContinuations(lines), true, render)
    ensures Scan(Start, a + [c] + b, true, render) == Scan(Start, a + b, true, render)
  {
    DropContinuations(Start, lines, true, render);
    DropContinuations(Start, a + [c] + b, true, render);
    DropContinuations(Start, a + b, true, render);
    WithoutContinuationsConcat(a + [c], b);
    WithoutContinuationsConcat(a, [c]);
    WithoutContinuationsConcat(a, b);
    assert WithoutContinuations([c]) == [];
    assert WithoutContinuations(a) + [] == WithoutContinuations(a);
  }

  /**
   * While no event is open, nothing but `BEGIN:VEVENT` has an effect: lines
   * outside an event are skipped and an `END:VEVENT` without an open event
   * does nothing.
   */
  lemma {:induction false} IdleLinesIgnored(st: ScanState, lines: seq<string>, first: bool, render: DateRenderer)
    requires st.current.None?
    requires forall k :: 0 <= k < |lines| ==> lines[k] != BeginLine
    ensures Scan(st, lines, first, render) == Success(st)
    decreases |lines|
  {
    if |lines| > 0 {
      assert lines[0] != BeginLine;
      assert Step(st, lines[0], first, render) == Success(st);
      IdleLinesIgnored(st, lines[1..], false, render);
    }
  }

  /** Lines that are neither `BEGIN:VEVENT` nor `END:VEVENT`. */
  predicate NoMarkers(body: seq<string>) {
    forall k :: 0 <= k < |body| ==> body[k] != BeginLine && body[k] != EndLine
  }

  /** The event the property lines of `body` build from `ev`, continuation lines skipped; or the first RRULE error. */
  function BuildEvent(ev: Event, body: seq<string>, render: DateRenderer): Result<Event, RuleError>
    decreases |body|
  {
    if |body| == 0 then Success(ev)
    else if IsContinuation(body[0]) then BuildEvent(ev, body[1..], render)
    else
      match PropertyStep(ev, body[0], render)
      case Failure(e) => Failure(e)
      case Success(next) => BuildEvent(next, body[1..], render)
  }

  /** Inside an open event, the lines between the markers only build that event. */
  lemma {:induction false} InsideEvent(events: seq<Event>, ev: Event, body: seq<string>, render: DateRenderer)
    requires NoMarkers(body)
    ensures Scan(ScanState(events, Some(ev)), body, false, render) ==
              match BuildEvent(ev, body, render)
              case Failure(e) => Failure(e)
              case Success(built) => Success(ScanState(events, Some(built)))
    decreases |body|
  {
    if |body| > 0 {
      assert body[0] != BeginLine && body[0] != EndLine;
      assert NoMarkers(body[1..]) by {
        forall k | 0 <= k < |body[1..]|
          ensures body[1..][k] != BeginLine && body[1..][k] != EndLine
        {
          assert body[1..][k] == body[k + 1];
        }
      }
      if IsContinuation(body[0]) {
        InsideEvent(events, ev, body[1..], render);
      } else {
        match PropertyStep(ev, body[0], render)
        case Failure(e) =>
        case Success(next) =>
          InsideEvent(events, next, body[1..], render);
      }
    }
  }

  /** `BEGIN:VEVENT` opens a fresh event, whatever was open before, and the following lines build it. */
  lemma OpenBlock(st: ScanState, body: seq<string>, first: bool, render: DateRenderer)
    requires NoMarkers(body)
    ensures Scan(st, [BeginLine] + body, first, render) ==
              match BuildEvent(EmptyEvent, body, render)
              case Failure(e) => Failure(e)
              case Success(built) => Success(ScanState(st.events, Some(built)))
  {
    assert !IsContinuation(BeginLine) by {
      assert BeginLine[0] == 'B';
    }
    assert ([BeginLine] + body)[0] == BeginLine && ([BeginLine] + body)[1..] == body;
    InsideEvent(st.events, EmptyEvent, body, render);
  }

  /** A complete `BEGIN:VEVENT` ... `END:VEVENT` block appends the event it builds and closes it. */
  lemma CompleteBlock(st: ScanState, body: seq<string>, first: bool, render: DateRenderer)
    requires NoMarkers(body)
    ensures Scan(st, [BeginLine] + body + [EndLine], first, render) ==
              match BuildEvent(EmptyEvent, body, render)
              case Failure(e) => Failure(e)
              case Success(built) => Success(ScanState(st.events + [built], None))
  {
    ScanConcat(st, [BeginLine] + body, [EndLine], first, render);
    OpenBlock(st, body, first, render);
    assert !IsContinuation(EndLine) by {
      assert EndLine[0] == 'E';
    }
    assert [EndLine][1..] == [];
  }

  /** A second `BEGIN:VEVENT` while an event is open discards that event: the scan goes on as if it had never been opened. */
  lemma BeginDiscardsOpenEvent(st: ScanState, body: seq<string>, rest: seq<string>, first: bool, render: DateRenderer)
    requires NoMarkers(body)
    requires BuildEvent(EmptyEvent, body, render).Success?
    ensures Scan(st, [BeginLine] + body + [BeginLine] + rest, first, render)
            == Scan(ScanState(st.events, None), [BeginLine] + rest, false, render)
  {
    assert [BeginLine] + body + [BeginLine] + rest == ([BeginLine] + body) + ([BeginLine] + rest);
    ScanConcat(st, [BeginLine] + body, [BeginLine] + rest, first, render);
    OpenBlock(st, body, first, render);
    var built := BuildEvent(EmptyEvent, body, render).value;
    assert ([BeginLine] + rest)[0] == BeginLine && ([BeginLine] + rest)[1..] == rest;
    assert !IsContinuation(BeginLine) by {
      assert BeginLine[0] == 'B';
    }
    var reopened := ScanState(st.events, Some(EmptyEvent));
    assert Step(ScanState(st.events, Some(built)), BeginLine, false, render) == Success(reopened);
    assert Step(ScanState(st.events, None), BeginLine, false, render) == Success(reopened);
  }

  /** An event still open when the input ends is not returned. */
  lemma UnterminatedEventDropped(lines: seq<string>, body: seq<string>, render: DateRenderer)
    requires NoMarkers(body)
    requires Scan(Start, lines, true, render).Success?
    requires BuildEvent(EmptyEvent, body, render).Success?
    ensures Scan(Start, lines + [BeginLine] + body, true, render).Success?
    ensures Scan(Start, lines + [BeginLine] + body, true, render).value.events == Scan(Start, lines, true, render).value.events
  {
    assert lines + [BeginLine] + body == lines + ([BeginLine] + body);
    ScanConcat(Start, lines, [BeginLine] + body, true, render);
    OpenBlock(Scan(Start, lines, true, render).value, body, |lines| == 0, render);
  }

  /** The lines of the blocks `BEGIN:VEVENT`, body, `END:VEVENT`, one per body, in order. */
  function Blocks(bodies: seq<seq<string>>): seq<string> {
    if |bodies| == 0 then []
    else Blocks(bodies[..|bodies| - 1]) + ([BeginLine] + bodies[|bodies| - 1] + [EndLine])
  }

  /** The events the bodies build, in order, or the first error. */
  function BuildAll(bodies: seq<seq<string>>, render: DateRenderer): Result<seq<Event>, RuleError> {
    if |bodies| == 0 then Success([])
    else
      match BuildAll(bodies[..|bodies| - 1], render)
      case Failure(e) => Failure(e)
      case Success(events) =>
        match BuildEvent(EmptyEvent, bodies[|bodies| - 1], render)
        case Failure(e) => Failure(e)
        case Success(ev) => Success(events + [ev])
  }

  /** Events come out in the order of their `END:VEVENT` lines, each built from the lines of its own block. */
  lemma {:induction false} EventsInBlockOrder(st: ScanState, bodies: seq<seq<string>>, first: bool, render: DateRenderer)
    requires st.current.None?
    requires forall k :: 0 <= k < |bodies| ==> NoMarkers(bodies[k])
    ensures Scan(st, Blocks(bodies), first, render) ==
              match BuildAll(bodies, render)
              case Failure(e) => Failure(e)
              case Success(events) => Success(ScanState(st.events + events, None))
    decreases |bodies|
  {
    if |bodies| == 0 {
      assert st.events + [] == st.events;
    } else {
      var init, last := bodies[..|bodies| - 1], bodies[|bodies| - 1];
      EventsInBlockOrder(st, init, first, render);
      ScanConcat(st, Blocks(init), [BeginLine] + last + [EndLine], first, render);
      match BuildAll(init, render)
      case Failure(e) =>
      case Success(events) =>
        var mid := ScanState(st.events + events, None);
        CompleteBlock(mid, last, first && |Blocks(init)| == 0, render);
        match BuildEvent(EmptyEvent, last, render)
        case Failure(e) =>
        case Success(ev) =>
          assert st.events + events + [ev] == st.events + (events + [ev]);
    }
  }

  /** Lines made of complete blocks yield the events their blocks build, in order. */
  lemma EventsOfBlocks(bodies: seq<seq<string>>, render: DateRenderer)
    requires forall k :: 0 <= k < |bodies| ==> NoMarkers(bodies[k])
    ensures EventsOfLines(Blocks(bodies), render) == BuildAll(bodies, render)
  {
    EventsInBlockOrder(Start, bodies, true, render);
    ScannedEvents(Blocks(bodies), BuildAll(bodies, render), render);
  }

  /** What a scan of whole lines yields, read off as the collected events. */
  lemma ScannedEvents(lines: seq<string>, all: Result<seq<Event>, RuleError>, render: DateRenderer)
    requires all.Success? ==> Scan(Start, lines, true, render) == Success(ScanState(Start.events + all.value, None))
    requires all.Failure? ==> Scan(Start, lines, true, render) == Failure(all.error)
    ensures EventsOfLines(lines, render) == all
  {
    if all.Success? {
      assert Start.events + all.value == all.value;
    }
  }


  /** The event list only grows, at its end. */
  lemma {:induction false} EventsOnlyGrow(st: ScanState, lines: seq<string>, first: bool, render: DateRenderer)
    requires Scan(st, lines, first, render).Success?
    ensures st.events <= Scan(st, lines, first, render).value.events
    decreases |lines|
  {
    if |lines| > 0 {
      var next := Step(st, lines[0], first, render).value;
      assert st.events <= next.events;
      EventsOnlyGrow(next, lines[1..], false, render);
    }
  }
}
