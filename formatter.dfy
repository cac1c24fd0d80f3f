/**
 * `formatEventsForLLM` (src/ics.js:333-409): the list of parsed events as a
 * Markdown document, a header and then one section per event in order,
 * neighbouring sections separated by a `---` line.
 */
module Formatter {
  import opened Wrappers
  import opened JsText
  import opened Persons
  import opened Calendar

  /** The message for a file without events. */
  const NoEventsMessage: string := "No calendar events found in this ICS file."

  /** The text between two event sections. */
  const Separator: string := "---\n\n"

  /** JavaScript truthiness of an optional string: present and non-empty. */
  predicate Truthy(v: Option<string>) {
    v.Some? && v.value != ""
  }

  /** The document header, which counts the events ("event" for one, "events" for more). */
  function Header(n: nat): string {
    "# Calendar Events\n\n" + ("Found " + NatToString(n) + " event" + (if n > 1 then "s" else "") + " in the calendar file.\n\n")
  }

  /** `event.title || 'Untitled Event'`. */
  function TitleText(title: Option<string>): string {
    if Truthy(title) then title.value else "Untitled Event"
  }

  /** The heading line of the event numbered `k`. */
  function Heading(title: Option<string>, k: nat): string {
    "## Event " + NatToString(k) + ": " + TitleText(title) + "\n\n"
  }

  /** The "When" line: the start, and " to " the end when there is one; nothing without a start. */
  function WhenSection(start: Option<string>, end: Option<string>): string {
    if !Truthy(start) then ""
    else if Truthy(end) then "**When**: " + start.value + " to " + end.value + "\n\n"
    else "**When**: " + start.value + "\n\n"
  }

  /** A line opened by `tag` (such as "**Where**: ") for a field, omitted when the field is absent or empty. */
  function Line(tag: string, v: Option<string>): string {
    if Truthy(v) then tag + v.value + "\n\n" else ""
  }

  /** The description block, whose text starts on its own line. */
  function DescriptionSection(description: Option<string>): string {
    if Truthy(description) then "**Description**:\n" + description.value + "\n\n" else ""
  }

  /** `statusMap[event.status] || event.status`: the RFC 5545 VEVENT status values get a label, others pass through. */
  function StatusText(raw: string): string {
    if raw == "CONFIRMED" then "Confirmed"
    else if raw == "TENTATIVE" then "Tentative"
    else if raw == "CANCELLED" then "Cancelled"
    else raw
  }

  /** The status line, with the status translated. */
  function StatusSection(status: Option<string>): string {
    if Truthy(status) then "**Status**: " + StatusText(status.value) + "\n\n" else ""
  }

  /** The organizer line: the name (or nothing) and the email in angle brackets. */
  function OrganizerSection(organizer: Option<Person>): string {
    if organizer.Some? then "**Organizer**: " + organizer.value.name.GetOr("") + " <" + organizer.value.email + ">\n\n"
    else ""
  }

  /** One attendee: name, email (in angle brackets after a name), " (role)" and " - status", each when present. */
  function AttendeeInfo(a: Person): string {
    var named := if Truthy(a.name) then "" + a.name.value else "";
    var withEmail := if a.email != "" then named + (if named != "" then " <" + a.email + ">" else a.email) else named;
    var withRole := if Truthy(a.role) then withEmail + (" (" + a.role.value + ")") else withEmail;
    if Truthy(a.status) then withRole + (" - " + a.status.value) else withRole
  }

  /** The attendee block heading followed by the bullet lines of the first `n` attendees. */
  function AttendeeList(attendees: seq<Person>, n: nat): string
    requires n <= |attendees|
  {
    if n == 0 then "**Attendees**:\n"
    else AttendeeList(attendees, n - 1) + ("- " + AttendeeInfo(attendees[n - 1]) + "\n")
  }

  /** The attendee block, present only when there is at least one attendee. */
  function AttendeesSection(attendees: seq<Person>): string {
    if |attendees| > 0 then AttendeeList(attendees, |attendees|) + "\n" else ""
  }

  /** The section of an event numbered `k` (counting from 1), without the separator. */
  function EventBody(ev: Event, k: nat): string {
    Heading(ev.title, k) + WhenSection(ev.startDate, ev.endDate) + Line("**Where**: ", ev.location)
    + DescriptionSection(ev.description) + Line("**Recurrence**: ", ev.recurrence) + StatusSection(ev.status)
    + OrganizerSection(ev.organizer) + AttendeesSection(ev.attendees) + Line("**UID**: ", ev.uid)
  }

  /** The sections of all events, numbered from 1 in list order. */
  function Bodies(events: seq<Event>): (r: seq<string>)
    ensures |r| == |events|
  {
    seq(|events|, k requires 0 <= k < |events| => EventBody(events[k], k + 1))
  }

  /** The separator after the section at index `i` of `n`: only between sections. */
  function SeparatorAfter(i: nat, n: nat): string {
    if i < n - 1 then Separator else ""
  }

  /** `head` followed by the first `n` sections, each with the separator that follows it. */
  function Rendered(head: string, bodies: seq<string>, n: nat): string
    requires n <= |bodies|
  {
    if n == 0 then head
    else Rendered(head, bodies, n - 1) + bodies[n - 1] + SeparatorAfter(n - 1, |bodies|)
  }

  /** What `formatEventsForLLM(events)` returns. */
  function EventsDocument(events: seq<Event>): string {
    if |events| == 0 then NoEventsMessage
    else Rendered(Header(|events|), Bodies(events), |events|)
  }

  /** The body of the inner `forEach` callback of `formatEventsForLLM`: one attendee's description. */
  method DescribeAttendee(attendee: Person) returns (info: string)
    ensures info == AttendeeInfo(attendee)
  {
    info := "";
    if Truthy(attendee.name) {
      info := info + attendee.name.value;
    }
    if attendee.email != "" {
      info := info + (if info != "" then " <" + attendee.email + ">" else attendee.email);
    }
    if Truthy(attendee.role) {
      info := info + (" (" + attendee.role.value + ")");
    }
    if Truthy(attendee.status) {
      info := info + (" - " + attendee.status.value);
    }
  }

  /** The "When" block of `formatEventsForLLM`. */
  method FormatWhen(start: Option<string>, end: Option<string>) returns (line: string)
    ensures line == WhenSection(start, end)
  {
    line := "";
    if Truthy(start) {
      if Truthy(end) {
        line := "**When**: " + start.value + " to " + end.value + "\n\n";
      } else {
        line := "**When**: " + start.value + "\n\n";
      }
    }
  }

  /** The "Where", "Recurrence" and "UID" blocks of `formatEventsForLLM`, which share one shape. */
  method FormatField(tag: string, v: Option<string>) returns (line: string)
    ensures line == Line(tag, v)
  {
    line := "";
    if Truthy(v) {
      line := tag + v.value + "\n\n";
    }
  }

  /** The "Description" block of `formatEventsForLLM`. */
  method FormatDescription(description: Option<string>) returns (block: string)
    ensures block == DescriptionSection(description)
  {
    block := "";
    if Truthy(description) {
      block := "**Description**:\n" + description.value + "\n\n";
    }
  }

  /** The "Status" block of `formatEventsForLLM`, with the status looked up in its table. */
  method FormatStatus(status: Option<string>) returns (line: string)
    ensures line == StatusSection(status)
  {
    line := "";
    if Truthy(status) {
      line := "**Status**: " + StatusText(status.value) + "\n\n";
    }
  }

  /** The "Organizer" block of `formatEventsForLLM`, when the event has an organizer. */
  method FormatOrganizer(organizer: Option<Person>) returns (line: string)
    ensures line == OrganizerSection(organizer)
  {
    line := "";
    if organizer.Some? {
      line := "**Organizer**: " + organizer.value.name.GetOr("") + " <" + organizer.value.email + ">\n\n";
    }
  }

  /** The inner `forEach` of `formatEventsForLLM`: the attendee heading line and one bullet per attendee, in order. */
  method FormatAttendeeList(attendees: seq<Person>) returns (list: string)
    ensures list == AttendeeList(attendees, |attendees|)
  {
    list := "**Attendees**:\n";
    for j := 0 to |attendees|
      invariant list == AttendeeList(attendees, j)
    {
      var info := DescribeAttendee(attendees[j]);
      list := list + ("- " + info + "\n");
    }
  }

  /** The "Attendees" block of `formatEventsForLLM`, present only when there is at least one attendee. */
  method FormatAttendees(attendees: seq<Person>) returns (block: string)
    ensures block == AttendeesSection(attendees)
  {
    block := "";
    if |attendees| > 0 {
      var list := FormatAttendeeList(attendees);
      block := list + "\n";
    }
  }

  /**
   * The body of the `forEach` callback of `formatEventsForLLM`: the heading
   * of one event and then each of its blocks, in the order the source appends
   * them.
   */
  method FormatEvent(event: Event, number: nat) returns (body: string)
    ensures body == EventBody(event, number)
  {
    body := "## Event " + NatToString(number) + ": " + (if Truthy(event.title) then event.title.value else "Untitled Event") + "\n\n";
    var when := FormatWhen(event.startDate, event.endDate);
    body := body + when;
    var location := FormatField("**Where**: ", event.location);
    body := body + location;
    var description := FormatDescription(event.description);
    body := body + description;
    var recurrence := FormatField("**Recurrence**: ", event.recurrence);
    body := body + recurrence;
    var status := FormatStatus(event.status);
    body := body + status;
    var organizer := FormatOrganizer(event.organizer);
    body := body + organizer;
    var attendees := FormatAttendees(event.attendees);
    body := body + attendees;
    var uid := FormatField("**UID**: ", event.uid);
    body := body + uid;
  }

  /** `formatEventsForLLM(events)`: the header, then each event's section and the separator between sections. */
  method FormatEventsForLLM(events: seq<Event>) returns (output: string)
    ensures output == EventsDocument(events)
    ensures |events| == 0 ==> output == "No calendar events found in this ICS file."
  {
    if |events| == 0 {
      return NoEventsMessage;
    }
    output := "# Calendar Events\n\n";
    output := output + ("Found " + NatToString(|events|) + " event" + (if |events| > 1 then "s" else "") + " in the calendar file.\n\n");
    output := AppendEvents(output, events);
  }

  /** The `forEach` over the events: each section, then the separator unless it is the last. */
  method AppendEvents(head: string, events: seq<Event>) returns (output: string)
    ensures output == Rendered(head, Bodies(events), |events|)
  {
    output := head;
    for index := 0 to |events|
      invariant output == Rendered(head, Bodies(events), index)
    {
      var section := FormatEvent(events[index], index + 1);
      output := output + section;
      if index < |events| - 1 {
        output := output + Separator;
      }
    }
  }

  // ---------------------------------------------------------------- properties

  /** The header shows the number of events and says "event" for one and "events" for more. */
  lemma HeaderCountsEvents(n: nat)
    requires n >= 1
    ensures AllDigits(NatToString(n)) && DigitsValue(NatToString(n)) == n
    ensures n == 1 ==> Header(n) == "# Calendar Events\n\n" + ("Found " + "1" + " event" + " in the calendar file.\n\n")
    ensures n > 1 ==> Header(n) == "# Calendar Events\n\n" + ("Found " + NatToString(n) + " event" + "s" + " in the calendar file.\n\n")
  {
    NatToStringValue(n);
    if n == 1 {
      assert NatToString(1) == "1";
    }
  }

  /** Concatenation is associative. */
  lemma AppendAssoc(a: string, b: string, c: string)
    ensures (a + b) + c == a + (b + c)
  {
  }

  /** Up to `n` sections, `head` is followed by the first `n` sections joined by the separator, and by one more separator if more sections follow. */
  lemma {:induction false} RenderedIsJoined(head: string, bodies: seq<string>, n: nat)
    requires 1 <= n <= |bodies|
    ensures Rendered(head, bodies, n) == head + (Join(bodies[..n], Separator) + SeparatorAfter(n - 1, |bodies|))
  {
    if n == 1 {
      assert bodies[..1] == [bodies[0]];
    } else {
      RenderedIsJoined(head, bodies, n - 1);
      var j := Join(bodies[..n - 1], Separator);
      assert bodies[..n] == bodies[..n - 1] + [bodies[n - 1]];
      JoinSnoc(bodies[..n - 1], bodies[n - 1], Separator);
      assert SeparatorAfter(n - 2, |bodies|) == Separator;
      var x, s := bodies[n - 1], SeparatorAfter(n - 1, |bodies|);
      AppendAssoc(head, j + Separator, x);
      AppendAssoc(head, j + Separator + x, s);
    }
  }

  /**
   * A non-empty document is the header followed by the event sections in
   * order, joined by "---": one separator between neighbours and none after
   * the last.
   */
  lemma DocumentIsJoinedSections(events: seq<Event>)
    requires |events| > 0
    ensures EventsDocument(events) == Header(|events|) + Join(Bodies(events), Separator)
  {
    var bodies := Bodies(events);
    RenderedIsJoined(Header(|events|), bodies, |events|);
    assert bodies[..|events|] == bodies;
  }

  /** Appending to a string keeps its prefixes. */
  lemma PrefixKept(s: string, p: string, t: string)
    requires StartsWith(s, p)
    ensures StartsWith(s + t, p)
  {
    assert (s + t)[..|p|] == s[..|p|];
  }

  /** Event `k` opens with "## Event k: " and its title, or "Untitled Event" when the title is missing or empty. */
  lemma SectionHeading(ev: Event, k: nat)
    ensures Truthy(ev.title) ==> StartsWith(EventBody(ev, k), "## Event " + NatToString(k) + ": " + ev.title.value + "\n\n")
    ensures !Truthy(ev.title) ==> StartsWith(EventBody(ev, k), "## Event " + NatToString(k) + ": " + "Untitled Event" + "\n\n")
  {
    var h := Heading(ev.title, k);
    var s1 := h + WhenSection(ev.startDate, ev.endDate);
    var s2 := s1 + Line("**Where**: ", ev.location);
    var s3 := s2 + DescriptionSection(ev.description);
    var s4 := s3 + Line("**Recurrence**: ", ev.recurrence);
    var s5 := s4 + StatusSection(ev.status);
    var s6 := s5 + OrganizerSection(ev.organizer);
    var s7 := s6 + AttendeesSection(ev.attendees);
    assert h[..|h|] == h;
    PrefixKept(h, h, WhenSection(ev.startDate, ev.endDate));
    PrefixKept(s1, h, Line("**Where**: ", ev.location));
    PrefixKept(s2, h, DescriptionSection(ev.description));
    PrefixKept(s3, h, Line("**Recurrence**: ", ev.recurrence));
    PrefixKept(s4, h, StatusSection(ev.status));
    PrefixKept(s5, h, OrganizerSection(ev.organizer));
    PrefixKept(s6, h, AttendeesSection(ev.attendees));
    PrefixKept(s7, h, Line("**UID**: ", ev.uid));
  }

  /**
   * A "When" line appears only with a start date, and then begins with that
   * start date; an end date without a start date never shows.
   */
  lemma WhenNeedsStart(ev: Event, k: nat)
    ensures WhenSection(ev.startDate, ev.endDate) == "" <==> !Truthy(ev.startDate)
    ensures Truthy(ev.startDate) ==> StartsWith(WhenSection(ev.startDate, ev.endDate), "**When**: " + ev.startDate.value)
    ensures !Truthy(ev.startDate) ==> EventBody(ev, k) == EventBody(ev.(endDate := None), k)
  {
    if Truthy(ev.startDate) {
      var p := "**When**: " + ev.startDate.value;
      if Truthy(ev.endDate) {
        assert WhenSection(ev.startDate, ev.endDate) == p + " to " + ev.endDate.value + "\n\n";
        assert p[..|p|] == p;
        PrefixKept(p, p, " to ");
        PrefixKept(p + " to ", p, ev.endDate.value);
        PrefixKept(p + " to " + ev.endDate.value, p, "\n\n");
      } else {
        assert p[..|p|] == p;
        PrefixKept(p, p, "\n\n");
      }
    }
  }

  /** A field holding the empty string renders exactly as an absent one. */
  lemma EmptyFieldsOmitted(ev: Event, k: nat)
    ensures EventBody(ev.(title := Some("")), k) == EventBody(ev.(title := None), k)
    ensures EventBody(ev.(startDate := Some("")), k) == EventBody(ev.(startDate := None), k)
    ensures EventBody(ev.(endDate := Some("")), k) == EventBody(ev.(endDate := None), k)
    ensures EventBody(ev.(location := Some("")), k) == EventBody(ev.(location := None), k)
    ensures EventBody(ev.(description := Some("")), k) == EventBody(ev.(description := None), k)
    ensures EventBody(ev.(recurrence := Some("")), k) == EventBody(ev.(recurrence := None), k)
    ensures EventBody(ev.(status := Some("")), k) == EventBody(ev.(status := None), k)
    ensures EventBody(ev.(uid := Some("")), k) == EventBody(ev.(uid := None), k)
  {
  }

  /** Two events that differ at most in `created`, `lastModified` and `otherProperties`. */
  predicate SameVisible(a: Event, b: Event) {
    a.(created := None, lastModified := None, otherProperties := map[])
    == b.(created := None, lastModified := None, otherProperties := map[])
  }

  /** `created`, `lastModified` and `otherProperties` never reach the output. */
  lemma HiddenFieldsIgnored(events: seq<Event>, others: seq<Event>)
    requires |events| == |others|
    requires forall k :: 0 <= k < |events| ==> SameVisible(events[k], others[k])
    ensures EventsDocument(events) == EventsDocument(others)
  {
    forall k | 0 <= k < |events|
      ensures Bodies(events)[k] == Bodies(others)[k]
    {
      var a, b := events[k], others[k];
      assert SameVisible(a, b);
      assert a.title == b.title && a.startDate == b.startDate && a.endDate == b.endDate;
      assert a.location == b.location && a.description == b.description && a.recurrence == b.recurrence;
      assert a.status == b.status && a.organizer == b.organizer && a.attendees == b.attendees && a.uid == b.uid;
    }
    assert Bodies(events) == Bodies(others);
  }
}
