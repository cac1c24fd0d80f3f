/**
 * The event record that `parseICSForLLM` builds (src/ics.js:25-96), and the
 * handling of one property line inside a `BEGIN:VEVENT` block: the RFC 5545
 * content line `name[;params]:value` (section 3.1) is cut at its first `:`,
 * and the name selects which field the value goes to.
 */
module Calendar {
  import opened Wrappers
  import opened JsText
  import opened IcsDate
  import opened Recurrence
  import opened Persons

  /**
   * The `currentEvent` object. A field that was never assigned is `None`;
   * `attendees` and `otherProperties` are empty until their first entry.
   */
  datatype Event = Event(
    title: Option<string>,
    description: Option<string>,
    location: Option<string>,
    startDate: Option<string>,
    endDate: Option<string>,
    created: Option<string>,
    lastModified: Option<string>,
    recurrence: Option<string>,
    attendees: seq<Person>,
    organizer: Option<Person>,
    uid: Option<string>,
    status: Option<string>,
    otherProperties: map<string, string>)

  /** `currentEvent = {}`. */
  const EmptyEvent: Event :=
    Event(None, None, None, None, None, None, None, None, [], None, None, None, map[])

  // ---------------------------------------------------------------- content lines

  /**
   * The property name and value of a line, or `None` when the first `:` is
   * missing or at index 0. The name is the text before the first `:`, cut at
   * its first `;` when that `;` is at index 1 or later.
   */
  function PropertyLine(line: string): Option<(string, string)> {
    var colonIndex := IndexOf(line, ':');
    if colonIndex > 0 then
      var property := Substring(line, 0, colonIndex);
      var value := Substring(line, colonIndex + 1, |line|);
      var semiIndex := IndexOf(property, ';');
      Some((if semiIndex > 0 then Substring(property, 0, semiIndex) else property, value))
    else
      None
  }

  /**
   * A line is skipped exactly when its first `:` is missing or leads the line.
   * Otherwise the value is all of the line after the first `:`, and the name
   * is a non-empty prefix of the text before it, free of `:`. It is that whole
   * text only when the text holds no `;` or starts with one, and otherwise it
   * stops right before the first `;`.
   */
  lemma PropertyLineShape(line: string)
    ensures PropertyLine(line).None? <==> ':' !in line || line[0] == ':'
    ensures PropertyLine(line).Some? ==>
              var (name, value) := PropertyLine(line).value;
              var k := IndexOf(line, ':');
              value == line[k + 1..] && ':' !in name && 0 < |name| <= k && name == line[..|name|]
              && (|name| == k || (line[|name|] == ';' && ';' !in name))
              && (|name| == k ==> ';' !in line[..k] || line[0] == ';')
  {
    var k := IndexOf(line, ':');
    if k > 0 {
      PropertyLineAt(line, k);
    }
  }

  /** The name and value of a line whose first `:` is at `k > 0`. */
  lemma PropertyLineAt(line: string, k: int)
    requires k == IndexOf(line, ':') && k > 0
    ensures PropertyLine(line).Some?
    ensures var (name, value) := PropertyLine(line).value;
            value == line[k + 1..] && ':' !in name && 0 < |name| <= k && name == line[..|name|]
            && (|name| == k || (line[|name|] == ';' && ';' !in name))
            && (|name| == k ==> ';' !in line[..k] || line[0] == ';')
  {
    var property := Substring(line, 0, k);
    var value := Substring(line, k + 1, |line|);
    assert property == line[..k] && value == line[k + 1..];
    var semiIndex := IndexOf(property, ';');
    if semiIndex > 0 {
      NameBeforeSemicolon(line, k, semiIndex);
      assert PropertyLine(line) == Some((line[..semiIndex], value));
    } else {
      assert PropertyLine(line) == Some((line[..k], value));
    }
  }

  /** When the text before the first `:` has its first `;` at `j > 0`, the name is the `j` characters before it. */
  lemma NameBeforeSemicolon(line: string, k: int, j: int)
    requires k == IndexOf(line, ':') && k > 0
    requires j == IndexOf(line[..k], ';') && j > 0
    ensures Substring(line[..k], 0, j) == line[..j]
    ensures line[j] == ';' && ';' !in line[..j] && ':' !in line[..j]
  {
    assert line[..k][..j] == line[..j];
    assert line[..k][j] == line[j];
    assert forall c :: c in line[..j] ==> c in line[..k];
  }

  /** A line made of a head free of `:`, a `:` and a value: the value is what follows, the name is the head up to its first `;` past index 0. */
  lemma PropertyLineOfHead(head: string, value: string)
    requires |head| > 0 && ':' !in head
    ensures var semiIndex := IndexOf(head, ';');
            PropertyLine(head + ":" + value) == Some((if semiIndex > 0 then head[..semiIndex] else head, value))
  {
    var line := head + ":" + value;
    assert line == head + [':'] + value;
    IndexOfAfterPrefix(head, ':', value);
    var k := IndexOf(line, ':');
    assert k == |head|;
    assert Substring(line, 0, k) == head by {
      assert line[..|head|] == head;
    }
    assert Substring(line, k + 1, |line|) == value by {
      assert line[|head| + 1..] == value;
    }
    var semiIndex := IndexOf(head, ';');
    assert PropertyLine(line) == Some((if semiIndex > 0 then Substring(head, 0, semiIndex) else head, value));
    assert semiIndex > 0 ==> Substring(head, 0, semiIndex) == head[..semiIndex];
  }

  /** A plain content line `name:value` yields its name and value. */
  lemma PropertyLineOfPlain(name: string, value: string)
    requires |name| > 0 && ':' !in name && ';' !in name
    ensures PropertyLine(name + ":" + value) == Some((name, value))
  {
    PropertyLineOfHead(name, value);
  }

  /**
   * A content line with parameters, `name;params:value`, yields the bare name
   * and the value after the first `:`: the parameters are dropped, so
   * ATTENDEE and ORGANIZER never see a CN or PARTSTAT written as a parameter.
   */
  lemma PropertyLineDropsParameters(name: string, params: string, value: string)
    requires |name| > 0 && ':' !in name && ';' !in name && ':' !in params
    ensures PropertyLine(name + ";" + params + ":" + value) == Some((name, value))
  {
    var head := name + [';'] + params;
    assert name + ";" + params == head;
    IndexOfAfterPrefix(name, ';', params);
    assert head[..|name|] == name;
    PropertyLineOfHead(head, value);
  }

  // ---------------------------------------------------------------- DESCRIPTION

  /** The DESCRIPTION decoding: `\n` to a line feed, then `\,` to `,`, then `\\` to `\`, each pass replacing all occurrences. */
  function UnescapeDescription(value: string): string {
    ReplaceAll(ReplaceAll(ReplaceAll(value, "\\n", "\n"), "\\,", ","), "\\\\", "\\")
  }

  /** A value without a backslash is stored unchanged, and no value grows. */
  lemma UnescapeDescriptionBounds(value: string)
    ensures '\\' !in value ==> UnescapeDescription(value) == value
    ensures |UnescapeDescription(value)| <= |value|
  {
  }

  /** After the first pass no `\n` escape is left in the value. */
  lemma EscapedNewlinesGone(value: string, i: int)
    requires 0 <= i
    ensures !OccursAt(ReplaceAll(value, "\\n", "\n"), "\\n", i)
  {
    assert "\\n" == ['\\', 'n'] && "\n" == ['\n'];
    ReplaceAllRemovesPattern(value, '\\', 'n', '\n', i);
  }

  /** The passes run in order, so an escaped backslash before `n` is read as a backslash then a line feed. */
  lemma UnescapeOrderExample()
    ensures UnescapeDescription("\\\\n") == "\\\n"
  {
    var s := "\\\\n";
    assert ReplaceAll(s, "\\n", "\n") == "\\\n" by {
      assert s[..2][1] != "\\n"[1] && s[1..] == "\\n";
      ReplaceAllSkip(s, "\\n", "\n");
      ReplaceAllMatch(s[1..], "\\n", "\n");
      assert s[1..][2..] == "";
    }
    var t := "\\\n";
    assert t[..2][1] != "\\,"[1] && t[1..] == "\n";
    ReplaceAllSkip(t, "\\,", ",");
    assert t[..2][1] != "\\\\"[1];
    ReplaceAllSkip(t, "\\\\", "\\");
  }

  /** An escaped comma becomes a plain comma. */
  lemma UnescapeCommaExample()
    ensures UnescapeDescription("a\\,b") == "a,b"
  {
    var t := "a\\,b";
    assert '\\' !in "\n";
    assert ReplaceAll(t, "\\n", "\n") == t by {
      assert t[..2][0] != "\\n"[0] && t[1..] == "\\,b";
      ReplaceAllSkip(t, "\\n", "\n");
      assert t[1..][..2][1] != "\\n"[1] && t[1..][1..] == ",b";
      ReplaceAllSkip(t[1..], "\\n", "\n");
    }
    assert ReplaceAll(t, "\\,", ",") == "a,b" by {
      assert t[..2][0] != "\\,"[0] && t[1..] == "\\,b";
      ReplaceAllSkip(t, "\\,", ",");
      assert t[1..][..2] == "\\," && t[1..][2..] == "b";
      ReplaceAllMatch(t[1..], "\\,", ",");
    }
  }


  /** The first pass turns an escaped newline between two backslash-free texts into a newline and leaves an escaped comma after them. */
  lemma NewlinePass(a: string, b: string, c: string)
    requires '\\' !in a && '\\' !in b && '\\' !in c
    ensures ReplaceAll(a + "\\n" + b + "\\," + c, "\\n", "\n") == a + "\n" + b + "\\," + c
  {
    assert "\\," == ["\\n"[0], ','];
    ReplaceAllOnceBeforeNearMiss(a, b, ',', c, "\\n", "\n");
  }

  /** The second pass turns the escaped comma into a comma; nothing before it holds a backslash. */
  lemma CommaPass(a: string, b: string, c: string)
    requires '\\' !in a && '\\' !in b && '\\' !in c
    ensures ReplaceAll(a + "\n" + b + "\\," + c, "\\,", ",") == a + "\n" + b + "," + c
  {
    assert '\\' !in a + "\n" + b;
    ReplaceAllOnce(a + "\n" + b, c, "\\,", ",");
  }

  /**
   * A description with one escaped newline and then one escaped comma, and no
   * other backslash, is stored with a real newline and a plain comma.
   */
  lemma UnescapeNewlineThenComma(a: string, b: string, c: string)
    requires '\\' !in a && '\\' !in b && '\\' !in c
    ensures UnescapeDescription(a + "\\n" + b + "\\," + c) == a + "\n" + b + "," + c
  {
    NewlinePass(a, b, c);
    CommaPass(a, b, c);
    assert '\\' !in a + "\n" + b + "," + c;
  }

  /** The documented description `Line1\nLine2\, comma` (escapes as written in the file) is stored as two lines with a comma. */
  lemma DescriptionExample()
    ensures UnescapeDescription("Line1\\nLine2\\, comma") == "Line1\nLine2, comma"
  {
    assert "Line1\\nLine2\\, comma" == "Line1" + "\\n" + "Line2" + "\\," + " comma";
    assert "Line1\nLine2, comma" == "Line1" + "\n" + "Line2" + "," + " comma";
    UnescapeNewlineThenComma("Line1", "Line2", " comma");
  }

  // ---------------------------------------------------------------- the switch on the property name

  /** The event after the `switch (property)` with `value`, or the exception an RRULE throws. */
  function ApplyProperty(ev: Event, property: string, value: string, render: DateRenderer): Result<Event, RuleError> {
    if property == "SUMMARY" then Success(ev.(title := Some(value)))
    else if property == "DESCRIPTION" then Success(ev.(description := Some(UnescapeDescription(value))))
    else if property == "LOCATION" then Success(ev.(location := Some(value)))
    else if property == "DTSTART" then Success(ev.(startDate := Some(FormatICSDate(value, render))))
    else if property == "DTEND" then Success(ev.(endDate := Some(FormatICSDate(value, render))))
    else if property == "CREATED" then Success(ev.(created := Some(FormatICSDate(value, render))))
    else if property == "LAST-MODIFIED" then Success(ev.(lastModified := Some(FormatICSDate(value, render))))
    else if property == "RRULE" then
      match RecurrenceText(value, render)
      case Failure(e) => Failure(e)
      case Success(text) => Success(ev.(recurrence := Some(text)))
    else if property == "ATTENDEE" then Success(ev.(attendees := ev.attendees + [AttendeeOf(value)]))
    else if property == "ORGANIZER" then Success(ev.(organizer := Some(OrganizerOf(value))))
    else if property == "UID" then Success(ev.(uid := Some(value)))
    else if property == "STATUS" then Success(ev.(status := Some(value)))
    else Success(ev.(otherProperties := ev.otherProperties[property := value]))
  }

  /** The names the switch handles; every other name goes to `otherProperties`. */
  predicate IsKnownProperty(property: string) {
    property in ["SUMMARY", "DESCRIPTION", "LOCATION", "DTSTART", "DTEND", "CREATED", "LAST-MODIFIED",
                 "RRULE", "ATTENDEE", "ORGANIZER", "UID", "STATUS"]
  }

  /** `switch (property)` as the source runs it: fields are assigned on the event, the nested parsers are called. */
  method SetProperty(ev: Event, property: string, value: string, render: DateRenderer)
    returns (r: Result<Event, RuleError>)
    ensures r == ApplyProperty(ev, property, value, render)
  {
    var currentEvent := ev;
    if property == "SUMMARY" {
      currentEvent := currentEvent.(title := Some(value));
    } else if property == "DESCRIPTION" {
      currentEvent := currentEvent.(description := Some(UnescapeDescription(value)));
    } else if property == "LOCATION" {
      currentEvent := currentEvent.(location := Some(value));
    } else if property == "DTSTART" {
      currentEvent := currentEvent.(startDate := Some(FormatICSDate(value, render)));
    } else if property == "DTEND" {
      currentEvent := currentEvent.(endDate := Some(FormatICSDate(value, render)));
    } else if property == "CREATED" {
      currentEvent := currentEvent.(created := Some(FormatICSDate(value, render)));
    } else if property == "LAST-MODIFIED" {
      currentEvent := currentEvent.(lastModified := Some(FormatICSDate(value, render)));
    } else if property == "RRULE" {
      var recurrence := ParseRecurrenceRule(value, render);
      if recurrence.Failure? {
        return Failure(recurrence.error);
      }
      currentEvent := currentEvent.(recurrence := Some(recurrence.value));
    } else if property == "ATTENDEE" {
      var attendee := ParseAttendee(value);
      currentEvent := currentEvent.(attendees := currentEvent.attendees + [attendee]);
    } else if property == "ORGANIZER" {
      var organizer := ParseOrganizer(value);
      currentEvent := currentEvent.(organizer := Some(organizer));
    } else if property == "UID" {
      currentEvent := currentEvent.(uid := Some(value));
    } else if property == "STATUS" {
      currentEvent := currentEvent.(status := Some(value));
    } else {
      currentEvent := currentEvent.(otherProperties := currentEvent.otherProperties[property := value]);
    }
    return Success(currentEvent);
  }

  /** ATTENDEE lines append, in the order they appear; nothing else about the event changes. */
  lemma AttendeeAppends(ev: Event, value: string, render: DateRenderer)
    ensures ApplyProperty(ev, "ATTENDEE", value, render)
            == Success(ev.(attendees := ev.attendees + [AttendeeOf(value)]))
    ensures |ApplyProperty(ev, "ATTENDEE", value, render).value.attendees| == |ev.attendees| + 1
  {
  }

  /** An unknown name is stored in `otherProperties` under that name, and touches nothing else. */
  lemma UnknownPropertyStored(ev: Event, property: string, value: string, render: DateRenderer)
    requires !IsKnownProperty(property)
    ensures ApplyProperty(ev, property, value, render)
            == Success(ev.(otherProperties := ev.otherProperties[property := value]))
  {
  }

  /**
   * Every name except ATTENDEE overwrites: a second line with the same name
   * replaces what the first one stored, for known fields and for
   * `otherProperties` alike (last write wins).
   */
  lemma SameNameOverwrites(ev: Event, property: string, v1: string, v2: string, render: DateRenderer)
    requires property != "ATTENDEE"
    requires ApplyProperty(ev, property, v1, render).Success?
    ensures ApplyProperty(ApplyProperty(ev, property, v1, render).value, property, v2, render)
            == ApplyProperty(ev, property, v2, render)
  {
    if !IsKnownProperty(property) {
      var m := ev.otherProperties;
      assert m[property := v1][property := v2] == m[property := v2];
    }
  }
}
