# ICS calendar text for a language model — a Dafny model

The calendar helper of healthybrain (`src/ics.js`) turns the text of an ICS
(iCalendar, RFC 5545) file into a Markdown summary that a chat model can read.
`parseICSForLLM` splits the text into lines, scans them for
`BEGIN:VEVENT` … `END:VEVENT` blocks and fills one event object per block from
its property lines. DTSTART, DTEND, CREATED and LAST-MODIFIED go through
`formatICSDate`. RRULE goes through `parseRecurrenceRule`, which uses
`getOrdinal` and `formatList`. ATTENDEE goes through `parseAttendee` and
ORGANIZER through `parseOrganizer`. `formatEventsForLLM` then renders the
events.

The project models that file in Dafny:

- `wrappers.dfy` (`Wrappers`): `Option` and `Result`.
- `js_text.dfy` (`JsText`): the JavaScript string built-ins the code relies on,
  written out with their edge cases. These are `indexOf`/`lastIndexOf` (with
  −1), `substring` (with clamping), `split`/`join`, a global `replace` of a
  fixed pattern, `toLowerCase`, `parseInt` (leading white space, sign, `0x`,
  digit prefix, `NaN` as `None`) and `String(n)`.
- `ics_date.dfy` (`IcsDate`): the slicing of `formatICSDate`. Building the
  `Date` and the locale text is a parameter `render` that every caller passes
  through.
- `recurrence.dfy` (`Recurrence`): `parseRecurrenceRule`, `getOrdinal` and
  `formatList`. `formatList` is a class `ItemList` whose `Pop` shortens the
  list in place, as the source's `items.pop()` does. JavaScript `undefined`
  is `None` of `JsStr`. A template literal prints it as `"undefined"`, and
  `Array.join` prints it as `""`. A rule part that makes the source throw
  gives `Failure`.
- `persons.dfy` (`Persons`): `parseAttendee`, `parseOrganizer` and the
  case-insensitive `KEY=([^;:]+)` captures they use.
- `calendar.dfy` (`Calendar`): the event record, the split of a property line
  into name and value, the DESCRIPTION unescaping and the `switch` on the
  property name.
- `formatter.dfy` (`Formatter`): `formatEventsForLLM`, as methods that build
  the text step by step, each proved equal to a function that says what the
  text is.
- `scanner.dfy` (`Scanner`): `parseICSForLLM`. It is a method over an
  `array<string>` of lines, and a continuation line is appended to the line
  before it in place, as in the source. The method is proved equal to `Scan`,
  a fold over the lines, and the scanning rules are lemmas about `Scan`.

## Model

| member | source | states |
|---|---|---|
| Scanner.ParseICSForLLM | src/ics.js:6-102 | the method's result equals `ParseICS`. That is the rendered document of the events `Scan` collects from the CR-free lines, or the error a throwing RRULE raises |
| Scanner.ParseICS | src/ics.js:6-102 | definition of the function's result: the document of the events of `Scan`, or the escaping error. Its properties are stated by `ParseICSOfScan`, `ParseICSOfFailedScan` and the `Scan` lemmas below |
| Scanner.Scan | src/ics.js:13-98 | definition of the loop as a fold over the lines. Its properties are stated by `ScanConcat`, `EventsInBlockOrder`, `EventsOfBlocks`, `DropContinuations` and the lemmas below |
| Scanner.Step | src/ics.js:17-22 | definition of one loop pass: a continuation line after the first changes nothing. Its properties are stated by `FirstFlagIrrelevant` and `ContinuationLinesChangeNothing` |
| Scanner.LineStep | src/ics.js:24-96 | definition of the rest of the loop body. Its properties are stated by `HandleLine`, `IdleLinesIgnored`, `OpenBlock`, `CompleteBlock` and `BeginDiscardsOpenEvent` |
| Scanner.ScanLines | src/ics.js:13-98 | the loop over the line array ends in the state `Scan` computes from the original lines. When no RRULE throws, every line holds its original text, followed by the next line minus its first character when that next line is a continuation (the in-place `+=`) |
| Scanner.HandleLine | src/ics.js:24-96 | one loop pass on a line that is not a folded continuation: BEGIN opens an empty event, END pushes the open event and closes it, a line outside an event is skipped, otherwise the property line is applied |
| Scanner.HandlePropertyLine | src/ics.js:43-96 | a property line is applied to the open event exactly as `PropertyStep` says, and a line whose first `:` is missing or at index 0 changes nothing |
| Scanner.InputLines | src/ics.js:8 | the lines are never empty as a list, joined with `\n` they give back the input with every `\r` removed, and no line holds `\n` or `\r` |
| Scanner.RemoveCRKeepsTheRest | src/ics.js:8 | removing carriage returns keeps every other character in order and leaves no `\r` |
| Scanner.ParseICSOfScan | src/ics.js:98-101 | when the scan succeeds, the function returns the document of the events the scan collected |
| Scanner.ParseICSOfFailedScan | src/ics.js:76-101 | an error raised while scanning escapes `parseICSForLLM` unchanged |
| Scanner.ContinuationIsNoMarker | src/ics.js:17-31 | a line starting with a space or tab is never one of the two marker lines |
| Scanner.ScanConcat | src/ics.js:13-98 | scanning `a + b` is scanning `a` and then scanning `b` from the state reached, with the first-line flag kept only for an empty `a` |
| Scanner.FirstFlagIrrelevant | src/ics.js:17-22 | the first line's exemption from folding makes no difference when no event is open or the first line is not a continuation |
| Scanner.DropContinuations | src/ics.js:17-22 | removing every continuation line from the input does not change the scan, from any state in which the first line opens nothing |
| Scanner.ContinuationLinesChangeNothing | src/ics.js:17-22 | a continuation line anywhere in the file changes nothing: the scan of the whole input equals the scan without continuations, and inserting one continuation line between two parts gives the same result |
| Scanner.IdleLinesIgnored | src/ics.js:39-40 | with no event open, a run of lines none of which is `BEGIN:VEVENT` leaves the state unchanged, including stray `END:VEVENT` lines |
| Scanner.InsideEvent | src/ics.js:42-96 | inside an open event, lines without markers only build that event and leave the event list alone |
| Scanner.OpenBlock | src/ics.js:25-28 | `BEGIN:VEVENT` starts from an empty event whatever was open, and the following lines build it |
| Scanner.CompleteBlock | src/ics.js:31-37 | a complete block appends the event built from its own lines to the list and closes it |
| Scanner.BeginDiscardsOpenEvent | src/ics.js:25-28 | a second `BEGIN:VEVENT` while an event is open discards that event, and the scan goes on as if it had never been opened |
| Scanner.UnterminatedEventDropped | src/ics.js:98-101 | an event still open at the end of the input is not among the events returned |
| Scanner.EventsInBlockOrder | src/ics.js:31-37 | a sequence of blocks yields the events built from them in block order, after the events already collected, or the first error |
| Scanner.EventsOfBlocks | src/ics.js:13-98 | the events collected from a file of blocks are exactly the built blocks in order |
| Scanner.EventsOnlyGrow | src/ics.js:31-37 | a successful scan only ever extends the event list it started from |
| Calendar.SetProperty | src/ics.js:54-95 | the switch on the property name assigns the field named by the property (dates formatted, RRULE described, attendees appended, organizer parsed), and every other name is stored in `otherProperties` |
| Calendar.ApplyProperty | src/ics.js:54-95 | definition of the switch on the property name. Its properties are stated by `SetProperty`, `AttendeeAppends`, `UnknownPropertyStored` and `SameNameOverwrites` |
| Calendar.PropertyLine | src/ics.js:43-51 | definition of the split of a line into name and value. Its properties are stated by `PropertyLineShape`, `PropertyLineAt`, `PropertyLineOfHead`, `PropertyLineOfPlain` and `PropertyLineDropsParameters` |
| Calendar.UnescapeDescription | src/ics.js:58-59 | definition of the three global replacements. Its properties are stated by `UnescapeDescriptionBounds`, `EscapedNewlinesGone`, `UnescapeNewlineThenComma` and the examples below |
| Calendar.PropertyLineShape | src/ics.js:43-51 | a line has a name iff it holds a `:` after index 0. The value is everything after the first `:`. The name is the text before the first `:`, cut before its first `;` when that `;` is not at index 0, and uncut when it holds no `;` or starts with one |
| Calendar.PropertyLineAt | src/ics.js:43-51 | with the first colon at `k > 0`, the value is `line[k+1..]`. The name is `line[..k]` when that holds no `;` or starts with one, and otherwise the part before its first `;` |
| Calendar.PropertyLineOfHead | src/ics.js:43-51 | for a head without `:`, the name is the head or its part before the first `;` when that is not at index 0, and the value is kept whole even when it holds colons |
| Calendar.PropertyLineOfPlain | src/ics.js:43-45 | `NAME:value` splits into the name and the whole value |
| Calendar.PropertyLineDropsParameters | src/ics.js:47-51 | `NAME;params:value` loses its parameters: the name is the text before the `;` |
| Calendar.UnescapeDescriptionBounds | src/ics.js:58-59 | a description without a backslash is kept as it is, and unescaping never lengthens the text |
| Calendar.EscapedNewlinesGone | src/ics.js:59 | after the first pass no `\n` escape is left |
| Calendar.UnescapeOrderExample | src/ics.js:59 | because the passes run `\n` first and `\\` last, an escaped backslash followed by `n` becomes a backslash and a line break |
| Calendar.UnescapeCommaExample | src/ics.js:59 | `\,` becomes `,` |
| Calendar.UnescapeNewlineThenComma | src/ics.js:58-59 | in a description without other backslashes, one `\n` becomes a line break and one `\,` after it becomes a comma, and the text around them is kept |
| Calendar.DescriptionExample | src/ics.js:58-59 | `Line1\nLine2\, comma` is stored as `Line1`, a line break, and `Line2, comma` |
| Calendar.AttendeeAppends | src/ics.js:79-81 | an ATTENDEE line appends the parsed attendee after the earlier ones, so the list grows by one |
| Calendar.UnknownPropertyStored | src/ics.js:92-95 | a property the switch does not name is stored under its name in `otherProperties`, with the later value winning |
| Calendar.SameNameOverwrites | src/ics.js:54-95 | for every property except ATTENDEE, a second line with the same name gives the same event as the second line alone |
| IcsDate.FormatICSDate | src/ics.js:109-170 | definition: the renderer applied to the sliced fields. Its properties are stated by the `DateFieldsOf` lemmas below |
| IcsDate.DateFieldsOf | src/ics.js:111-155 | definition of the slicing. Its properties are stated by `DateTimeAndUtcFlags`, `DateTimePositions`, `DateOnlyReadsFirstEight`, `FieldsOfDateTime` and `FieldsOfDate` |
| IcsDate.DateTimeAndUtcFlags | src/ics.js:111-114 | the value is read as a date-time iff it contains `T`, and as UTC iff it ends with `Z` |
| IcsDate.DateTimePositions | src/ics.js:117-131 | hour and minute are the substrings 9-11 and 11-13. The seconds are 13-15 from a value of 15 or more characters, and `"00"` otherwise |
| IcsDate.DateOnlyReadsFirstEight | src/ics.js:152-155 | a date-only value is read from its first eight characters and nothing else |
| IcsDate.SubstringWithinHead8 | src/ics.js:153-155 | a slice that ends by index 8 reads only the first eight characters |
| IcsDate.FieldsOfDateTime | src/ics.js:114-131 | `YYYYMMDDTHHMMSS[Z]` gives its year, month, day, hour, minute and second fields, and the UTC flag iff the `Z` is there |
| IcsDate.FieldsOfDate | src/ics.js:152-155 | `YYYYMMDD` gives its year, month and day |
| Recurrence.ParseRecurrenceRule | src/ics.js:177-234 | the rule's text is its fragments joined by single spaces, one per `;`-separated part in order, or the error the first throwing part raises |
| Recurrence.PushFragment | src/ics.js:182-230 | one part adds its fragment to the list, adds nothing for an unknown key or `INTERVAL=1`, or fails |
| Recurrence.KeyFragment | src/ics.js:184-230 | definition of the switch on the key. Its properties are stated by `PartWithoutValue`, `FreqFragment`, `IntervalFragment`, `CountFragment`, `UntilFragment`, `SkippedParts`, `ByDayPart`, `RecurrenceRules.MonthDayPart` and `RecurrenceRules.MonthPart` |
| Recurrence.KeyValueShape | src/ics.js:182 | the key is the text before the first `=`. The value is undefined iff the part has no `=`, and otherwise it is the text between the first and the second `=` |
| Recurrence.KeyValueOfPair | src/ics.js:182 | `key=value` without further `=` splits into the key and the value |
| Recurrence.PartWithoutValue | src/ics.js:182-198 | a part without `=`: FREQ, UNTIL, BYDAY, BYMONTHDAY and BYMONTH fail, while COUNT and INTERVAL print `undefined` |
| Recurrence.FreqFragment | src/ics.js:185-187 | `FREQ=x` gives `Repeats` and the lower-cased `x` |
| Recurrence.IntervalFragment | src/ics.js:188-192 | `INTERVAL=1` adds nothing, and any other value gives `every` and the value |
| Recurrence.CountFragment | src/ics.js:193-195 | `COUNT=n` gives `for n occurrences` |
| Recurrence.UntilFragment | src/ics.js:196-198 | `UNTIL=d` gives `until` and the formatted date |
| Recurrence.SkippedParts | src/ics.js:184-230 | an unknown key and `INTERVAL=1` add no fragment |
| Recurrence.IgnoredPartChangesNothing | src/ics.js:181-233 | appending a part that adds no fragment leaves the rule's text unchanged |
| Recurrence.CollectStep | src/ics.js:181-231 | processing the parts from index `i` is processing part `i` and then the rest |
| Recurrence.CollectFrom | src/ics.js:181-231 | the fragments collected after earlier ones are the earlier ones followed by the fragments of the remaining parts |
| Recurrence.CollectConcat | src/ics.js:181-231 | the fragments of `xs + ys` are those of `xs` followed by those of `ys` |
| Recurrence.FragmentsConcat | src/ics.js:178-231 | the fragments of `a;b` are the fragments of `a` followed by those of `b` |
| Recurrence.RecurrenceTextConcat | src/ics.js:233 | the text of `a;b` is the text of `a`, a space, and the text of `b`, when both give fragments |
| Recurrence.FragmentsOfOnePart | src/ics.js:178-231 | a rule without `;` gives the fragment of its one part or nothing |
| Recurrence.OnePartRule | src/ics.js:178-231 | a single part with a fragment gives a one-fragment list |
| Recurrence.TwoPartRule | src/ics.js:233 | two parts with one fragment each are joined by a space |
| Recurrence.FreqRule | src/ics.js:185-187 | the fragments of the rule `FREQ=x` are the one fragment `Repeats x` in lower case |
| Recurrence.DayItem | src/ics.js:205-213 | definition of the `days.map` callback. Its properties are stated by `DayItemWithNumber`, `DayItemWithNegativeNumber`, `DayItemOfNumbered` and `DayItemOfCode` |
| Recurrence.DayItemWithNumber | src/ics.js:205-211 | a BYDAY item `nXX` becomes `the`, the ordinal of `n` and the day name (or `undefined`) |
| Recurrence.DayItemWithNegativeNumber | src/ics.js:205-211 | a BYDAY item `-nXX` becomes `the`, the ordinal of `-n` and the day name |
| Recurrence.DayItemOfNumbered | src/ics.js:205-211 | an item whose leading number parses to `n` and that ends in two capitals `XX` becomes `the`, `Ordinal(n)` and the day name |
| Recurrence.DayItemOfCode | src/ics.js:207-212 | a plain weekday code becomes its day name |
| Recurrence.LeadingNumberOfItem | src/ics.js:206 | `^(-?\d+)` captures the sign and all the leading digits |
| Recurrence.NegativeItemParts | src/ics.js:206-207 | the item `-digitsXX` has the number `-digits` and the day code `XX` |
| Recurrence.DigitPrefixOfConcat | src/ics.js:206 | the digit run stops at the first non-digit |
| Recurrence.DayItemsOfCodes | src/ics.js:205-213 | a list of weekday codes maps to their day names, item by item |
| Recurrence.ByDayPart | src/ics.js:199-215 | `BYDAY=v` gives the BYDAY fragment of `v` |
| Recurrence.ByDayOfCodes | src/ics.js:199-215 | `BYDAY=c1,…,cn` of weekday codes gives `on` and the list phrase of their names |
| Recurrence.ByDayRule | src/ics.js:199-215 | the rule `BYDAY=c1,…,cn` has exactly that one fragment |
| Recurrence.FrequencyWithDays | src/ics.js:177-234 | `FREQ=x;BYDAY=codes` reads `Repeats x on` and the list phrase of the day names |
| Recurrence.WeeklyExampleDays | src/ics.js:199-215 | `MO,WE,FR` gives Monday, Wednesday and Friday, listed as `Monday, Wednesday, and Friday` |
| Recurrence.MonthDayFragment | src/ics.js:216-220 | definition of the BYMONTHDAY fragment. Its properties are stated by `RecurrenceRules.MonthDayRule` and `RecurrenceRules.MonthDayNumbersRule` |
| Recurrence.MonthFragment | src/ics.js:221-229 | definition of the BYMONTH fragment. Its properties are stated by `RecurrenceRules.MonthRule`, `RecurrenceRules.MonthNumbersRule` and the `MonthName` lemmas |
| RecurrenceRules.MonthNameInRange | src/ics.js:227 | a month number 1-12 written in decimal gives that month's name |
| RecurrenceRules.MonthNameOutOfRange | src/ics.js:227 | 0 and numbers above 12 give `undefined` |
| RecurrenceRules.MonthNameOfNegative | src/ics.js:227 | a negative number gives `undefined` |
| RecurrenceRules.MonthNameOfNaN | src/ics.js:227 | an item `parseInt` cannot read gives `undefined` |
| RecurrenceRules.MonthNameOfNumber | src/ics.js:227 | an item that parses to `k` gives month `k` for `1 <= k <= 12` and `undefined` otherwise |
| RecurrenceRules.MonthDaysOfNumbers | src/ics.js:217-218 | BYMONTHDAY items written as decimal numbers map to their ordinals, item by item |
| RecurrenceRules.MonthListOfNumbers | src/ics.js:222-227 | BYMONTH items 1-12 map to their month names, item by item |
| RecurrenceRules.MonthDayPart | src/ics.js:216-220 | `BYMONTHDAY=v` gives the BYMONTHDAY fragment of `v` |
| RecurrenceRules.MonthPart | src/ics.js:221-229 | `BYMONTH=v` gives the BYMONTH fragment of `v` |
| RecurrenceRules.MonthDayText | src/ics.js:216-220 | the whole rule `BYMONTHDAY=v` reads as its one fragment |
| RecurrenceRules.MonthText | src/ics.js:221-229 | the whole rule `BYMONTH=v` reads as its one fragment |
| RecurrenceRules.MonthDayRule | src/ics.js:216-220 | `BYMONTHDAY=d1,…,dn` reads `on the`, the list phrase of the ordinals of the items, and `of the month` |
| RecurrenceRules.MonthRule | src/ics.js:221-229 | `BYMONTH=m1,…,mn` reads `in` and the list phrase of the month names of the items |
| RecurrenceRules.MonthDayNumbersRule | src/ics.js:216-220 | `BYMONTHDAY` of decimal numbers reads `on the` and the list phrase of their ordinals, `of the month` |
| RecurrenceRules.MonthNumbersRule | src/ics.js:221-229 | `BYMONTH` of numbers 1-12 reads `in` and the list phrase of their month names |
| RecurrenceRules.KeyPart | src/ics.js:182 | a part `key=v` with no other `=` gives the fragment of the key for the value `v` |
| RecurrenceRules.KeyPartRule | src/ics.js:178-233 | a one-part rule whose part gives a fragment reads as that fragment |
| RecurrenceRules.WeeklyExample | src/ics.js:177-234 | `FREQ=WEEKLY;BYDAY=MO,WE,FR` reads `Repeats weekly on Monday, Wednesday, and Friday` |
| Recurrence.Ordinal | src/ics.js:239-243 | definition of `getOrdinal`. Its properties are stated by `OrdinalIsEnglish` and `OrdinalExamples` |
| Recurrence.OrdinalIsEnglish | src/ics.js:239-243 | `getOrdinal(n)` is `n` followed by the English suffix: `th` for 11-13 modulo 100, otherwise `st`, `nd`, `rd` for a last digit 1, 2, 3, and `th` for the rest and for every negative number |
| Recurrence.SuffixOfNonNegative | src/ics.js:240-242 | for `n >= 0` the table lookup with its two fallbacks gives the English suffix |
| Recurrence.SuffixOfNegative | src/ics.js:240-242 | for `n < 0` both lookups miss and the suffix is `th` |
| Recurrence.SuffixOfRemainder | src/ics.js:241-242 | for `v = n % 100` in 0-99, the lookup at `(v - 20) % 10`, falling back to `s[v]` and then to `th`, is the English suffix of `v` |
| Recurrence.SuffixFromTwenty | src/ics.js:242 | from 20 to 99 the first lookup decides by the last digit |
| Recurrence.SuffixBelowTwenty | src/ics.js:242 | below 20 the first lookup misses and `s[v]` or `th` decides |
| Recurrence.LastDigitOfRemainder | src/ics.js:241 | the last digit of `n % 100` is the last digit of `n` |
| Recurrence.JsRem | src/ics.js:241-242 | JavaScript `%` keeps the sign of the dividend: a non-negative dividend gives the mathematical remainder, and a negative one gives a value in `(-b, 0]` |
| Recurrence.OrdinalExamples | src/ics.js:239-243 | 1st, 2nd, 3rd, 11th, 21st, 112th, and `-1th` for −1 |
| Recurrence.FormatList | src/ics.js:248-254 | returns the list phrase of the items it was given. It pops the last item off its argument iff there are more than two, and leaves the list alone otherwise |
| Recurrence.ItemList.Pop | src/ics.js:252 | removes and returns the last item, or returns `undefined` for an empty list |
| Recurrence.ListPhrase | src/ics.js:248-254 | definition of the phrase `formatList` returns. Its properties are stated by `FormatList`, `ListPhraseOfStrings`, `ListPhraseExample` and `ListOfThree` |
| Recurrence.ListPhraseOfStrings | src/ics.js:249-253 | one item is itself, two are `a and b`, and more are joined with `, ` with `, and ` before the last |
| Recurrence.ListPhraseExample | src/ics.js:248-254 | `A, B, and C` |
| Recurrence.ListOfThree | src/ics.js:252-253 | three items are `a, b, and c` |
| Persons.ParseAttendee | src/ics.js:259-304 | the attendee's name, email, status and role are the captures `AttendeeOf` defines: status and role translated through their tables, and the email from `mailto:` or after the last `:` |
| Persons.AttendeeOf | src/ics.js:259-304 | definition of the object `parseAttendee` returns. Its properties are stated by `AttendeeOfLayout`, `JaneDoeAttendee`, `CaptureIsLeftmostRun`, `EmailWithoutMailto` and `LabelsTranslateOnlyTableValues` |
| Persons.AttendeeOfLayout | src/ics.js:259-304 | `CN=name;mailto:email;PARTSTAT=s;ROLE=r`, with parts free of `;`, `:` and of letters that could start a later key early, gives that name and email and the translated status and role |
| Persons.JaneDoeAttendee | src/ics.js:259-304 | `CN=Jane Doe;mailto:jane@example.com;PARTSTAT=ACCEPTED;ROLE=CHAIR` gives Jane Doe, jane@example.com, Accepted and Chair |
| Persons.ParseOrganizer | src/ics.js:309-328 | the organizer's name and email are captured as for an attendee |
| Persons.OrganizerIsAttendeeWithoutStatus | src/ics.js:309-328 | an organizer is the attendee parse of the same value without status and role |
| Persons.FindKeyIsLeftmost | src/ics.js:264 | the key search finds the leftmost case-insensitive occurrence, or reports that there is none |
| Persons.Capture | src/ics.js:264-266 | definition of `value.match(/KEY=([^;:]+)/i)`. Its properties are stated by `CaptureIsLeftmostRun`, `CaptureAfterPrefix` and `CaptureAt` |
| Persons.CaptureIsLeftmostRun | src/ics.js:264 | a capture exists iff the key occurs somewhere, case-insensitively, followed by at least one character other than `;` and `:`. It is the longest run of such characters after the leftmost such occurrence |
| Persons.CaptureAfterPrefix | src/ics.js:264-266 | `pre + KEY + c + post` with no earlier key and `post` starting at a stop character captures `c` |
| Persons.CaptureAt | src/ics.js:264-266 | the capture is the run after the first occurrence of the key |
| Persons.KeyAfterPrefix | src/ics.js:264 | the key with a non-stop character after it is found where it was placed |
| Persons.FindFirstKey | src/ics.js:264 | a search from the start finds the first occurrence |
| Persons.SegmentsOf | src/ics.js:264-266 | the key and the captured run sit at their expected positions in `pre + key + c + post` |
| Persons.RunOfSegment | src/ics.js:264 | `[^;:]+` stops exactly at the next `;` or `:` |
| Persons.LabelsTranslateOnlyTableValues | src/ics.js:281-300 | a status or role changes iff it is one of the table's keys, in exact case |
| Persons.EmailWithoutMailto | src/ics.js:273-276 | without `mailto:`, the email is a colon-free suffix of the value that starts right after a `:` or at the start |
| Persons.EmailOfPlainValue | src/ics.js:273-276 | a value without `:` is its own email |
| Persons.EmailOfMailto | src/ics.js:270-272 | `mailto:address` gives the address |
| Formatter.FormatEventsForLLM | src/ics.js:333-409 | returns `EventsDocument`: the fixed message for no events, otherwise the header and each event's section in order |
| Formatter.EventsDocument | src/ics.js:333-409 | definition of the rendered document. Its properties are stated by `DocumentIsJoinedSections`, `HeaderCountsEvents`, `SectionHeading`, `WhenNeedsStart`, `EmptyFieldsOmitted` and `HiddenFieldsIgnored` |
| Formatter.AppendEvents | src/ics.js:341-406 | the `forEach` loop appends each event's section, numbered from 1, with a separator after every section but the last |
| Formatter.FormatEvent | src/ics.js:342-400 | an event's section is its heading and the When, Where, Description, Recurrence, Status, Organizer, Attendees and UID parts in that order |
| Formatter.FormatWhen | src/ics.js:344-350 | the When line shows the start, and `to` the end when there is one |
| Formatter.FormatField | src/ics.js:352-362 | a Where, Recurrence or UID line appears only for a present, non-empty value |
| Formatter.FormatDescription | src/ics.js:356-358 | the description sits on its own line after its tag |
| Formatter.FormatStatus | src/ics.js:364-371 | CONFIRMED, TENTATIVE and CANCELLED are translated, and other values shown as they are |
| Formatter.FormatOrganizer | src/ics.js:373-375 | the organizer line shows the name or nothing and the email in angle brackets |
| Formatter.FormatAttendees | src/ics.js:377-396 | the Attendees block appears only with at least one attendee, one bullet line each, followed by a blank line |
| Formatter.FormatAttendeeList | src/ics.js:378-394 | the block heading followed by one bullet line per attendee, in order |
| Formatter.DescribeAttendee | src/ics.js:380-392 | name, then the email (in angle brackets after a name), then ` (role)` and ` - status`, each only when present |
| Formatter.HeaderCountsEvents | src/ics.js:338-339 | the header counts the events in decimal, and says `event` for one and `events` for more |
| Formatter.RenderedIsJoined | src/ics.js:341-406 | the appended sections are the header followed by the sections joined by separators, plus a trailing one only before further sections |
| Formatter.DocumentIsJoinedSections | src/ics.js:338-406 | a non-empty document is the header and the sections joined by `---` separators, so there are N−1 of them |
| Formatter.SectionHeading | src/ics.js:342 | every section starts with `## Event k:` and the title, or `Untitled Event` without one |
| Formatter.WhenNeedsStart | src/ics.js:344-350 | the When line is absent iff there is no start, starts with the start date when present, and an end date alone is never shown |
| Formatter.EmptyFieldsOmitted | src/ics.js:342-399 | an empty string in any text field renders like a missing field |
| Formatter.HiddenFieldsIgnored | src/ics.js:333-409 | CREATED, LAST-MODIFIED and `otherProperties` never reach the output: events that agree on the shown fields render identically |
| JsText.Split | src/ics.js:8 | `split` gives at least one piece, no piece holds the separator, and the pieces joined by it give back the text |
| JsText.SplitJoin | src/ics.js:178 | splitting joined separator-free pieces gives the pieces back |
| JsText.ParseIntOfIntToString | src/ics.js:209 | `parseInt` reads back any number written in decimal |
| JsText.ReplaceAllRemovesPattern | src/ics.js:59 | replacing a two-character escape by a character other than its own two leaves no occurrence of the escape |
| JsText.ReplaceAllPlainPrefix | src/ics.js:59 | a global replace passes over a prefix that cannot start the pattern unchanged |
| JsText.ReplaceAllOnce | src/ics.js:59 | one occurrence of the pattern, after a prefix that cannot start it and before text without it, is replaced once |
| JsText.Substring | src/ics.js:118-123 | `substring` clamps its bounds to the string and is the plain slice for in-range bounds |

## Left out

- The locale rendering of dates (`Date.UTC` and `toLocaleString('en-US', …)`, src/ics.js:133-149 and 157-168) depends on the host's locale and time zone. It is the parameter `render`, which receives the sliced fields and the UTC flag. `IcsDate.DateFields` keeps the sliced texts, and the `parseInt` of them belongs to the renderer.
- src/App.jsx (the React page, the `fetch` to the local chat server and its streaming reader) is not part of this model: it is UI and network I/O.
- `convertICSToReadableText` (src/ics.js:414-420) only wraps the exported function and prints the engine's exception message. The model stops at the `Failure` that `parseICSForLLM` lets escape.
- Strings are sequences of Unicode scalar values, not of UTF-16 code units. Positions and lengths agree with JavaScript's only on text without characters outside the Basic Multilingual Plane: the fixed slices of `IcsDate.DateFieldsOf`, its length test `|icsDate| >= 15`, and the positions of `indexOf`, `substring` and the captures differ on text with such characters, and lone surrogates cannot be represented.
- `toLowerCase` is modelled on ASCII letters only, and other characters are kept. Unicode case mapping is not modelled.
- `parseInt` is modelled with unbounded integers. The loss of precision above 2^53 is not modelled.
- The case-insensitive match of `CN=`, `mailto:`, `PARTSTAT=` and `ROLE=` folds ASCII letters only.
- Property names that collide with `Object.prototype` members (such as `constructor`) are plain keys of a `map` in `otherProperties`, and so are table lookups such as `statusMap[x]`. JavaScript's inherited properties are not modelled.
- An event's `attendees` and `otherProperties` start empty rather than `undefined`. The rendered text is the same, because the formatter tests `attendees.length > 0` and never reads `otherProperties`.
- Recurrence.DayItemWithNegativeNumber: stated for `n >= 1` only. The item `-0XX` is covered by `DayItemOfNumbered` and gives the ordinal of 0.
- Calendar.SameNameOverwrites: ATTENDEE is excluded, because it appends instead of overwriting (`Calendar.AttendeeAppends`). No lemma states that lines with two different names commute.
- Only lines joined with `\n` and a single leading space or tab of continuation are modelled, because the source handles nothing else. The `+=` on the previous line is performed in `Scanner.ScanLines`. That line has already been handled when its continuation arrives, so the scan ignores the appended text, as the source does.
