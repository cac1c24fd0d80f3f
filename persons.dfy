/**
 * `parseAttendee` and `parseOrganizer` (src/ics.js:259-328): the value of an
 * ATTENDEE or ORGANIZER line (RFC 5545 sections 3.8.4.1 and 3.8.4.3) is
 * searched for `CN=`, `mailto:`, `PARTSTAT=` and `ROLE=` (the parameters of
 * RFC 5545 sections 3.2.2, 3.2.12 and 3.2.16), each followed by a capture.
 */
module Persons {
  import opened Wrappers
  import opened JsText

  /** An attendee or organizer object; absent fields are properties never assigned. */
  datatype Person = Person(name: Option<string>, email: string, status: Option<string>, role: Option<string>)

  // ---------------------------------------------------------------- the pattern `KEY([^;:]+)` with flag i

  /** The characters that end a capture: `;` and `:`. */
  predicate IsStop(c: char) {
    c == ';' || c == ':'
  }

  /**
   * Whether `c` matches `k` under the `i` flag. A regular expression without
   * the `u` flag folds case by upper-casing, and never maps a non-ASCII
   * character onto an ASCII one, so for the ASCII keys here this is ASCII
   * case folding.
   */
  predicate SameLetter(c: char, k: char) {
    LowerChar(c) == LowerChar(k)
  }

  /** Whether the pattern `key([^;:]+)` matches at position `p` of `s`: the key, case-insensitively, then a non-stop character. */
  predicate KeyAt(s: string, key: string, p: nat) {
    p + |key| < |s|
    && (forall j :: 0 <= j < |key| ==> SameLetter(s[p + j], key[j]))
    && !IsStop(s[p + |key|])
  }

  /** The greedy `[^;:]+` run: the longest stretch of non-stop characters starting at `i`. */
  function Run(s: string, i: nat): (r: string)
    requires i <= |s|
    ensures |r| <= |s| - i && r == s[i..i + |r|]
    ensures forall j :: 0 <= j < |r| ==> !IsStop(r[j])
    ensures i + |r| == |s| || IsStop(s[i + |r|])
    decreases |s| - i
  {
    if i == |s| || IsStop(s[i]) then ""
    else [s[i]] + Run(s, i + 1)
  }

  /** The leftmost match position at or after `p`: a regular expression search tries positions from left to right. */
  function FindKey(s: string, key: string, p: nat): (r: Option<nat>)
    ensures r.Some? ==> p <= r.value && KeyAt(s, key, r.value)
    decreases |s| - p
  {
    if p + |key| >= |s| then None
    else if KeyAt(s, key, p) then Some(p)
    else FindKey(s, key, p + 1)
  }

  /** `s.match(/key([^;:]+)/i)[1]`, or `None` when the match is `null`. */
  function Capture(s: string, key: string): Option<string> {
    match FindKey(s, key, 0)
    case None => None
    case Some(p) => Some(Run(s, p + |key|))
  }

  /** The search finds the leftmost match, and misses only when there is none. */
  lemma {:induction false} FindKeyIsLeftmost(s: string, key: string, p: nat)
    ensures FindKey(s, key, p).None? <==> forall q: nat :: p <= q ==> !KeyAt(s, key, q)
    ensures FindKey(s, key, p).Some? ==> forall q: nat :: p <= q < FindKey(s, key, p).value ==> !KeyAt(s, key, q)
    decreases |s| - p
  {
    if p + |key| >= |s| {
      assert forall q: nat :: p <= q ==> !KeyAt(s, key, q);
    } else if !KeyAt(s, key, p) {
      FindKeyIsLeftmost(s, key, p + 1);
    }
  }

  /**
   * `Capture` is the regular expression's group: absent exactly when the key
   * (case-insensitively) followed by a non-stop character occurs nowhere;
   * otherwise the non-empty, maximal run of non-stop characters right after
   * the leftmost such key.
   */
  lemma CaptureIsLeftmostRun(s: string, key: string)
    ensures Capture(s, key).None? <==> forall q: nat :: !KeyAt(s, key, q)
    ensures Capture(s, key).Some? ==>
              var p := FindKey(s, key, 0).value;
              var c := Capture(s, key).value;
              KeyAt(s, key, p) && (forall q: nat :: q < p ==> !KeyAt(s, key, q))
              && |c| >= 1 && c == s[p + |key|..p + |key| + |c|]
              && (forall j :: 0 <= j < |c| ==> !IsStop(c[j]))
              && (p + |key| + |c| == |s| || IsStop(s[p + |key| + |c|]))
  {
    FindKeyIsLeftmost(s, key, 0);
  }

  /** A key whose occurrence is followed by a run and then the end or a stop character captures that run. */
  lemma CaptureAfterPrefix(pre: string, key: string, c: string, post: string)
    requires |c| >= 1 && forall j :: 0 <= j < |c| ==> !IsStop(c[j])
    requires |post| == 0 || IsStop(post[0])
    requires forall q: nat :: q < |pre| ==> !KeyAt(pre + key + c + post, key, q)
    ensures Capture(pre + key + c + post, key) == Some(c)
  {
    var s := pre + key + c + post;
    SegmentsOf(pre, key, c, post);
    KeyAfterPrefix(pre, key, c, post);
    CaptureAt(s, key, |pre|, c);
  }

  /** The first match at `p`, followed by the run `c` and then the end or a stop character, captures `c`. */
  lemma CaptureAt(s: string, key: string, p: nat, c: string)
    requires KeyAt(s, key, p) && forall q: nat :: q < p ==> !KeyAt(s, key, q)
    requires p + |key| + |c| <= |s| && s[p + |key|..p + |key| + |c|] == c
    requires forall j :: 0 <= j < |c| ==> !IsStop(c[j])
    requires p + |key| + |c| == |s| || IsStop(s[p + |key| + |c|])
    ensures Capture(s, key) == Some(c)
  {
    FindFirstKey(s, key, p);
    RunOfSegment(s, p + |key|, c);
  }

  /** The key written out after `pre` matches there, since a run follows it. */
  lemma KeyAfterPrefix(pre: string, key: string, c: string, post: string)
    requires |c| >= 1 && !IsStop(c[0])
    requires |post| == 0 || IsStop(post[0])
    ensures KeyAt(pre + key + c + post, key, |pre|)
  {
    var s := pre + key + c + post;
    SegmentsOf(pre, key, c, post);
    forall j | 0 <= j < |key|
      ensures SameLetter(s[|pre| + j], key[j])
    {
      assert s[|pre| + j] == s[|pre|..|pre| + |key|][j];
    }
  }

  /** A match at `p` with none before it is the one the search finds. */
  lemma FindFirstKey(s: string, key: string, p: nat)
    requires KeyAt(s, key, p)
    requires forall q: nat :: q < p ==> !KeyAt(s, key, q)
    ensures FindKey(s, key, 0) == Some(p)
  {
    FindKeyIsLeftmost(s, key, 0);
  }

  /** Where the pieces of `pre + key + c + post` sit. */
  lemma SegmentsOf(pre: string, key: string, c: string, post: string)
    requires |c| >= 1
    requires |post| == 0 || IsStop(post[0])
    ensures var s := pre + key + c + post;
            var i := |pre| + |key|;
            s[|pre|..i] == key && i + |c| <= |s| && s[i..i + |c|] == c && s[i] == c[0]
            && (i + |c| == |s| || IsStop(s[i + |c|]))
  {
    var s := pre + key + c + post;
    var i := |pre| + |key|;
    assert s == (pre + key) + c + post;
    if |post| > 0 {
      assert s[i + |c|] == post[0];
    }
  }

  /** The run at `i` is `c` when `c` sits at `i` free of stop characters and is followed by the end or a stop character. */
  lemma {:induction false} RunOfSegment(s: string, i: nat, c: string)
    requires i + |c| <= |s| && s[i..i + |c|] == c
    requires forall j :: 0 <= j < |c| ==> !IsStop(c[j])
    requires i + |c| == |s| || IsStop(s[i + |c|])
    ensures Run(s, i) == c
    decreases |c|
  {
    if |c| > 0 {
      assert s[i] == c[0];
      assert s[i + 1..i + 1 + |c[1..]|] == c[1..];
      RunOfSegment(s, i + 1, c[1..]);
      assert [c[0]] + c[1..] == c;
    }
  }

  // ---------------------------------------------------------------- lookups

  /** `statusMap[x] || x`: a known PARTSTAT value (exact case) gets its label, anything else passes through. */
  function StatusLabel(raw: string): string {
    if raw == "ACCEPTED" then "Accepted"
    else if raw == "DECLINED" then "Declined"
    else if raw == "TENTATIVE" then "Tentative"
    else if raw == "NEEDS-ACTION" then "Needs Action"
    else if raw == "DELEGATED" then "Delegated"
    else raw
  }

  /** `roleMap[x] || x`: a known ROLE value (exact case) gets its label, anything else passes through. */
  function RoleLabel(raw: string): string {
    if raw == "REQ-PARTICIPANT" then "Required"
    else if raw == "OPT-PARTICIPANT" then "Optional"
    else if raw == "NON-PARTICIPANT" then "Non-Participant"
    else if raw == "CHAIR" then "Chair"
    else raw
  }

  /** The labels never leave a table value untranslated, and keep any other value as it was. */
  lemma LabelsTranslateOnlyTableValues(raw: string)
    ensures StatusLabel(raw) != raw <==>
              raw in ["ACCEPTED", "DECLINED", "TENTATIVE", "NEEDS-ACTION", "DELEGATED"]
    ensures RoleLabel(raw) != raw <==>
              raw in ["REQ-PARTICIPANT", "OPT-PARTICIPANT", "NON-PARTICIPANT", "CHAIR"]
  {
  }

  // ---------------------------------------------------------------- the parsers

  /** The text after the last `:` (all of `value` when it has none). */
  function AfterLastColon(value: string): string {
    Substring(value, LastIndexOf(value, ':') + 1, |value|)
  }

  /** The email: the `mailto:` capture, or else the text after the last `:`. */
  function EmailOf(value: string): string {
    match Capture(value, "mailto:")
    case Some(e) => e
    case None => AfterLastColon(value)
  }

  /** The object `parseAttendee(value)` returns. */
  function AttendeeOf(value: string): Person {
    Person(Capture(value, "CN="), EmailOf(value),
           match Capture(value, "PARTSTAT=") case Some(x) => Some(StatusLabel(x)) case None => None,
           match Capture(value, "ROLE=") case Some(x) => Some(RoleLabel(x)) case None => None)
  }

  /** The object `parseOrganizer(value)` returns. */
  function OrganizerOf(value: string): Person {
    Person(Capture(value, "CN="), EmailOf(value), None, None)
  }

  /** `parseAttendee(value)`: starts from `{ email: '' }` and assigns each field found, in the source's order. */
  method ParseAttendee(value: string) returns (attendee: Person)
    ensures attendee == AttendeeOf(value)
  {
    attendee := Person(None, "", None, None);
    var cnMatch := Capture(value, "CN=");
    if cnMatch.Some? {
      attendee := attendee.(name := cnMatch);
    }
    var mailtoMatch := Capture(value, "mailto:");
    if mailtoMatch.Some? {
      attendee := attendee.(email := mailtoMatch.value);
    } else {
      attendee := attendee.(email := Substring(value, LastIndexOf(value, ':') + 1, |value|));
    }
    var partstatMatch := Capture(value, "PARTSTAT=");
    if partstatMatch.Some? {
      attendee := attendee.(status := Some(StatusLabel(partstatMatch.value)));
    }
    var roleMatch := Capture(value, "ROLE=");
    if roleMatch.Some? {
      attendee := attendee.(role := Some(RoleLabel(roleMatch.value)));
    }
  }

  /** `parseOrganizer(value)`: the name and email steps of `parseAttendee` and nothing else. */
  method ParseOrganizer(value: string) returns (organizer: Person)
    ensures organizer == OrganizerOf(value)
  {
    organizer := Person(None, "", None, None);
    var cnMatch := Capture(value, "CN=");
    if cnMatch.Some? {
      organizer := organizer.(name := cnMatch);
    }
    var mailtoMatch := Capture(value, "mailto:");
    if mailtoMatch.Some? {
      organizer := organizer.(email := mailtoMatch.value);
    } else {
      organizer := organizer.(email := Substring(value, LastIndexOf(value, ':') + 1, |value|));
    }
  }

  /** An organizer is the attendee parse of the same value without status and role. */
  lemma OrganizerIsAttendeeWithoutStatus(value: string)
    ensures OrganizerOf(value) == AttendeeOf(value).(status := None, role := None)
    ensures OrganizerOf(value).status.None? && OrganizerOf(value).role.None?
  {
  }

  /**
   * Without a `mailto:` capture the email is the tail of the value after its
   * last `:`: it holds no `:`, and the value is some prefix that is empty or
   * ends in `:`, followed by the email.
   */
  lemma EmailWithoutMailto(value: string)
    requires Capture(value, "mailto:").None?
    ensures var e := EmailOf(value);
            ':' !in e && EndsWith(value, e)
            && (|e| == |value| || value[|value| - |e| - 1] == ':')
  {
    var k := LastIndexOf(value, ':');
    var e := EmailOf(value);
    assert e == value[k + 1..];
  }

  /** A value with no `:` at all is taken whole as the email. */
  lemma EmailOfPlainValue(value: string)
    requires ':' !in value
    ensures EmailOf(value) == value
  {
    forall q: nat
      ensures !KeyAt(value, "mailto:", q)
    {
      if q + 7 < |value| {
        assert !SameLetter(value[q + 6], "mailto:"[6]);
      }
    }
    CaptureIsLeftmostRun(value, "mailto:");
  }

  /** The usual value `mailto:` + address (address free of `;` and `:`) gives that address as the email. */
  lemma EmailOfMailto(address: string)
    requires |address| >= 1 && forall j :: 0 <= j < |address| ==> !IsStop(address[j])
    ensures EmailOf("mailto:" + address) == address
  {
    assert "mailto:" + address == [] + "mailto:" + address + [];
    CaptureAfterPrefix([], "mailto:", address, []);
  }

  // ---------------------------------------------------------------- the documented attendee

  /** A run free of `;` and `:` has no stop character. */
  lemma NoStops(c: string)
    requires ';' !in c && ':' !in c
    ensures forall j :: 0 <= j < |c| ==> !IsStop(c[j])
  {
  }

  /** When neither `x` nor `y`, the only characters that fold to `x`, occurs in `b`, nothing in `b` matches `x`. */
  lemma CaseAbsent(b: string, x: char, y: char)
    requires x !in b && y !in b
    requires forall c: char :: LowerChar(c) == LowerChar(x) ==> c == x || c == y
    ensures forall c :: c in b ==> !SameLetter(c, x)
  {
  }

  /** No match of `key` starts where its character at offset `m` would fall inside `b`, if nothing in `b` matches that character. */
  lemma NoKeyInWindow(a: string, b: string, rest: string, key: string, m: nat)
    requires m < |key|
    requires forall c :: c in b ==> !SameLetter(c, key[m])
    ensures forall q: nat :: |a| <= q + m < |a| + |b| ==> !KeyAt(a + b + rest, key, q)
  {
    var s := a + b + rest;
    forall q: nat | |a| <= q + m < |a| + |b|
      ensures !KeyAt(s, key, q)
    {
      if q + |key| < |s| {
        assert s[q + m] == b[q + m - |a|];
        assert b[q + m - |a|] in b;
      }
    }
  }

  /**
   * A capture whose key cannot start earlier: every position the key's
   * character at offset `m` would occupy for an earlier match lies in a stretch
   * `b` that holds nothing matching that character.
   */
  lemma CaptureOfWindow(pre: string, key: string, c: string, post: string, a: string, b: string, rest: string, m: nat)
    requires a + b + rest == pre + key + c + post
    requires |a| <= m && |pre| + m <= |a| + |b| && m < |key|
    requires forall ch :: ch in b ==> !SameLetter(ch, key[m])
    requires |c| >= 1 && ';' !in c && ':' !in c
    requires |post| == 0 || IsStop(post[0])
    ensures Capture(pre + key + c + post, key) == Some(c)
  {
    NoKeyInWindow(a, b, rest, key, m);
    NoStops(c);
    CaptureAfterPrefix(pre, key, c, post);
  }

  /** The documented attendee layout, `CN=<name>;mailto:<email>;PARTSTAT=<status>;ROLE=<role>`. */
  function AttendeeLayout(name: string, email: string, stat: string, role: string): string {
    "CN=" + name + ";" + "mailto:" + email + ";" + "PARTSTAT=" + stat + ";" + "ROLE=" + role
  }

  /** The common name of the layout: `CN=` opens the value. */
  lemma LayoutName(name: string, email: string, stat: string, role: string)
    requires |name| >= 1 && ';' !in name && ':' !in name
    ensures Capture(AttendeeLayout(name, email, stat, role), "CN=") == Some(name)
  {
    var post := ";" + "mailto:" + email + ";" + "PARTSTAT=" + stat + ";" + "ROLE=" + role;
    assert AttendeeLayout(name, email, stat, role) == "" + "CN=" + name + post;
    NoStops(name);
    CaptureAfterPrefix("", "CN=", name, post);
  }

  /** The email of the layout: no `m` before `mailto:` can start an earlier match. */
  lemma LayoutEmail(name: string, email: string, stat: string, role: string)
    requires |email| >= 1 && ';' !in email && ':' !in email
    requires 'm' !in name && 'M' !in name
    ensures Capture(AttendeeLayout(name, email, stat, role), "mailto:") == Some(email)
  {
    var n := "CN=" + name + ";";
    var post := ";" + "PARTSTAT=" + stat + ";" + "ROLE=" + role;
    assert AttendeeLayout(name, email, stat, role) == n + "mailto:" + email + post;
    assert "" + n + ("mailto:" + email + post) == n + "mailto:" + email + post;
    CaseAbsent(n, 'm', 'M');
    CaptureOfWindow(n, "mailto:", email, post, "", n, "mailto:" + email + post, 0);
  }

  /** The status of the layout: no `S` before `PARTSTAT=` (nor in its own `PART`) can start an earlier match. */
  lemma LayoutStatus(name: string, email: string, stat: string, role: string)
    requires |stat| >= 1 && ';' !in stat && ':' !in stat
    requires 's' !in name + email && 'S' !in name + email
    ensures Capture(AttendeeLayout(name, email, stat, role), "PARTSTAT=") == Some(stat)
  {
    var e := "CN=" + name + ";" + "mailto:" + email + ";";
    var post := ";" + "ROLE=" + role;
    assert AttendeeLayout(name, email, stat, role) == e + "PARTSTAT=" + stat + post;
    assert "PARTSTAT=" == "PART" + "STAT=";
    assert "" + (e + "PART") + ("STAT=" + stat + post) == e + "PARTSTAT=" + stat + post;
    CaseAbsent(e + "PART", 'S', 's');
    CaptureOfWindow(e, "PARTSTAT=", stat, post, "", e + "PART", "STAT=" + stat + post, 4);
  }

  /** No `ROLE=` match starts within the layout's text before the `R` of `PARTSTAT=`: no `R` occurs there. */
  lemma NoRoleBeforeStatus(name: string, email: string, stat: string, role: string)
    requires 'r' !in name + email && 'R' !in name + email
    ensures var w := "CN=" + name + ";" + "mailto:" + email + ";" + "PA";
            forall q: nat :: q < |w| ==> !KeyAt(AttendeeLayout(name, email, stat, role), "ROLE=", q)
  {
    var w := "CN=" + name + ";" + "mailto:" + email + ";" + "PA";
    assert "PARTSTAT=" == "PA" + "RTSTAT=";
    assert AttendeeLayout(name, email, stat, role) == "" + w + ("RTSTAT=" + stat + ";" + "ROLE=" + role);
    CaseAbsent(w, 'R', 'r');
    NoKeyInWindow("", w, "RTSTAT=" + stat + ";" + "ROLE=" + role, "ROLE=", 0);
  }

  /** No `ROLE=` match starts from the `R` of `PARTSTAT=` up to the written key: no `O` follows one there. */
  lemma NoRoleInStatus(name: string, email: string, stat: string, role: string)
    requires 'o' !in stat && 'O' !in stat
    ensures var w := "CN=" + name + ";" + "mailto:" + email + ";" + "PA";
            forall q: nat :: |w| <= q < |w| + |stat| + 8 ==> !KeyAt(AttendeeLayout(name, email, stat, role), "ROLE=", q)
  {
    var a := "CN=" + name + ";" + "mailto:" + email + ";" + "PAR";
    var w := "TSTAT=" + stat + ";" + "R";
    assert "PARTSTAT=" == "PAR" + "TSTAT=";
    assert "ROLE=" == "R" + "OLE=";
    assert AttendeeLayout(name, email, stat, role) == a + w + ("OLE=" + role);
    CaseAbsent(w, 'O', 'o');
    NoKeyInWindow(a, w, "OLE=" + role, "ROLE=", 1);
  }

  /** The role of the layout: the run after the only early-enough `ROLE=`. */
  lemma LayoutRole(name: string, email: string, stat: string, role: string)
    requires |role| >= 1 && ';' !in role && ':' !in role
    requires 'r' !in name + email && 'R' !in name + email && 'o' !in stat && 'O' !in stat
    ensures Capture(AttendeeLayout(name, email, stat, role), "ROLE=") == Some(role)
  {
    var t := "CN=" + name + ";" + "mailto:" + email + ";" + "PARTSTAT=" + stat + ";";
    assert AttendeeLayout(name, email, stat, role) == t + "ROLE=" + role + "";
    NoRoleBeforeStatus(name, email, stat, role);
    NoRoleInStatus(name, email, stat, role);
    NoStops(role);
    CaptureAfterPrefix(t, "ROLE=", role, "");
  }

  /**
   * The documented layout gives back its four parts (status and role through
   * their labels) when each part is a non-empty run and holds none of the
   * letters that could start one of the later keys early.
   */
  lemma AttendeeOfLayout(name: string, email: string, stat: string, role: string)
    requires |name| >= 1 && ';' !in name && ':' !in name
    requires |email| >= 1 && ';' !in email && ':' !in email
    requires |stat| >= 1 && ';' !in stat && ':' !in stat
    requires |role| >= 1 && ';' !in role && ':' !in role
    requires 'm' !in name && 'M' !in name
    requires 's' !in name && 'S' !in name && 's' !in email && 'S' !in email
    requires 'r' !in name && 'R' !in name && 'r' !in email && 'R' !in email
    requires 'o' !in stat && 'O' !in stat
    ensures AttendeeOf(AttendeeLayout(name, email, stat, role))
            == Person(Some(name), email, Some(StatusLabel(stat)), Some(RoleLabel(role)))
  {
    LayoutName(name, email, stat, role);
    LayoutEmail(name, email, stat, role);
    LayoutStatus(name, email, stat, role);
    LayoutRole(name, email, stat, role);
  }

  /** The documented attendee's name, `;` and email, written out. */
  lemma JaneDoeContactText()
    ensures "CN=" + "Jane Doe" + ";" + "mailto:" + "jane@example.com" + ";" == "CN=Jane Doe;mailto:jane@example.com;"
  {
    assert "CN=" + "Jane Doe" == "CN=Jane Doe";
    assert "CN=Jane Doe" + ";" == "CN=Jane Doe;";
    assert "CN=Jane Doe;" + "mailto:" == "CN=Jane Doe;mailto:";
    assert "CN=Jane Doe;mailto:" + "jane@example.com" == "CN=Jane Doe;mailto:jane@example.com";
  }

  /** The documented attendee's status parameter, appended. */
  lemma JaneDoeStatusText()
    ensures "CN=Jane Doe;mailto:jane@example.com;" + "PARTSTAT=" + "ACCEPTED" + ";" == "CN=Jane Doe;mailto:jane@example.com;PARTSTAT=ACCEPTED;"
  {
    assert "CN=Jane Doe;mailto:jane@example.com;" + "PARTSTAT=" == "CN=Jane Doe;mailto:jane@example.com;PARTSTAT=";
    assert "CN=Jane Doe;mailto:jane@example.com;PARTSTAT=" + "ACCEPTED" == "CN=Jane Doe;mailto:jane@example.com;PARTSTAT=ACCEPTED";
  }

  /** The documented attendee's role parameter, appended. */
  lemma JaneDoeRoleText()
    ensures "CN=Jane Doe;mailto:jane@example.com;PARTSTAT=ACCEPTED;" + "ROLE=" + "CHAIR" == "CN=Jane Doe;mailto:jane@example.com;PARTSTAT=ACCEPTED;ROLE=CHAIR"
  {
    assert "CN=Jane Doe;mailto:jane@example.com;PARTSTAT=ACCEPTED;" + "ROLE=" == "CN=Jane Doe;mailto:jane@example.com;PARTSTAT=ACCEPTED;ROLE=";
  }

  /** The documented attendee value is the layout of its four parts. */
  lemma JaneDoeLayout()
    ensures AttendeeLayout("Jane Doe", "jane@example.com", "ACCEPTED", "CHAIR")
            == "CN=Jane Doe;mailto:jane@example.com;PARTSTAT=ACCEPTED;ROLE=CHAIR"
  {
    JaneDoeContactText();
    JaneDoeStatusText();
    JaneDoeRoleText();
  }

  /** The documented attendee's name is a plain run without the letters `m`, `s` and `r`. */
  lemma JaneDoeNamePlain()
    ensures ';' !in "Jane Doe" && ':' !in "Jane Doe" && 'm' !in "Jane Doe" && 'M' !in "Jane Doe"
    ensures 's' !in "Jane Doe" && 'S' !in "Jane Doe" && 'r' !in "Jane Doe" && 'R' !in "Jane Doe"
  {
  }

  /** The documented attendee's email is a plain run. */
  lemma JaneDoeEmailPlain()
    ensures ';' !in "jane@example.com" && ':' !in "jane@example.com"
  {
  }

  /** The documented attendee's email lacks the letters `s` and `r`. */
  lemma JaneDoeEmailLetters()
    ensures 's' !in "jane@example.com" && 'S' !in "jane@example.com"
    ensures 'r' !in "jane@example.com" && 'R' !in "jane@example.com"
  {
  }

  /** The documented attendee's status and role are plain runs, the status without the letter `o`. */
  lemma JaneDoeStatusPlain()
    ensures ';' !in "ACCEPTED" && ':' !in "ACCEPTED" && 'o' !in "ACCEPTED" && 'O' !in "ACCEPTED"
    ensures ';' !in "CHAIR" && ':' !in "CHAIR"
  {
  }

  /** The documented attendee value, `CN=Jane Doe;mailto:jane@example.com;PARTSTAT=ACCEPTED;ROLE=CHAIR`, gives its name, email, status label and role label. */
  lemma JaneDoeAttendee()
    ensures AttendeeOf("CN=Jane Doe;mailto:jane@example.com;PARTSTAT=ACCEPTED;ROLE=CHAIR")
            == Person(Some("Jane Doe"), "jane@example.com", Some("Accepted"), Some("Chair"))
  {
    JaneDoeLayout();
    JaneDoeNamePlain();
    JaneDoeEmailPlain();
    JaneDoeEmailLetters();
    JaneDoeStatusPlain();
    AttendeeOfLayout("Jane Doe", "jane@example.com", "ACCEPTED", "CHAIR");
  }
}
