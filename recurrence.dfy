/**
 * `parseRecurrenceRule` and its English helpers `getOrdinal` and `formatList`
 * (src/ics.js:177-254): an RFC 5545 RRULE value (sections 3.3.10 and 3.8.5.3),
 * a `;`-separated list of `KEY=VALUE` parts, becomes one English sentence.
 */
module Recurrence {
  import opened Wrappers
  import opened JsText
  import opened IcsDate

  /** A JavaScript value that is either a string or `undefined` (`None`). */
  type JsStr = Option<string>

  /** `${v}` in a template literal: `undefined` is spelt out. */
  function Template(v: JsStr): string {
    match v
    case Some(s) => s
    case None => "undefined"
  }

  /** The strings as JavaScript values. */
  function Defined(xs: seq<string>): (r: seq<JsStr>)
    ensures |r| == |xs| && forall i :: 0 <= i < |xs| ==> r[i] == Some(xs[i])
  {
    seq(|xs|, i requires 0 <= i < |xs| => Some(xs[i]))
  }

  /** `xs.join(sep)` on an array: `undefined` elements become empty strings. */
  function JoinValues(xs: seq<JsStr>, sep: string): string {
    Join(seq(|xs|, i requires 0 <= i < |xs| => xs[i].GetOr("")), sep)
  }

  // ---------------------------------------------------------------- getOrdinal

  /** JavaScript's `a % b` on integers: truncating, so the remainder takes the sign of `a`. */
  function JsRem(a: int, b: int): (r: int)
    requires b > 0
    ensures a >= 0 ==> r == a % b
    ensures a < 0 ==> -b < r <= 0
  {
    if a >= 0 then a % b else -((-a) % b)
  }

  /** `['th', 'st', 'nd', 'rd']`. */
  const Suffixes: seq<string> := ["th", "st", "nd", "rd"]

  /** `s[i]`: the suffix at index `i`, or `undefined` outside the array. */
  function SuffixAt(i: int): JsStr {
    if 0 <= i < |Suffixes| then Some(Suffixes[i]) else None
  }

  /**
   * `getOrdinal(n)`: `n + (s[(v - 20) % 10] || s[v] || s[0])` with `v = n % 100`.
   * Every suffix is a non-empty (truthy) string, so `||` picks the first one defined.
   */
  function Ordinal(n: int): string {
    IntToString(n) + OrdinalSuffix(n)
  }

  /** `s[(v - 20) % 10] || s[v] || s[0]` with `v = n % 100`. */
  function OrdinalSuffix(n: int): string {
    var v := JsRem(n, 100);
    SuffixAt(JsRem(v - 20, 10)).GetOr(SuffixAt(v).GetOr(Suffixes[0]))
  }

  /** The English ordinal suffix: st, nd, rd after a last digit 1, 2, 3 except in 11-13; th otherwise and for negatives. */
  function EnglishSuffix(n: int): string {
    if n < 0 || n % 100 == 11 || n % 100 == 12 || n % 100 == 13 then "th"
    else if n % 10 == 1 then "st"
    else if n % 10 == 2 then "nd"
    else if n % 10 == 3 then "rd"
    else "th"
  }

  /** `getOrdinal(n)` is the decimal spelling of `n` followed by its English suffix ("-1th" for negatives). */
  lemma OrdinalIsEnglish(n: int)
    ensures Ordinal(n) == IntToString(n) + EnglishSuffix(n)
  {
    if n >= 0 {
      SuffixOfNonNegative(n);
    } else {
      SuffixOfNegative(n);
    }
  }

  /** From 0 up, the suffix follows the last digit, with 11, 12 and 13 (mod 100) taking "th". */
  lemma SuffixOfNonNegative(n: int)
    requires n >= 0
    ensures OrdinalSuffix(n) == EnglishSuffix(n)
  {
    var v := n % 100;
    assert JsRem(n, 100) == v;
    SuffixOfRemainder(v);
    LastDigitOfRemainder(n);
    assert v % 100 == v;
  }

  /** Taking the remainder by 100 keeps the last digit. */
  lemma LastDigitOfRemainder(n: int)
    requires n >= 0
    ensures (n % 100) % 10 == n % 10
  {
    var q := n / 100;
    var v := n % 100;
    assert n == 10 * (10 * q) + v;
  }

  /** The suffix `getOrdinal` picks for a remainder `v` in 0..99 is the English one. */
  lemma SuffixOfRemainder(v: int)
    requires 0 <= v < 100
    ensures SuffixAt(JsRem(v - 20, 10)).GetOr(SuffixAt(v).GetOr(Suffixes[0])) == EnglishSuffix(v)
  {
    if v >= 20 {
      SuffixFromTwenty(v);
    } else {
      SuffixBelowTwenty(v);
    }
  }

  /** From 20 to 99 the first lookup, `s[(v - 20) % 10]`, decides by the last digit. */
  lemma SuffixFromTwenty(v: int)
    requires 20 <= v < 100
    ensures SuffixAt(JsRem(v - 20, 10)).GetOr(SuffixAt(v).GetOr(Suffixes[0])) == EnglishSuffix(v)
  {
    var w := JsRem(v - 20, 10);
    assert w == (v - 20) % 10 == v % 10;
    assert v % 100 == v;
  }

  /** Below 20 the first lookup is `s[0]` for 0 and 10 and `undefined` otherwise, so `s[v]` or `s[0]` decides. */
  lemma SuffixBelowTwenty(v: int)
    requires 0 <= v < 20
    ensures SuffixAt(JsRem(v - 20, 10)).GetOr(SuffixAt(v).GetOr(Suffixes[0])) == EnglishSuffix(v)
  {
    var w := JsRem(v - 20, 10);
    assert w == -((20 - v) % 10);
    assert v % 100 == v;
    if v == 0 || v == 10 {
      assert w == 0;
    } else {
      assert w < 0;
    }
  }

  /** Below 0 both remainders are at most 0, so only `s[0]` ("th") or `undefined` indices come up. */
  lemma SuffixOfNegative(n: int)
    requires n < 0
    ensures OrdinalSuffix(n) == "th"
  {
    var v := JsRem(n, 100);
    assert -100 < v <= 0;
    assert JsRem(v - 20, 10) <= 0;
  }

  /** The values `getOrdinal` is documented with. */
  lemma OrdinalExamples()
    ensures Ordinal(1) == "1st" && Ordinal(2) == "2nd" && Ordinal(3) == "3rd"
    ensures Ordinal(11) == "11th" && Ordinal(21) == "21st" && Ordinal(112) == "112th"
    ensures Ordinal(-1) == "-1th"
  {
    OrdinalIsEnglish(1);
    OrdinalIsEnglish(2);
    OrdinalIsEnglish(3);
    OrdinalIsEnglish(11);
    OrdinalIsEnglish(21);
    OrdinalIsEnglish(112);
    OrdinalIsEnglish(-1);
    assert NatToString(11) == "11" by {
      assert NatToString(1) == "1";
    }
    assert NatToString(21) == "21" by {
      assert NatToString(2) == "2";
    }
    assert NatToString(112) == "112" by {
      assert NatToString(11) == "11" by {
        assert NatToString(1) == "1";
      }
    }
  }

  /** `getOrdinal` applied to a `parseInt` result; NaN prints as "NaN" and takes the suffix `s[0]`. */
  function OrdinalOf(x: Option<int>): string {
    match x
    case Some(n) => Ordinal(n)
    case None => "NaN" + Suffixes[0]
  }

  // ---------------------------------------------------------------- formatList

  /** A JavaScript array of string-or-undefined values, which `formatList` shortens in place. */
  class ItemList {
    var items: seq<JsStr>

    constructor (items: seq<JsStr>)
      ensures this.items == items
    {
      this.items := items;
    }

    /** `items.pop()`: removes and returns the last element; `undefined` on an empty array. */
    method Pop() returns (last: JsStr)
      modifies this
      ensures |old(items)| == 0 ==> last == None && items == []
      ensures |old(items)| > 0 ==>
                last == old(items)[|old(items)| - 1] && items == old(items)[..|old(items)| - 1]
    {
      if |items| == 0 {
        last := None;
      } else {
        last := items[|items| - 1];
        items := items[..|items| - 1];
      }
    }
  }

  /** What `formatList(items)` returns for an array holding `items`. */
  function ListPhrase(items: seq<JsStr>): JsStr {
    if |items| == 1 then items[0]
    else if |items| == 2 then Some(Template(items[0]) + " and " + Template(items[1]))
    else
      var rest := if |items| == 0 then [] else items[..|items| - 1];
      var last := if |items| == 0 then None else items[|items| - 1];
      Some(JoinValues(rest, ", ") + ", and " + Template(last))
  }

  /**
   * `formatList(items)`: one item is returned as it is, two are joined with
   * " and ", more get the Oxford comma; the last element is popped off the
   * caller's array in that last case.
   */
  method FormatList(list: ItemList) returns (r: JsStr)
    modifies list
    ensures r == ListPhrase(old(list.items))
    ensures list.items == if |old(list.items)| <= 2 then old(list.items)
                          else old(list.items)[..|old(list.items)| - 1]
  {
    if |list.items| == 1 {
      return list.items[0];
    }
    if |list.items| == 2 {
      return Some(Template(list.items[0]) + " and " + Template(list.items[1]));
    }
    var lastItem := list.Pop();
    r := Some(JoinValues(list.items, ", ") + ", and " + Template(lastItem));
  }

  /** On strings, `formatList` is "A", "A and B", or all items joined by ", " with "and " before the last. */
  lemma ListPhraseOfStrings(xs: seq<string>)
    requires |xs| >= 1
    ensures |xs| == 1 ==> ListPhrase(Defined(xs)) == Some(xs[0])
    ensures |xs| == 2 ==> ListPhrase(Defined(xs)) == Some(xs[0] + " and " + xs[1])
    ensures |xs| >= 3 ==>
              ListPhrase(Defined(xs)) == Some(Join(xs[..|xs| - 1] + ["and " + xs[|xs| - 1]], ", "))
  {
    var n := |xs|;
    if n >= 3 {
      var items := Defined(xs);
      var plain := seq(n - 1, i requires 0 <= i < n - 1 => items[..n - 1][i].GetOr(""));
      assert plain == xs[..n - 1];
      assert JoinValues(items[..n - 1], ", ") == Join(xs[..n - 1], ", ");
      assert ListPhrase(items) == Some(Join(xs[..n - 1], ", ") + ", and " + xs[n - 1]);
      JoinSnoc(xs[..n - 1], "and " + xs[n - 1], ", ");
      var a, x := Join(xs[..n - 1], ", "), xs[n - 1];
      assert a + ", " + ("and " + x) == a + ", and " + x;
    }
  }

  /** `formatList(["A", "B", "C"])` is "A, B, and C". */
  lemma ListPhraseExample()
    ensures ListPhrase(Defined(["A", "B", "C"])) == Some("A, B, and C")
  {
    ListPhraseOfStrings(["A", "B", "C"]);
    assert "and " + "C" == "and C";
    assert ["A", "B", "C"][..2] + ["and " + "C"] == ["A", "B", "and C"];
    assert Join(["A", "B", "and C"], ", ") == "A, B, and C" by {
      assert Join(["and C"], ", ") == "and C";
      assert ["A", "B", "and C"][1..] == ["B", "and C"];
      assert ["B", "and C"][1..] == ["and C"];
    }
  }

  // ---------------------------------------------------------------- rule parts

  /** The exceptions `parseRecurrenceRule` can throw. */
  datatype RuleError =
    | UndefinedValue(key: string)   // a part without `=`: `value` is undefined and is used as a string
    | NoWeekdayCode(item: string)   // a BYDAY item not ending in two capital letters: `null[1]`

  /** `const [key, value] = part.split('=')`: the text before the first `=`, and the text up to the next `=` if any. */
  function KeyValue(part: string): (string, JsStr) {
    var pieces := Split(part, '=');
    (pieces[0], if |pieces| >= 2 then Some(pieces[1]) else None)
  }

  /**
   * The key is the text before the first `=` (all of the part if there is none);
   * the value is defined exactly when there is an `=`, and is the text between
   * the first and the second `=` (or the end).
   */
  lemma KeyValueShape(part: string)
    ensures '=' !in KeyValue(part).0
    ensures KeyValue(part).1.None? <==> '=' !in part
    ensures KeyValue(part).1.None? ==> KeyValue(part).0 == part
    ensures KeyValue(part).1.Some? ==>
              var (key, value) := (KeyValue(part).0, KeyValue(part).1.value);
              '=' !in value && StartsWith(part, key + "=" + value)
              && (|part| == |key| + 1 + |value| || part[|key| + 1 + |value|] == '=')
  {
    var pieces := Split(part, '=');
    if |pieces| >= 2 {
      var rest := Join(pieces[1..], "=");
      assert part == pieces[0] + "=" + rest;
      assert part[|pieces[0]|] == '=';
      if |pieces| == 2 {
        assert rest == pieces[1];
        assert part == pieces[0] + "=" + pieces[1];
      } else {
        assert rest == pieces[1] + "=" + Join(pieces[2..], "=");
        assert part == (pieces[0] + "=" + pieces[1]) + "=" + Join(pieces[2..], "=");
      }
    }
  }

  /** `dayNames[day]`: the full weekday name for a two-letter RFC 5545 weekday code, or `undefined`. */
  function DayName(code: string): JsStr {
    if code == "MO" then Some("Monday")
    else if code == "TU" then Some("Tuesday")
    else if code == "WE" then Some("Wednesday")
    else if code == "TH" then Some("Thursday")
    else if code == "FR" then Some("Friday")
    else if code == "SA" then Some("Saturday")
    else if code == "SU" then Some("Sunday")
    else None
  }

  /** `monthNames`, indexed from 0. */
  const MonthNames: seq<string> :=
    ["January", "February", "March", "April", "May", "June",
     "July", "August", "September", "October", "November", "December"]

  /** `monthNames[parseInt(m) - 1]`: `undefined` when the number is NaN or outside 1-12. */
  function MonthName(m: string): JsStr {
    match ParseInt(m)
    case None => None
    case Some(k) => if 1 <= k <= 12 then Some(MonthNames[k - 1]) else None
  }

  predicate IsUpper(c: char) {
    'A' <= c <= 'Z'
  }

  /** The text matched by `^(-?\d+)`: an optional minus sign and the digits right after it. */
  function LeadingNumber(d: string): Option<string> {
    if |d| > 0 && d[0] == '-' then
      var ds := DigitPrefix(d[1..]);
      if |ds| > 0 then Some("-" + ds) else None
    else
      var ds := DigitPrefix(d);
      if |ds| > 0 then Some(ds) else None
  }

  /**
   * One BYDAY item, as the `days.map` callback renders it: a weekday name, or
   * "the <ordinal> <weekday>" after a leading signed number; it throws when the
   * item does not end in two capital letters (`[A-Z]{2}$`).
   */
  function DayItem(d: string): Result<JsStr, RuleError> {
    if |d| < 2 || !IsUpper(d[|d| - 2]) || !IsUpper(d[|d| - 1]) then Failure(NoWeekdayCode(d))
    else
      var day := d[|d| - 2..];
      match LeadingNumber(d)
      case Some(num) => Success(Some("the " + OrdinalOf(ParseInt(num)) + " " + Template(DayName(day))))
      case None => Success(DayName(day))
  }

  /** `days.map(...)` over BYDAY items: the first item that throws aborts the map. */
  function DayItems(ds: seq<string>): (r: Result<seq<JsStr>, RuleError>)
    ensures r.Success? ==> |r.value| == |ds|
    decreases |ds|
  {
    if |ds| == 0 then Success([])
    else
      match DayItem(ds[0])
      case Failure(e) => Failure(e)
      case Success(x) =>
        match DayItems(ds[1..])
        case Failure(e) => Failure(e)
        case Success(xs) => Success([x] + xs)
  }

  /** A BYDAY item made of a number and a weekday code reads as "the <ordinal> <weekday>": "2TU" is "the 2nd Tuesday". */
  lemma DayItemWithNumber(n: nat, code: string)
    requires |code| == 2 && IsUpper(code[0]) && IsUpper(code[1])
    ensures DayItem(NatToString(n) + code) == Success(Some("the " + Ordinal(n) + " " + Template(DayName(code))))
  {
    var ds := NatToString(n);
    var d := ds + code;
    assert d[|d| - 2..] == code;
    assert LeadingNumber(d) == Some(ds) by {
      LeadingNumberOfItem(false, ds, code);
      assert "" + ds + code == d;
    }
    ParseIntOfNatToString(n);
    DayItemOfNumbered(d, ds, n, code);
  }

  /** A BYDAY item made of a minus sign, a number and a weekday code counts back: "-1MO" reads as "the -1th Monday". */
  lemma DayItemWithNegativeNumber(n: nat, code: string)
    requires n >= 1
    requires |code| == 2 && IsUpper(code[0]) && IsUpper(code[1])
    ensures DayItem("-" + NatToString(n) + code) == Success(Some("the " + Ordinal(-(n as int)) + " " + Template(DayName(code))))
  {
    NegativeItemParts("-" + NatToString(n) + code, NatToString(n), code);
    ParseIntOfMinusNatToString(n);
    DayItemOfNumbered("-" + NatToString(n) + code, "-" + NatToString(n), -(n as int), code);
  }

  /** A minus sign, digits and a weekday code: the item ends in the code and its leading number is the sign and the digits. */
  lemma NegativeItemParts(d: string, ds: string, code: string)
    requires |ds| >= 1 && AllDigits(ds)
    requires |code| == 2 && IsUpper(code[0]) && IsUpper(code[1])
    requires d == "-" + ds + code
    ensures |d| >= 2 && IsUpper(d[|d| - 2]) && IsUpper(d[|d| - 1]) && d[|d| - 2..] == code
    ensures LeadingNumber(d) == Some("-" + ds)
  {
    assert d[|d| - 2..] == code && d[|d| - 2] == code[0] && d[|d| - 1] == code[1];
    LeadingNumberOfItem(true, ds, code);
  }

  /** An item ending in a weekday code and starting with a number reads as "the <ordinal of the number> <weekday>". */
  lemma DayItemOfNumbered(d: string, num: string, n: int, code: string)
    requires |d| >= 2 && IsUpper(d[|d| - 2]) && IsUpper(d[|d| - 1]) && d[|d| - 2..] == code
    requires LeadingNumber(d) == Some(num) && ParseInt(num) == Some(n)
    ensures DayItem(d) == Success(Some("the " + Ordinal(n) + " " + Template(DayName(code))))
  {
  }

  /** The leading number of such an item is its sign and digits. */
  lemma LeadingNumberOfItem(negative: bool, ds: string, code: string)
    requires |ds| >= 1 && AllDigits(ds)
    requires |code| == 2 && IsUpper(code[0])
    ensures LeadingNumber((if negative then "-" else "") + ds + code) == Some((if negative then "-" else "") + ds)
  {
    var body := ds + code;
    DigitPrefixOfConcat(ds, code);
    if negative {
      assert ("-" + ds + code)[1..] == body;
    } else {
      assert "" + ds + code == body;
      assert IsDigit(body[0]);
    }
  }

  /** The digit prefix stops at the first non-digit after a run of digits. */
  lemma {:induction false} DigitPrefixOfConcat(ds: string, rest: string)
    requires AllDigits(ds)
    requires |rest| > 0 && !IsDigit(rest[0])
    ensures DigitPrefix(ds + rest) == ds
  {
    if |ds| > 0 {
      assert (ds + rest)[1..] == ds[1..] + rest;
      DigitPrefixOfConcat(ds[1..], rest);
      assert ds == [ds[0]] + ds[1..];
    } else {
      assert ds + rest == rest;
    }
  }

  // ---------------------------------------------------------------- the rule

  /** The keys `parseRecurrenceRule` renders; every other key is skipped. */
  predicate IsKnownKey(key: string) {
    key == "FREQ" || key == "INTERVAL" || key == "COUNT" || key == "UNTIL"
    || key == "BYDAY" || key == "BYMONTHDAY" || key == "BYMONTH"
  }

  /**
   * The fragment one rule part pushes onto `result` (`None` when it pushes
   * nothing), or the exception the `forEach` callback throws.
   */
  function Fragment(part: string, render: DateRenderer): Result<Option<string>, RuleError> {
    var (key, value) := KeyValue(part);
    KeyFragment(key, value, render)
  }

  /** The `if`/`else if` chain on the key, given the key and value of a part. */
  function KeyFragment(key: string, value: JsStr, render: DateRenderer): Result<Option<string>, RuleError> {
    if key == "FREQ" then
      if value.None? then Failure(UndefinedValue(key))
      else Success(Some("Repeats " + ToLowerAscii(value.value)))
    else if key == "INTERVAL" then
      if value != Some("1") then Success(Some("every " + Template(value))) else Success(None)
    else if key == "COUNT" then
      Success(Some("for " + Template(value) + " occurrences"))
    else if key == "UNTIL" then
      if value.None? then Failure(UndefinedValue(key))
      else Success(Some("until " + FormatICSDate(value.value, render)))
    else if key == "BYDAY" then
      if value.None? then Failure(UndefinedValue(key)) else ByDayFragment(value.value)
    else if key == "BYMONTHDAY" then
      if value.None? then Failure(UndefinedValue(key)) else Success(Some(MonthDayFragment(value.value)))
    else if key == "BYMONTH" then
      if value.None? then Failure(UndefinedValue(key)) else Success(Some(MonthFragment(value.value)))
    else
      Success(None)
  }

  /** The BYDAY fragment: "on" and the list of rendered items, unless an item throws. */
  function ByDayFragment(v: string): Result<Option<string>, RuleError> {
    match DayItems(Split(v, ','))
    case Failure(e) => Failure(e)
    case Success(dayList) => Success(Some("on " + Template(ListPhrase(dayList))))
  }

  /** The BYMONTHDAY fragment: "on the <ordinals> of the month". */
  function MonthDayFragment(v: string): string {
    "on the " + Template(ListPhrase(MonthDays(Split(v, ',')))) + " of the month"
  }

  /** The BYMONTH fragment: "in <month names>". */
  function MonthFragment(v: string): string {
    "in " + Template(ListPhrase(MonthList(Split(v, ','))))
  }

  /** `days2.map(d => getOrdinal(parseInt(d)))`. */
  function MonthDays(ds: seq<string>): (r: seq<JsStr>)
    ensures |r| == |ds|
  {
    seq(|ds|, i requires 0 <= i < |ds| => Some(OrdinalOf(ParseInt(ds[i]))))
  }

  /** `months.map(m => monthNames[parseInt(m) - 1])`. */
  function MonthList(ms: seq<string>): (r: seq<JsStr>)
    ensures |r| == |ms|
  {
    seq(|ms|, i requires 0 <= i < |ms| => MonthName(ms[i]))
  }

  /** Unknown keys, and `INTERVAL=1`, contribute nothing. */
  lemma SkippedParts(part: string, render: DateRenderer)
    requires !IsKnownKey(KeyValue(part).0) || KeyValue(part) == ("INTERVAL", Some("1"))
    ensures Fragment(part, render) == Success(None)
  {
  }

  /** `result` after the `forEach` over `parts`, starting from `acc`; the first exception aborts. */
  function Collect(acc: seq<string>, parts: seq<string>, render: DateRenderer): Result<seq<string>, RuleError>
    decreases |parts|
  {
    if |parts| == 0 then Success(acc)
    else
      match Fragment(parts[0], render)
      case Failure(e) => Failure(e)
      case Success(f) => Collect(acc + (if f.Some? then [f.value] else []), parts[1..], render)
  }

  /** The fragments of a whole RRULE value, in the order of its parts. */
  function Fragments(rrule: string, render: DateRenderer): Result<seq<string>, RuleError> {
    Collect([], Split(rrule, ';'), render)
  }

  /** `parseRecurrenceRule(rrule)`: the fragments joined by single spaces. */
  function RecurrenceText(rrule: string, render: DateRenderer): Result<string, RuleError> {
    match Fragments(rrule, render)
    case Failure(e) => Failure(e)
    case Success(fs) => Success(Join(fs, " "))
  }

  /** What `result` becomes once the callback has handled one part, or the exception it throws. */
  function Pushed(result: seq<string>, part: string, render: DateRenderer): Result<seq<string>, RuleError> {
    match Fragment(part, render)
    case Failure(e) => Failure(e)
    case Success(f) => Success(result + (if f.Some? then [f.value] else []))
  }

  /** One step of `Collect`: the part at `i` either throws or adds its fragment. */
  lemma CollectStep(acc: seq<string>, parts: seq<string>, i: nat, render: DateRenderer)
    requires i < |parts|
    ensures Pushed(acc, parts[i], render).Failure? ==>
              Collect(acc, parts[i..], render) == Failure(Pushed(acc, parts[i], render).error)
    ensures Pushed(acc, parts[i], render).Success? ==>
              Collect(acc, parts[i..], render) == Collect(Pushed(acc, parts[i], render).value, parts[i + 1..], render)
  {
    var rest := parts[i..];
    assert |rest| > 0 && rest[0] == parts[i] && rest[1..] == parts[i + 1..];
  }

  /** The `forEach` callback on one part: the `if`/`else if` chain on its key, pushing at most one fragment. */
  method PushFragment(result: seq<string>, part: string, render: DateRenderer) returns (r: Result<seq<string>, RuleError>)
    ensures r == Pushed(result, part, render)
  {
    var (key, value) := KeyValue(part);
    r := Success(result);
    assert result + [] == result;
    if key == "FREQ" {
      if value.None? {
        return Failure(UndefinedValue(key));
      }
      r := Success(result + ["Repeats " + ToLowerAscii(value.value)]);
      assert Fragment(part, render) == Success(Some("Repeats " + ToLowerAscii(value.value)));
    } else if key == "INTERVAL" {
      if value != Some("1") {
        r := Success(result + ["every " + Template(value)]);
        assert Fragment(part, render) == Success(Some("every " + Template(value)));
      }
    } else if key == "COUNT" {
      r := Success(result + ["for " + Template(value) + " occurrences"]);
      assert Fragment(part, render) == Success(Some("for " + Template(value) + " occurrences"));
    } else if key == "UNTIL" {
      if value.None? {
        return Failure(UndefinedValue(key));
      }
      r := Success(result + ["until " + FormatICSDate(value.value, render)]);
      assert Fragment(part, render) == Success(Some("until " + FormatICSDate(value.value, render)));
    } else if key == "BYDAY" {
      if value.None? {
        return Failure(UndefinedValue(key));
      }
      var dayList := DayItems(Split(value.value, ','));
      if dayList.Failure? {
        return Failure(dayList.error);
      }
      var items := new ItemList(dayList.value);
      var phrase := FormatList(items);
      r := Success(result + ["on " + Template(phrase)]);
      assert Fragment(part, render) == Success(Some("on " + Template(phrase)));
    } else if key == "BYMONTHDAY" {
      if value.None? {
        return Failure(UndefinedValue(key));
      }
      var items := new ItemList(MonthDays(Split(value.value, ',')));
      var phrase := FormatList(items);
      r := Success(result + ["on the " + Template(phrase) + " of the month"]);
      assert Fragment(part, render) == Success(Some("on the " + Template(phrase) + " of the month"));
    } else if key == "BYMONTH" {
      if value.None? {
        return Failure(UndefinedValue(key));
      }
      var items := new ItemList(MonthList(Split(value.value, ',')));
      var phrase := FormatList(items);
      r := Success(result + ["in " + Template(phrase)]);
      assert Fragment(part, render) == Success(Some("in " + Template(phrase)));
    }
  }

  /** `parseRecurrenceRule(rruleStr)`: splits on `;`, runs the callback on each part, then joins `result` with spaces. */
  method ParseRecurrenceRule(rruleStr: string, render: DateRenderer) returns (r: Result<string, RuleError>)
    ensures r == RecurrenceText(rruleStr, render)
  {
    var parts := Split(rruleStr, ';');
    var result: seq<string> := [];
    for i := 0 to |parts|
      invariant Collect([], parts, render) == Collect(result, parts[i..], render)
    {
      CollectStep(result, parts, i, render);
      var pushed := PushFragment(result, parts[i], render);
      if pushed.Failure? {
        return Failure(pushed.error);
      }
      result := pushed.value;
    }
    return Success(Join(result, " "));
  }

  // ---------------------------------------------------------------- rule properties

  /** A part written `KEY=VALUE` with no other `=` splits into exactly that key and value. */
  lemma KeyValueOfPair(key: string, value: string)
    requires '=' !in key && '=' !in value
    ensures KeyValue(key + "=" + value) == (key, Some(value))
  {
    assert Join([key, value], "=") == key + "=" + value by {
      assert [key, value][1..] == [value];
    }
    SplitJoin([key, value], '=');
  }

  /** A part without `=` is all key: it throws for keys whose value is used as a string, and COUNT/INTERVAL print "undefined". */
  lemma PartWithoutValue(part: string, render: DateRenderer)
    requires '=' !in part
    ensures KeyValue(part) == (part, None)
    ensures part in {"FREQ", "UNTIL", "BYDAY", "BYMONTHDAY", "BYMONTH"} ==>
              Fragment(part, render) == Failure(UndefinedValue(part))
    ensures part == "COUNT" ==> Fragment(part, render) == Success(Some("for undefined occurrences"))
    ensures part == "INTERVAL" ==> Fragment(part, render) == Success(Some("every undefined"))
  {
    KeyValueShape(part);
    assert "for " + "undefined" + " occurrences" == "for undefined occurrences";
    assert "every " + "undefined" == "every undefined";
  }

  /** FREQ renders as "Repeats" and the lower-cased frequency. */
  lemma FreqFragment(value: string, render: DateRenderer)
    requires '=' !in value
    ensures Fragment("FREQ=" + value, render) == Success(Some("Repeats " + ToLowerAscii(value)))
  {
    assert "FREQ" + "=" + value == "FREQ=" + value;
    KeyValueOfPair("FREQ", value);
  }

  /** INTERVAL renders as "every" and the value as written, and not at all when it is "1". */
  lemma IntervalFragment(value: string, render: DateRenderer)
    requires '=' !in value
    ensures Fragment("INTERVAL=" + value, render)
            == if value == "1" then Success(None) else Success(Some("every " + value))
  {
    assert "INTERVAL" + "=" + value == "INTERVAL=" + value;
    KeyValueOfPair("INTERVAL", value);
  }

  /** COUNT renders as "for <value> occurrences". */
  lemma CountFragment(value: string, render: DateRenderer)
    requires '=' !in value
    ensures Fragment("COUNT=" + value, render) == Success(Some("for " + value + " occurrences"))
  {
    assert "COUNT" + "=" + value == "COUNT=" + value;
    KeyValueOfPair("COUNT", value);
  }

  /** UNTIL renders as "until" and the rendered date. */
  lemma UntilFragment(value: string, render: DateRenderer)
    requires '=' !in value
    ensures Fragment("UNTIL=" + value, render) == Success(Some("until " + FormatICSDate(value, render)))
  {
    assert "UNTIL" + "=" + value == "UNTIL=" + value;
    KeyValueOfPair("UNTIL", value);
  }

  /** The fragments of two outcomes in sequence: the first exception wins, otherwise the lists are concatenated. */
  function ThenFragments(first: Result<seq<string>, RuleError>, second: Result<seq<string>, RuleError>)
    : Result<seq<string>, RuleError>
  {
    match first
    case Failure(e) => Failure(e)
    case Success(fa) =>
      match second
      case Failure(e) => Failure(e)
      case Success(fb) => Success(fa + fb)
  }

  /** Collecting from a non-empty `acc` only prefixes `acc` to what collecting from nothing gives. */
  lemma {:induction false} CollectFrom(acc: seq<string>, parts: seq<string>, render: DateRenderer)
    ensures Collect(acc, parts, render) == ThenFragments(Success(acc), Collect([], parts, render))
    decreases |parts|
  {
    if |parts| > 0 {
      match Fragment(parts[0], render)
      case Failure(e) =>
      case Success(f) =>
        var step := if f.Some? then [f.value] else [];
        CollectFrom(acc + step, parts[1..], render);
        CollectFrom(step, parts[1..], render);
        assert [] + step == step;
        assert acc + [] == acc;
        match Collect([], parts[1..], render)
        case Failure(e) =>
        case Success(fs) =>
          assert acc + step + fs == acc + (step + fs);
    } else {
      assert acc + [] == acc;
    }
  }

  /** Collecting over two runs of parts is collecting over each in turn. */
  lemma {:induction false} CollectConcat(acc: seq<string>, xs: seq<string>, ys: seq<string>, render: DateRenderer)
    ensures Collect(acc, xs + ys, render)
            == match Collect(acc, xs, render)
               case Failure(e) => Failure(e)
               case Success(fs) => Collect(fs, ys, render)
    decreases |xs|
  {
    if |xs| == 0 {
      assert xs + ys == ys;
    } else {
      assert (xs + ys)[0] == xs[0] && (xs + ys)[1..] == xs[1..] + ys;
      match Fragment(xs[0], render)
      case Failure(e) =>
      case Success(f) =>
        CollectConcat(acc + (if f.Some? then [f.value] else []), xs[1..], ys, render);
    }
  }

  /** Rule parts are rendered in input order: the fragments of `a;b` are those of `a` followed by those of `b`. */
  lemma FragmentsConcat(a: string, b: string, render: DateRenderer)
    ensures Fragments(a + ";" + b, render) == ThenFragments(Fragments(a, render), Fragments(b, render))
  {
    SplitConcat(a, b, ';');
    CollectConcat([], Split(a, ';'), Split(b, ';'), render);
    match Fragments(a, render)
    case Failure(e) =>
    case Success(fa) =>
      CollectFrom(fa, Split(b, ';'), render);
  }

  /** Two rules that both produce text, joined by `;`, read as the two sentences joined by a space. */
  lemma RecurrenceTextConcat(a: string, b: string, render: DateRenderer)
    requires Fragments(a, render).Success? && |Fragments(a, render).value| > 0
    requires Fragments(b, render).Success? && |Fragments(b, render).value| > 0
    ensures RecurrenceText(a + ";" + b, render)
            == Success(RecurrenceText(a, render).value + " " + RecurrenceText(b, render).value)
  {
    FragmentsConcat(a, b, render);
    JoinConcat(Fragments(a, render).value, Fragments(b, render).value, " ");
  }

  /** A rule that is a single part renders that part's fragment alone. */
  lemma FragmentsOfOnePart(part: string, render: DateRenderer)
    requires ';' !in part
    ensures Fragments(part, render)
            == match Fragment(part, render)
               case Failure(e) => Failure(e)
               case Success(f) => Success(if f.Some? then [f.value] else [])
  {
    assert Split(part, ';') == [part];
    assert [part][1..] == [];
    match Fragment(part, render)
    case Failure(e) =>
    case Success(f) =>
      var step := if f.Some? then [f.value] else [];
      assert [] + step == step;
      assert Collect(step, [], render) == Success(step);
  }

  /** Appending a part that renders nothing (an unknown key, or INTERVAL=1) leaves the sentence unchanged. */
  lemma IgnoredPartChangesNothing(rrule: string, part: string, render: DateRenderer)
    requires ';' !in part && Fragment(part, render) == Success(None)
    ensures RecurrenceText(rrule + ";" + part, render) == RecurrenceText(rrule, render)
  {
    FragmentsConcat(rrule, part, render);
    FragmentsOfOnePart(part, render);
    match Fragments(rrule, render)
    case Failure(e) =>
    case Success(fa) =>
      assert fa + [] == fa;
  }

  /** A BYDAY item that is a bare weekday code reads as the weekday's name. */
  lemma DayItemOfCode(code: string)
    requires DayName(code).Some?
    ensures DayItem(code) == Success(DayName(code))
    ensures ',' !in code && '=' !in code && ';' !in code
  {
    assert |code| == 2 && IsUpper(code[0]) && IsUpper(code[1]);
    assert code[|code| - 2..] == code;
    assert DigitPrefix(code) == "";
  }

  /** The weekday names of a list of codes, as the BYDAY `map` produces them. */
  function WeekdayNames(codes: seq<string>): (r: seq<JsStr>)
    ensures |r| == |codes|
  {
    seq(|codes|, i requires 0 <= i < |codes| => DayName(codes[i]))
  }

  /** A list of bare weekday codes maps, in order, to their names. */
  lemma {:induction false} DayItemsOfCodes(codes: seq<string>)
    requires forall i :: 0 <= i < |codes| ==> DayName(codes[i]).Some?
    ensures DayItems(codes) == Success(WeekdayNames(codes))
    decreases |codes|
  {
    if |codes| > 0 {
      DayItemOfCode(codes[0]);
      DayItemsOfCodes(codes[1..]);
      WeekdayNamesCons(codes);
    }
  }

  /** The names of a non-empty list: the first code's name, then the names of the rest. */
  lemma WeekdayNamesCons(codes: seq<string>)
    requires |codes| > 0
    ensures WeekdayNames(codes) == [DayName(codes[0])] + WeekdayNames(codes[1..])
  {
    var r := [DayName(codes[0])] + WeekdayNames(codes[1..]);
    assert forall i :: 0 <= i < |codes| ==> r[i] == WeekdayNames(codes)[i];
  }

  /** A BYDAY part renders "on" and the list of its items, or throws for the first item that does. */
  lemma ByDayPart(v: string, render: DateRenderer)
    requires '=' !in v
    ensures Fragment("BYDAY=" + v, render) == ByDayFragment(v)
  {
    assert "BYDAY" + "=" + v == "BYDAY=" + v;
    KeyValueOfPair("BYDAY", v);
  }

  /** Weekday codes joined by commas contain none of `=`, `,` inside a code, or `;`. */
  lemma JoinedCodes(codes: seq<string>)
    requires forall i :: 0 <= i < |codes| ==> DayName(codes[i]).Some?
    ensures '=' !in Join(codes, ",") && ';' !in Join(codes, ",")
    ensures forall i :: 0 <= i < |codes| ==> ',' !in codes[i]
  {
    forall i | 0 <= i < |codes|
      ensures ',' !in codes[i] && '=' !in codes[i] && ';' !in codes[i]
    {
      DayItemOfCode(codes[i]);
    }
    JoinExcludes(codes, ",", '=');
    JoinExcludes(codes, ",", ';');
  }

  /** `BYDAY=` followed by comma-separated weekday codes reads "on" and the list of their names. */
  lemma ByDayOfCodes(codes: seq<string>, render: DateRenderer)
    requires |codes| >= 1
    requires forall i :: 0 <= i < |codes| ==> DayName(codes[i]).Some?
    ensures Fragment("BYDAY=" + Join(codes, ","), render)
            == Success(Some("on " + Template(ListPhrase(WeekdayNames(codes)))))
  {
    JoinedCodes(codes);
    SplitJoin(codes, ',');
    DayItemsOfCodes(codes);
    ByDayPart(Join(codes, ","), render);
  }

  /** A single part with a fragment is a rule with that one fragment. */
  lemma OnePartRule(part: string, x: string, render: DateRenderer)
    requires ';' !in part && Fragment(part, render) == Success(Some(x))
    ensures Fragments(part, render) == Success([x])
  {
    FragmentsOfOnePart(part, render);
  }

  /**
   * The weekly shape of the documentation ("FREQ=WEEKLY;BYDAY=MO,WE,FR"): a
   * frequency followed by weekday codes reads "Repeats <frequency> on <days>".
   */
  lemma FrequencyWithDays(freq: string, codes: seq<string>, render: DateRenderer)
    requires '=' !in freq && ';' !in freq
    requires |codes| >= 1
    requires forall i :: 0 <= i < |codes| ==> DayName(codes[i]).Some?
    ensures RecurrenceText(("FREQ=" + freq) + ";" + ("BYDAY=" + Join(codes, ",")), render)
            == Success(("Repeats " + ToLowerAscii(freq)) + " " + ("on " + Template(ListPhrase(WeekdayNames(codes)))))
  {
    FreqRule(freq, render);
    ByDayRule(codes, render);
    TwoPartRule("FREQ=" + freq, "BYDAY=" + Join(codes, ","),
                "Repeats " + ToLowerAscii(freq), "on " + Template(ListPhrase(WeekdayNames(codes))), render);
  }

  /** Two single-fragment rules joined by `;` read as the two fragments separated by a space. */
  lemma TwoPartRule(a: string, b: string, x: string, y: string, render: DateRenderer)
    requires Fragments(a, render) == Success([x])
    requires Fragments(b, render) == Success([y])
    ensures RecurrenceText(a + ";" + b, render) == Success(x + " " + y)
  {
    RecurrenceTextConcat(a, b, render);
  }

  /** A rule that is only a frequency. */
  lemma FreqRule(freq: string, render: DateRenderer)
    requires '=' !in freq && ';' !in freq
    ensures Fragments("FREQ=" + freq, render) == Success(["Repeats " + ToLowerAscii(freq)])
  {
    FreqFragment(freq, render);
    OnePartRule("FREQ=" + freq, "Repeats " + ToLowerAscii(freq), render);
  }

  /** A rule that is only a list of weekday codes. */
  lemma ByDayRule(codes: seq<string>, render: DateRenderer)
    requires |codes| >= 1
    requires forall i :: 0 <= i < |codes| ==> DayName(codes[i]).Some?
    ensures Fragments("BYDAY=" + Join(codes, ","), render)
            == Success(["on " + Template(ListPhrase(WeekdayNames(codes)))])
  {
    JoinedCodes(codes);
    ByDayOfCodes(codes, render);
    OneByDayPart(Join(codes, ","), "on " + Template(ListPhrase(WeekdayNames(codes))), render);
  }

  /** A BYDAY part whose value holds no `;` is a rule of one part. */
  lemma OneByDayPart(v: string, x: string, render: DateRenderer)
    requires ';' !in v && Fragment("BYDAY=" + v, render) == Success(Some(x))
    ensures Fragments("BYDAY=" + v, render) == Success([x])
  {
    NoSemicolonAfterKey("BYDAY=", v);
    OnePartRule("BYDAY=" + v, x, render);
  }

  /** A `;`-free value after a `;`-free key stays a single rule part. */
  lemma NoSemicolonAfterKey(key: string, v: string)
    requires ';' !in key
    requires ';' !in v
    ensures ';' !in key + v
  {
    var s := key + v;
    forall k | 0 <= k < |s|
      ensures s[k] != ';'
    {
      if k >= |key| {
        assert s[k] == v[k - |key|];
      }
    }
  }

  /** With Monday, Wednesday and Friday the weekly example lists "Monday, Wednesday, and Friday". */
  lemma WeeklyExampleDays()
    ensures WeekdayNames(["MO", "WE", "FR"]) == [Some("Monday"), Some("Wednesday"), Some("Friday")]
    ensures ListPhrase(WeekdayNames(["MO", "WE", "FR"]))
            == Some("Monday" + ", " + "Wednesday" + ", and " + "Friday")
  {
    ListOfThree("Monday", "Wednesday", "Friday");
  }

  /** Three defined items read "a, b, and c". */
  lemma ListOfThree(a: string, b: string, c: string)
    ensures ListPhrase([Some(a), Some(b), Some(c)]) == Some(a + ", " + b + ", and " + c)
  {
    var items := [Some(a), Some(b), Some(c)];
    var plain := seq(2, i requires 0 <= i < 2 => items[..2][i].GetOr(""));
    assert plain == [a, b];
    assert Join([a, b], ", ") == a + ", " + b by {
      assert [a, b][1..] == [b];
    }
  }
}
