/**
 * Properties of whole RRULE values as `parseRecurrenceRule` (src/ics.js:177-234)
 * renders them: the BYMONTHDAY and BYMONTH parts, and the documented weekly rule.
 */
module RecurrenceRules {
  import opened Wrappers
  import opened JsText
  import opened IcsDate
  import opened Recurrence

  // ---------------------------------------------------------------- BYMONTHDAY and BYMONTH

  /** The month of an item that parses as the number `k`. */
  lemma MonthNameOfNumber(m: string, k: int)
    requires ParseInt(m) == Some(k)
    ensures 1 <= k <= 12 ==> MonthName(m) == Some(MonthNames[k - 1])
    ensures (k < 1 || k > 12) ==> MonthName(m) == None
  {
  }

  /** A month number 1-12 names the 1-based entry of `monthNames`. */
  lemma MonthNameInRange(k: nat)
    requires 1 <= k <= 12
    ensures MonthName(NatToString(k)) == Some(MonthNames[k - 1])
  {
    ParseIntOfNatToString(k);
    MonthNameOfNumber(NatToString(k), k);
  }

  /** Month number 0, or one above 12, has no name. */
  lemma MonthNameOutOfRange(k: nat)
    requires k == 0 || k > 12
    ensures MonthName(NatToString(k)) == None
  {
    ParseIntOfNatToString(k);
    MonthNameOfNumber(NatToString(k), k);
  }

  /** A negative month number has no name. */
  lemma MonthNameOfNegative(k: nat)
    ensures MonthName("-" + NatToString(k)) == None
  {
    ParseIntOfMinusNatToString(k);
    MonthNameOfNumber("-" + NatToString(k), -(k as int));
  }

  /** A month item that is not a number at all has no name. */
  lemma MonthNameOfNaN(m: string)
    requires ParseInt(m).None?
    ensures MonthName(m) == None
  {
  }

  /** Day numbers written in decimal read as their ordinals, in order. */
  lemma MonthDaysOfNumbers(ns: seq<nat>)
    ensures MonthDays(seq(|ns|, i requires 0 <= i < |ns| => NatToString(ns[i])))
            == seq(|ns|, i requires 0 <= i < |ns| => Some(Ordinal(ns[i])))
  {
    var ds := seq(|ns|, i requires 0 <= i < |ns| => NatToString(ns[i]));
    forall i | 0 <= i < |ns|
      ensures MonthDays(ds)[i] == Some(Ordinal(ns[i]))
    {
      ParseIntOfNatToString(ns[i]);
    }
  }

  /** Month numbers 1-12 written in decimal read as their names, in order. */
  lemma MonthListOfNumbers(ks: seq<nat>)
    requires forall i :: 0 <= i < |ks| ==> 1 <= ks[i] <= 12
    ensures MonthList(seq(|ks|, i requires 0 <= i < |ks| => NatToString(ks[i])))
            == seq(|ks|, i requires 0 <= i < |ks| => Some(MonthNames[ks[i] - 1]))
  {
    var ms := seq(|ks|, i requires 0 <= i < |ks| => NatToString(ks[i]));
    forall i | 0 <= i < |ks|
      ensures MonthList(ms)[i] == Some(MonthNames[ks[i] - 1])
    {
      MonthNameInRange(ks[i]);
    }
  }

  /** The key `BYMONTHDAY` with a value renders its fragment `x`: "on the", the list of ordinals, and "of the month". */
  lemma MonthDayKey(v: string, x: string, render: DateRenderer)
    requires x == MonthDayFragment(v)
    ensures KeyFragment("BYMONTHDAY", Some(v), render) == Success(Some(x))
  {
    assert |"BYMONTHDAY"| == 10;
    assert "BYMONTHDAY" != "FREQ" && "BYMONTHDAY" != "INTERVAL" && "BYMONTHDAY" != "COUNT";
    assert "BYMONTHDAY" != "UNTIL" && "BYMONTHDAY" != "BYDAY";
  }

  /** The key `BYMONTH` with a value renders its fragment `x`: "in" and the list of month names. */
  lemma MonthKey(v: string, x: string, render: DateRenderer)
    requires x == MonthFragment(v)
    ensures KeyFragment("BYMONTH", Some(v), render) == Success(Some(x))
  {
    assert |"BYMONTH"| == 7;
    assert "BYMONTH" != "FREQ" && "BYMONTH" != "INTERVAL" && "BYMONTH" != "COUNT";
    assert "BYMONTH" != "UNTIL" && "BYMONTH" != "BYDAY" && "BYMONTH" != "BYMONTHDAY";
  }

  /** `BYMONTHDAY=` is the key followed by `=`. */
  lemma MonthDayPrefix()
    ensures "BYMONTHDAY" + "=" == "BYMONTHDAY="
  {
  }

  /** `BYMONTH=` is the key followed by `=`. */
  lemma MonthPrefix()
    ensures "BYMONTH" + "=" == "BYMONTH="
  {
  }

  /** A part `key=v` renders what the key renders with the value `v`. */
  lemma KeyPart(key: string, v: string, y: Result<Option<string>, RuleError>, render: DateRenderer)
    requires '=' !in key && '=' !in v
    requires KeyFragment(key, Some(v), render) == y
    ensures Fragment(key + "=" + v, render) == y
  {
    KeyValueOfPair(key, v);
  }

  /** A BYMONTHDAY part renders its fragment `x`. */
  lemma MonthDayPart(v: string, x: string, render: DateRenderer)
    requires '=' !in v && x == MonthDayFragment(v)
    ensures Fragment("BYMONTHDAY=" + v, render) == Success(Some(x))
  {
    MonthDayPrefix();
    MonthDayKey(v, x, render);
    KeyPart("BYMONTHDAY", v, Success(Some(x)), render);
  }

  /** A BYMONTH part renders its fragment `x`. */
  lemma MonthPart(v: string, x: string, render: DateRenderer)
    requires '=' !in v && x == MonthFragment(v)
    ensures Fragment("BYMONTH=" + v, render) == Success(Some(x))
  {
    MonthPrefix();
    MonthKey(v, x, render);
    KeyPart("BYMONTH", v, Success(Some(x)), render);
  }

  /** Items free of `,`, `=` and `;`, as the items of a BYMONTHDAY or BYMONTH list are. */
  predicate PlainItems(xs: seq<string>) {
    forall i :: 0 <= i < |xs| ==> ',' !in xs[i] && '=' !in xs[i] && ';' !in xs[i]
  }

  /** Plain items joined by commas hold no `=` or `;`, and split back into the items. */
  lemma JoinedItems(xs: seq<string>)
    requires |xs| >= 1 && PlainItems(xs)
    ensures '=' !in Join(xs, ",") && ';' !in Join(xs, ",")
    ensures Split(Join(xs, ","), ',') == xs
  {
    JoinExcludes(xs, ",", '=');
    JoinExcludes(xs, ",", ';');
    SplitJoin(xs, ',');
  }

  /** A rule that is one part, a `;`-free key and value, reads as that part's fragment. */
  lemma KeyPartRule(key: string, v: string, x: string, render: DateRenderer)
    requires ';' !in key && ';' !in v
    requires Fragment(key + v, render) == Success(Some(x))
    ensures RecurrenceText(key + v, render) == Success(x)
  {
    NoSemicolonAfterKey(key, v);
    OnePartRule(key + v, x, render);
  }

  /** `BYMONTHDAY=` holds no `;`. */
  lemma MonthDayKeyPlain()
    ensures ';' !in "BYMONTHDAY="
  {
  }

  /** A rule that is a BYMONTHDAY part alone reads as that part's fragment. */
  lemma MonthDayText(v: string, render: DateRenderer)
    requires '=' !in v && ';' !in v
    ensures RecurrenceText("BYMONTHDAY=" + v, render) == Success(MonthDayFragment(v))
  {
    MonthDayPart(v, MonthDayFragment(v), render);
    MonthDayKeyPlain();
    KeyPartRule("BYMONTHDAY=", v, MonthDayFragment(v), render);
  }

  /** `BYMONTHDAY=` and comma-separated day numbers read "on the <ordinals> of the month". */
  lemma MonthDayRule(ds: seq<string>, render: DateRenderer)
    requires |ds| >= 1 && PlainItems(ds)
    ensures RecurrenceText("BYMONTHDAY=" + Join(ds, ","), render)
            == Success("on the " + Template(ListPhrase(MonthDays(ds))) + " of the month")
  {
    JoinedItems(ds);
    MonthDayText(Join(ds, ","), render);
  }

  /** `BYMONTH=` holds no `;`. */
  lemma MonthKeyPlain()
    ensures ';' !in "BYMONTH="
  {
  }

  /** A rule that is a BYMONTH part alone reads as that part's fragment. */
  lemma MonthText(v: string, render: DateRenderer)
    requires '=' !in v && ';' !in v
    ensures RecurrenceText("BYMONTH=" + v, render) == Success(MonthFragment(v))
  {
    MonthPart(v, MonthFragment(v), render);
    MonthKeyPlain();
    KeyPartRule("BYMONTH=", v, MonthFragment(v), render);
  }

  /** `BYMONTH=` and comma-separated month numbers read "in <month names>". */
  lemma MonthRule(ms: seq<string>, render: DateRenderer)
    requires |ms| >= 1 && PlainItems(ms)
    ensures RecurrenceText("BYMONTH=" + Join(ms, ","), render)
            == Success("in " + Template(ListPhrase(MonthList(ms))))
  {
    JoinedItems(ms);
    MonthText(Join(ms, ","), render);
  }

  /** Numbers written in decimal are plain items. */
  lemma NumbersArePlain(ns: seq<nat>)
    ensures PlainItems(seq(|ns|, i requires 0 <= i < |ns| => NatToString(ns[i])))
  {
    var ds := seq(|ns|, i requires 0 <= i < |ns| => NatToString(ns[i]));
    forall i | 0 <= i < |ds|
      ensures ',' !in ds[i] && '=' !in ds[i] && ';' !in ds[i]
    {
      assert AllDigits(ds[i]);
    }
  }

  /** `BYMONTHDAY=` and day numbers in decimal read "on the", the list of their ordinals, and "of the month". */
  lemma MonthDayNumbersRule(ns: seq<nat>, render: DateRenderer)
    requires |ns| >= 1
    ensures var ds := seq(|ns|, i requires 0 <= i < |ns| => NatToString(ns[i]));
            RecurrenceText("BYMONTHDAY=" + Join(ds, ","), render)
            == Success("on the " + Template(ListPhrase(seq(|ns|, i requires 0 <= i < |ns| => Some(Ordinal(ns[i])))))
                       + " of the month")
  {
    NumbersArePlain(ns);
    MonthDayRule(seq(|ns|, i requires 0 <= i < |ns| => NatToString(ns[i])), render);
    MonthDaysOfNumbers(ns);
  }

  /** `BYMONTH=` and month numbers 1-12 in decimal read "in" and the list of their names. */
  lemma MonthNumbersRule(ks: seq<nat>, render: DateRenderer)
    requires |ks| >= 1 && forall i :: 0 <= i < |ks| ==> 1 <= ks[i] <= 12
    ensures var ms := seq(|ks|, i requires 0 <= i < |ks| => NatToString(ks[i]));
            RecurrenceText("BYMONTH=" + Join(ms, ","), render)
            == Success("in " + Template(ListPhrase(seq(|ks|, i requires 0 <= i < |ks| => Some(MonthNames[ks[i] - 1])))))
  {
    NumbersArePlain(ks);
    MonthRule(seq(|ks|, i requires 0 <= i < |ks| => NatToString(ks[i])), render);
    MonthListOfNumbers(ks);
  }

  // ---------------------------------------------------------------- the documented weekly rule

  /** The weekday codes of the weekly example, joined by commas. */
  lemma WeeklyCodes()
    ensures Join(["MO", "WE", "FR"], ",") == "MO,WE,FR"
  {
    assert ["MO", "WE", "FR"][1..] == ["WE", "FR"];
    assert ["WE", "FR"][1..] == ["FR"];
  }

  /** The weekly example rule is its frequency part, `;` and its BYDAY part. */
  lemma WeeklyRuleText()
    ensures ("FREQ=" + "WEEKLY") + ";" + ("BYDAY=" + "MO,WE,FR") == "FREQ=WEEKLY;BYDAY=MO,WE,FR"
  {
    assert "FREQ=" + "WEEKLY" == "FREQ=WEEKLY";
    assert "BYDAY=" + "MO,WE,FR" == "BYDAY=MO,WE,FR";
    assert "FREQ=WEEKLY" + ";" == "FREQ=WEEKLY;";
  }

  /** The frequency `WEEKLY` lower-cases to `weekly`. */
  lemma WeeklyLower()
    ensures ToLowerAscii("WEEKLY") == "weekly"
  {
    var r := ToLowerAscii("WEEKLY");
    assert r[0] == 'w' && r[1] == 'e' && r[2] == 'e' && r[3] == 'k' && r[4] == 'l' && r[5] == 'y';
  }

  /** The three weekdays of the weekly example as one phrase. */
  lemma WeeklyDaysPhrase()
    ensures Template(ListPhrase(WeekdayNames(["MO", "WE", "FR"]))) == "Monday, Wednesday, and Friday"
  {
    WeeklyExampleDays();
    assert "Monday" + ", " == "Monday, ";
    assert "Monday, " + "Wednesday" == "Monday, Wednesday";
    assert "Monday, Wednesday" + ", and " == "Monday, Wednesday, and ";
  }

  /** The weekly example's sentence, put together from its fragments. */
  lemma WeeklySentence()
    ensures ("Repeats " + "weekly") + " " + ("on " + "Monday, Wednesday, and Friday")
            == "Repeats weekly on Monday, Wednesday, and Friday"
  {
    var days := "Monday, Wednesday, and Friday";
    assert ("Repeats " + "weekly") + " " + ("on " + days) == "Repeats weekly on " + days by {
      assert "Repeats " + "weekly" + " " + "on " == "Repeats weekly on ";
    }
    WeeklySentenceTail();
  }

  /** The weekly example's sentence after its opening words. */
  lemma WeeklySentenceTail()
    ensures "Repeats weekly on " + "Monday, Wednesday, and Friday" == "Repeats weekly on Monday, Wednesday, and Friday"
  {
    assert "Monday, Wednesday, and Friday" == "Monday, Wednesday, " + "and Friday";
    assert "Repeats weekly on " + "Monday, Wednesday, " == "Repeats weekly on Monday, Wednesday, ";
  }

  /** The codes of the weekly example all name weekdays. */
  lemma WeeklyCodesNamed()
    ensures forall i :: 0 <= i < |["MO", "WE", "FR"]| ==> DayName(["MO", "WE", "FR"][i]).Some?
  {
  }

  /** The documented weekly rule `FREQ=WEEKLY;BYDAY=MO,WE,FR` reads "Repeats weekly on Monday, Wednesday, and Friday". */
  lemma WeeklyExample(render: DateRenderer)
    ensures RecurrenceText("FREQ=WEEKLY;BYDAY=MO,WE,FR", render)
            == Success("Repeats weekly on Monday, Wednesday, and Friday")
  {
    WeeklyCodes();
    WeeklyRuleText();
    WeeklyLower();
    WeeklyDaysPhrase();
    WeeklySentence();
    WeeklyCodesNamed();
    FrequencyWithDays("WEEKLY", ["MO", "WE", "FR"], render);
  }
}
