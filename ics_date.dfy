/**
 * `formatICSDate`: an RFC 5545 DATE (`YYYYMMDD`, section 3.3.4) or DATE-TIME
 * (`YYYYMMDDTHHMMSS[Z]`, section 3.3.5) value is cut into fields by fixed
 * positions, and the fields are handed to `Date.UTC` and `toLocaleString`.
 * Those two depend on the host's locale and time zone, so the model takes
 * them as a parameter: a `DateRenderer` applied to the sliced fields.
 */
module IcsDate {
  import opened JsText

  /** The fields `formatICSDate` slices out of its argument, as strings. */
  datatype DateFields =
    | DateOnly(year: string, month: string, day: string)
    | DateTime(year: string, month: string, day: string,
               hour: string, minute: string, second: string, utc: bool)

  /** What `new Date(Date.UTC(...)).toLocaleString('en-US', options)` makes of the fields. */
  type DateRenderer = DateFields -> string

  /** The fixed-position slicing of src/ics.js `formatICSDate`; short values give clamped (possibly empty) slices. */
  function DateFieldsOf(icsDate: string): DateFields {
    var isUtc := EndsWith(icsDate, "Z");
    if 'T' in icsDate then
      if |icsDate| >= 15 then
        DateTime(Substring(icsDate, 0, 4), Substring(icsDate, 4, 6), Substring(icsDate, 6, 8),
                 Substring(icsDate, 9, 11), Substring(icsDate, 11, 13), Substring(icsDate, 13, 15), isUtc)
      else
        DateTime(Substring(icsDate, 0, 4), Substring(icsDate, 4, 6), Substring(icsDate, 6, 8),
                 Substring(icsDate, 9, 11), Substring(icsDate, 11, 13), "00", isUtc)
    else
      DateOnly(Substring(icsDate, 0, 4), Substring(icsDate, 4, 6), Substring(icsDate, 6, 8))
  }

  /** `formatICSDate(icsDate)`. */
  function FormatICSDate(icsDate: string, render: DateRenderer): string {
    render(DateFieldsOf(icsDate))
  }

  /** The value is read as a DATE-TIME exactly when it contains a `T`, and then as UTC exactly when it ends with `Z`. */
  lemma DateTimeAndUtcFlags(icsDate: string)
    ensures DateFieldsOf(icsDate).DateTime? <==> 'T' in icsDate
    ensures DateFieldsOf(icsDate).DateTime? ==>
              (DateFieldsOf(icsDate).utc <==> |icsDate| > 0 && icsDate[|icsDate| - 1] == 'Z')
  {
  }

  /** The first eight characters of `s`, or all of it when it is shorter. */
  function Head8(s: string): string {
    if |s| <= 8 then s else s[..8]
  }

  /** A clamped slice that ends by position 8 only looks at the first eight characters. */
  lemma SubstringWithinHead8(s: string, a: nat, b: nat)
    requires a <= b <= 8
    ensures Substring(s, a, b) == Substring(Head8(s), a, b)
  {
    if |s| > 8 {
      var h := s[..8];
      assert Head8(s) == h && |h| == 8;
      assert h[a..b] == s[a..b];
      assert Substring(s, a, b) == s[a..b];
      assert Substring(h, a, b) == h[a..b];
    }
  }

  /** Without a `T`, only positions [0,4), [4,6) and [6,8) matter: two values that agree there give the same fields. */
  lemma DateOnlyReadsFirstEight(s1: string, s2: string)
    requires 'T' !in s1 && 'T' !in s2
    requires Head8(s1) == Head8(s2)
    ensures DateFieldsOf(s1) == DateFieldsOf(s2)
  {
    SubstringWithinHead8(s1, 0, 4);
    SubstringWithinHead8(s2, 0, 4);
    SubstringWithinHead8(s1, 4, 6);
    SubstringWithinHead8(s2, 4, 6);
    SubstringWithinHead8(s1, 6, 8);
    SubstringWithinHead8(s2, 6, 8);
  }

  /**
   * With a `T`, hour is [9,11) and minute [11,13); second is [13,15) when the
   * whole value has at least 15 characters and "00" otherwise.
   */
  lemma DateTimePositions(s: string)
    requires 'T' in s
    ensures DateFieldsOf(s).hour == Substring(s, 9, 11)
    ensures DateFieldsOf(s).minute == Substring(s, 11, 13)
    ensures |s| >= 15 ==> DateFieldsOf(s).second == s[13..15]
    ensures |s| < 15 ==> DateFieldsOf(s).second == "00"
  {
  }

  /** A basic RFC 5545 DATE-TIME `YYYYMMDDTHHMMSS[Z]` yields its digit groups, UTC exactly when `Z` is present. */
  lemma FieldsOfDateTime(date: string, time: string, z: bool)
    requires |date| == 8 && AllDigits(date)
    requires |time| == 6 && AllDigits(time)
    ensures DateFieldsOf(date + "T" + time + (if z then "Z" else ""))
            == DateTime(date[0..4], date[4..6], date[6..8], time[0..2], time[2..4], time[4..6], z)
  {
    var s := date + "T" + time + (if z then "Z" else "");
    assert |s| >= 15 && s[8] == 'T';
    assert EndsWith(s, "Z") == z by {
      assert !z ==> s[|s| - 1] == time[5] && IsDigit(time[5]);
    }
    assert Substring(s, 0, 4) == date[0..4] && Substring(s, 4, 6) == date[4..6] && Substring(s, 6, 8) == date[6..8];
    assert Substring(s, 9, 11) == time[0..2] && Substring(s, 11, 13) == time[2..4] && Substring(s, 13, 15) == time[4..6];
  }

  /** A basic RFC 5545 DATE `YYYYMMDD` yields its digit groups. */
  lemma FieldsOfDate(date: string)
    requires |date| == 8 && AllDigits(date)
    ensures DateFieldsOf(date) == DateOnly(date[0..4], date[4..6], date[6..8])
  {
    assert forall i :: 0 <= i < |date| ==> date[i] != 'T';
  }
}
