/**
 * The JavaScript string built-ins that src/ics.js relies on, as functions on
 * `string`. A Dafny `char` is a Unicode scalar value, not a UTF-16 code unit:
 * positions and lengths here agree with JavaScript's only on text without
 * characters outside the Basic Multilingual Plane, where each character is
 * one code unit.
 */
module JsText {
  import opened Wrappers

  /** `s.indexOf(c)` for a one-character search string: the first position of `c`, or -1. */
  function IndexOf(s: string, c: char): (r: int)
    ensures -1 <= r < |s|
    ensures r == -1 <==> c !in s
    ensures 0 <= r ==> s[r] == c && c !in s[..r]
  {
    if |s| == 0 then -1
    else if s[0] == c then 0
    else
      var k := IndexOf(s[1..], c);
      if k < 0 then -1
      else
        assert s[..k + 1] == [s[0]] + s[1..][..k];
        k + 1
  }

  /** `s.lastIndexOf(c)` for a one-character search string: the last position of `c`, or -1. */
  function LastIndexOf(s: string, c: char): (r: int)
    ensures -1 <= r < |s|
    ensures r == -1 <==> c !in s
    ensures 0 <= r ==> s[r] == c && c !in s[r + 1..]
  {
    if |s| == 0 then -1
    else if s[|s| - 1] == c then |s| - 1
    else
      var k := LastIndexOf(s[..|s| - 1], c);
      LastIndexOfExtend(s[..|s| - 1], s[|s| - 1], c, k);
      assert s == s[..|s| - 1] + [s[|s| - 1]];
      k
  }

  /** A last occurrence in `t` stays the last one once a different character is appended. */
  lemma LastIndexOfExtend(t: string, x: char, c: char, k: int)
    requires x != c && -1 <= k < |t|
    requires k == -1 <==> c !in t
    requires 0 <= k ==> t[k] == c && c !in t[k + 1..]
    ensures k == -1 <==> c !in t + [x]
    ensures 0 <= k ==> (t + [x])[k] == c && c !in (t + [x])[k + 1..]
  {
    if k >= 0 {
      assert (t + [x])[k + 1..] == t[k + 1..] + [x];
    }
  }

  /** An index bound clamped into [0, n], as `substring` treats its arguments. */
  function Clamp(x: int, n: nat): (r: nat)
    ensures r <= n
    ensures 0 <= x <= n ==> r == x
  {
    if x < 0 then 0 else if x > n then n else x
  }

  /**
   * `s.substring(start, end)`: both bounds are clamped into [0, |s|] and then
   * taken in increasing order, so out-of-range positions never fail.
   */
  function Substring(s: string, start: int, end: int): (r: string)
    ensures |r| <= |s|
    ensures 0 <= start <= end <= |s| ==> r == s[start..end]
    ensures start <= end ==> |r| == Clamp(end, |s|) - Clamp(start, |s|)
  {
    var a := Clamp(start, |s|);
    var b := Clamp(end, |s|);
    if a <= b then s[a..b] else s[b..a]
  }

  /** `s.startsWith(p)`. */
  predicate StartsWith(s: string, p: string) {
    |p| <= |s| && s[..|p|] == p
  }

  /** `s.endsWith(p)`. */
  predicate EndsWith(s: string, p: string) {
    |p| <= |s| && s[|s| - |p|..] == p
  }

  /** `xs.join(sep)` on an array of strings. */
  function Join(xs: seq<string>, sep: string): string {
    if |xs| == 0 then ""
    else if |xs| == 1 then xs[0]
    else xs[0] + sep + Join(xs[1..], sep)
  }

  /** Joining one more piece adds the separator and the piece at the end. */
  lemma {:induction false} JoinSnoc(xs: seq<string>, x: string, sep: string)
    requires |xs| >= 1
    ensures Join(xs + [x], sep) == Join(xs, sep) + sep + x
  {
    if |xs| > 1 {
      assert (xs + [x])[1..] == xs[1..] + [x];
      JoinSnoc(xs[1..], x, sep);
    }
  }

  /**
   * `s.split(sep)` for a one-character separator: the pieces between separators,
   * at least one (an empty `s` gives [""]); joining them back gives `s`.
   */
  function Split(s: string, sep: char): (r: seq<string>)
    ensures |r| >= 1
    ensures forall i :: 0 <= i < |r| ==> sep !in r[i]
    ensures Join(r, [sep]) == s
    decreases |s|
  {
    var k := IndexOf(s, sep);
    if k < 0 then [s]
    else
      var rest := Split(s[k + 1..], sep);
      assert ([s[..k]] + rest)[1..] == rest;
      assert s == s[..k] + [sep] + s[k + 1..];
      [s[..k]] + rest
  }

  /** `IndexOf` finds the position `k` exactly when `c` stands at `k` and nowhere before it. */
  lemma {:induction false} IndexOfIsFirst(s: string, c: char, k: nat)
    requires k < |s| && s[k] == c && c !in s[..k]
    ensures IndexOf(s, c) == k
  {
    if k > 0 {
      assert s[0] == s[..k][0];
      assert s[1..][..k - 1] == s[1..k] && s[..k] == [s[0]] + s[1..k];
      IndexOfIsFirst(s[1..], c, k - 1);
    }
  }

  /** The first occurrence of `c` in `a + [c] + b` is the one after `a`, when `a` has none. */
  lemma IndexOfAfterPrefix(a: string, c: char, b: string)
    requires c !in a
    ensures IndexOf(a + [c] + b, c) == |a|
  {
    var s := a + [c] + b;
    assert s[..|a|] == a;
    IndexOfIsFirst(s, c, |a|);
  }

  /** Splitting undoes joining, for pieces free of the separator. */
  lemma {:induction false} SplitJoin(xs: seq<string>, sep: char)
    requires |xs| >= 1
    requires forall i :: 0 <= i < |xs| ==> sep !in xs[i]
    ensures Split(Join(xs, [sep]), sep) == xs
  {
    if |xs| > 1 {
      var tail := Join(xs[1..], [sep]);
      assert Join(xs, [sep]) == xs[0] + [sep] + tail;
      SplitAtFirst(xs[0], tail, sep);
      SplitJoin(xs[1..], sep);
      assert [xs[0]] + xs[1..] == xs;
    } else {
      assert sep !in xs[0];
    }
  }

  /** Splitting `head`, the separator and `tail`, with no separator in `head`, gives `head` and the pieces of `tail`. */
  lemma SplitAtFirst(head: string, tail: string, sep: char)
    requires sep !in head
    ensures Split(head + [sep] + tail, sep) == [head] + Split(tail, sep)
  {
    var s := head + [sep] + tail;
    IndexOfAfterPrefix(head, sep, tail);
    assert s[|head| + 1..] == tail;
    assert s[..|head|] == head;
  }

  /** Joining two non-empty lists puts one separator between their joins. */
  lemma {:induction false} JoinConcat(xs: seq<string>, ys: seq<string>, sep: string)
    requires |xs| >= 1 && |ys| >= 1
    ensures Join(xs + ys, sep) == Join(xs, sep) + sep + Join(ys, sep)
  {
    if |xs| > 1 {
      assert (xs + ys)[1..] == xs[1..] + ys;
      JoinConcat(xs[1..], ys, sep);
      var a, b, c := Join(xs[1..], sep), Join(ys, sep), xs[0];
      assert c + sep + (a + sep + b) == (c + sep + a) + sep + b;
    } else {
      assert (xs + ys)[1..] == ys;
    }
  }

  /** Splitting at a separator splits each side on its own: `(a + sep + b).split(sep)` is `a.split(sep)` then `b.split(sep)`. */
  lemma SplitConcat(a: string, b: string, sep: char)
    ensures Split(a + [sep] + b, sep) == Split(a, sep) + Split(b, sep)
  {
    var xs, ys := Split(a, sep), Split(b, sep);
    JoinConcat(xs, ys, [sep]);
    assert forall i :: 0 <= i < |xs + ys| ==> sep !in (xs + ys)[i] by {
      forall i | 0 <= i < |xs + ys|
        ensures sep !in (xs + ys)[i]
      {
        if i < |xs| {
          assert (xs + ys)[i] == xs[i];
        } else {
          assert (xs + ys)[i] == ys[i - |xs|];
        }
      }
    }
    SplitJoin(xs + ys, sep);
  }

  /** A character found in neither the pieces nor the separator is not in their join. */
  lemma {:induction false} JoinExcludes(xs: seq<string>, sep: string, c: char)
    requires c !in sep
    requires forall i :: 0 <= i < |xs| ==> c !in xs[i]
    ensures c !in Join(xs, sep)
  {
    if |xs| > 1 {
      JoinExcludes(xs[1..], sep, c);
      assert c !in xs[0];
    } else if |xs| == 1 {
      assert c !in xs[0];
    }
  }

  /** Whether `pat` occurs in `s` starting at position `i`. */
  predicate OccursAt(s: string, pat: string, i: int) {
    0 <= i && i + |pat| <= |s| && s[i..i + |pat|] == pat
  }

  /**
   * `s.replace(/pat/g, rep)` for a literal pattern: occurrences are found left to
   * right and do not overlap; the text between them is copied unchanged.
   */
  function ReplaceAll(s: string, pat: string, rep: string): (r: string)
    requires |pat| > 0
    ensures pat[0] !in s ==> r == s
    ensures |rep| <= |pat| ==> |r| <= |s|
    decreases |s|
  {
    if |s| < |pat| then s
    else if s[..|pat|] == pat then
      assert s[0] == pat[0];
      rep + ReplaceAll(s[|pat|..], pat, rep)
    else
      var rest := ReplaceAll(s[1..], pat, rep);
      assert pat[0] !in s ==> pat[0] !in s[1..];
      assert s == [s[0]] + s[1..];
      [s[0]] + rest
  }
  /** `ReplaceAll` on a string that starts with the pattern. */
  lemma ReplaceAllMatch(s: string, pat: string, rep: string)
    requires |pat| > 0 && |s| >= |pat| && s[..|pat|] == pat
    ensures ReplaceAll(s, pat, rep) == rep + ReplaceAll(s[|pat|..], pat, rep)
  {
  }

  /** `ReplaceAll` on a string that does not start with the pattern. */
  lemma ReplaceAllSkip(s: string, pat: string, rep: string)
    requires |pat| > 0 && |s| >= |pat| && s[..|pat|] != pat
    ensures ReplaceAll(s, pat, rep) == [s[0]] + ReplaceAll(s[1..], pat, rep)
  {
  }

  /** Text holding no first character of the pattern passes through a replace-all pass untouched, whatever follows it. */
  lemma {:induction false} ReplaceAllPlainPrefix(a: string, b: string, pat: string, rep: string)
    requires |pat| > 0 && pat[0] !in a
    ensures ReplaceAll(a + b, pat, rep) == a + ReplaceAll(b, pat, rep)
    decreases |a|
  {
    if |a| > 0 {
      var s := a + b;
      if |s| >= |pat| {
        assert s[..|pat|][0] == a[0] != pat[0];
        ReplaceAllSkip(s, pat, rep);
        assert s[1..] == a[1..] + b;
        ReplaceAllPlainPrefix(a[1..], b, pat, rep);
        calc {
          ReplaceAll(s, pat, rep);
          [a[0]] + ReplaceAll(a[1..] + b, pat, rep);
          [a[0]] + (a[1..] + ReplaceAll(b, pat, rep));
          { assert a == [a[0]] + a[1..]; }
          a + ReplaceAll(b, pat, rep);
        }
      } else {
        assert ReplaceAll(s, pat, rep) == s && ReplaceAll(b, pat, rep) == b;
      }
    } else {
      assert a + b == b;
    }
  }

  /** One occurrence of the pattern, after text without its first character and before text the pass keeps, is the only change. */
  lemma ReplaceAllOnce(a: string, b: string, pat: string, rep: string)
    requires |pat| > 0 && pat[0] !in a && ReplaceAll(b, pat, rep) == b
    ensures ReplaceAll(a + pat + b, pat, rep) == a + rep + b
  {
    assert a + pat + b == a + (pat + b);
    ReplaceAllPlainPrefix(a, pat + b, pat, rep);
    assert (pat + b)[..|pat|] == pat && (pat + b)[|pat|..] == b;
    ReplaceAllMatch(pat + b, pat, rep);
  }

  /** The pattern's first character followed by anything but its second, and then text without that first character, is kept. */
  lemma ReplaceAllNearMiss(x: char, c: string, pat: string, rep: string)
    requires |pat| == 2 && x != pat[1] && x != pat[0] && pat[0] !in c
    ensures ReplaceAll([pat[0], x] + c, pat, rep) == [pat[0], x] + c
  {
    var t := [pat[0], x] + c;
    assert t[..2][1] == x;
    ReplaceAllSkip(t, pat, rep);
    assert t[1..] == [x] + c;
    assert pat[0] !in t[1..];
  }

  /**
   * A two-character pattern written once, followed later by its first
   * character paired with another one: only the written pattern is replaced.
   */
  lemma ReplaceAllOnceBeforeNearMiss(a: string, b: string, x: char, c: string, pat: string, rep: string)
    requires |pat| == 2 && x != pat[0] && x != pat[1]
    requires pat[0] !in a && pat[0] !in b && pat[0] !in c
    ensures ReplaceAll(a + pat + b + [pat[0], x] + c, pat, rep) == a + rep + b + [pat[0], x] + c
  {
    var t := [pat[0], x] + c;
    ReplaceAllNearMiss(x, c, pat, rep);
    ReplaceAllPlainPrefix(b, t, pat, rep);
    ReplaceAllOnce(a, b + t, pat, rep);
    assert a + pat + b + [pat[0], x] + c == a + pat + (b + t);
    assert a + rep + b + [pat[0], x] + c == a + rep + (b + t);
  }

  /** The result of a replace-all pass no longer contains the pattern, when the replacement cannot form it. */
  lemma {:induction false} ReplaceAllRemovesPattern(s: string, a: char, b: char, c: char, i: int)
    requires c != a && c != b
    requires 0 <= i
    ensures !OccursAt(ReplaceAll(s, [a, b], [c]), [a, b], i)
    decreases |s|
  {
    var pat := [a, b];
    var r := ReplaceAll(s, pat, [c]);
    if |s| < 2 {
      assert r == s;
    } else if s[..2] == pat {
      var rest := ReplaceAll(s[2..], pat, [c]);
      assert r == [c] + rest;
      if i >= 1 {
        ReplaceAllRemovesPattern(s[2..], a, b, c, i - 1);
        if i + 2 <= |r| {
          assert r[i..i + 2] == rest[i - 1..i + 1];
        }
      } else {
        assert r[0] == c;
      }
    } else {
      var rest := ReplaceAll(s[1..], pat, [c]);
      assert r == [s[0]] + rest;
      if i >= 1 {
        ReplaceAllRemovesPattern(s[1..], a, b, c, i - 1);
        if i + 2 <= |r| {
          assert r[i..i + 2] == rest[i - 1..i + 1];
        }
      } else {
        // after an unmatched `a` comes either the replacement or the input's next character, never `b`
        assert s[..2] == [s[0], s[1]];
        ReplaceAllFirst(s[1..], pat, [c]);
        assert r[0] == s[0] && r[1] == rest[0];
      }
    }
  }

  /** The first character of a replace-all result: the replacement's, or the input's own. */
  lemma ReplaceAllFirst(s: string, pat: string, rep: string)
    requires |pat| > 0 && |rep| > 0 && |s| > 0
    ensures |ReplaceAll(s, pat, rep)| > 0
    ensures ReplaceAll(s, pat, rep)[0] == rep[0] || ReplaceAll(s, pat, rep)[0] == s[0]
  {
  }

  /** Lower-cases one character if it is an ASCII letter. */
  function LowerChar(c: char): char {
    if 'A' <= c <= 'Z' then (c as int + 32) as char else c
  }

  /** `s.toLowerCase()` on the ASCII letters; every other character is kept. */
  function ToLowerAscii(s: string): (r: string)
    ensures |r| == |s|
  {
    seq(|s|, i requires 0 <= i < |s| => LowerChar(s[i]))
  }

  predicate IsDigit(c: char) {
    '0' <= c <= '9'
  }

  predicate AllDigits(s: string) {
    forall i :: 0 <= i < |s| ==> IsDigit(s[i])
  }

  function DigitChar(d: nat): (c: char)
    requires d < 10
    ensures IsDigit(c)
  {
    ('0' as int + d) as char
  }

  function DigitValue(c: char): (d: nat)
    requires IsDigit(c)
    ensures d < 10
  {
    c as int - '0' as int
  }

  /** The value of a string of decimal digits. */
  function DigitsValue(ds: string): nat
    requires AllDigits(ds)
    decreases |ds|
  {
    if |ds| == 0 then 0 else DigitsValue(ds[..|ds| - 1]) * 10 + DigitValue(ds[|ds| - 1])
  }

  /** The decimal spelling of a natural number, without leading zeros. */
  function NatToString(n: nat): (r: string)
    ensures |r| >= 1 && AllDigits(r)
    decreases n
  {
    if n < 10 then [DigitChar(n)] else NatToString(n / 10) + [DigitChar(n % 10)]
  }

  /** `String(n)` (also `n + ""`) for an integer-valued number. */
  function IntToString(n: int): (r: string)
    ensures |r| >= 1
  {
    if n < 0 then "-" + NatToString(-n) else NatToString(n)
  }

  /** Reading back the digits of `NatToString(n)` gives `n`. */
  lemma {:induction false} NatToStringValue(n: nat)
    ensures DigitsValue(NatToString(n)) == n
    decreases n
  {
    if n >= 10 {
      var s := NatToString(n);
      NatToStringValue(n / 10);
      assert s[..|s| - 1] == NatToString(n / 10);
    }
  }

  /** The longest prefix of `s` made of decimal digits. */
  function DigitPrefix(s: string): (r: string)
    ensures |r| <= |s| && r == s[..|r|]
    ensures AllDigits(r)
    ensures |r| == |s| || !IsDigit(s[|r|])
  {
    if |s| == 0 || !IsDigit(s[0]) then ""
    else
      var t := DigitPrefix(s[1..]);
      [s[0]] + t
  }

  predicate IsHexDigit(c: char) {
    IsDigit(c) || 'a' <= c <= 'f' || 'A' <= c <= 'F'
  }

  predicate AllHexDigits(s: string) {
    forall i :: 0 <= i < |s| ==> IsHexDigit(s[i])
  }

  function HexDigitValue(c: char): (d: nat)
    requires IsHexDigit(c)
    ensures d < 16
  {
    if IsDigit(c) then DigitValue(c)
    else if 'a' <= c <= 'f' then c as int - 'a' as int + 10
    else c as int - 'A' as int + 10
  }

  /** The value of a string of hexadecimal digits. */
  function HexValue(hs: string): nat
    requires AllHexDigits(hs)
    decreases |hs|
  {
    if |hs| == 0 then 0 else HexValue(hs[..|hs| - 1]) * 16 + HexDigitValue(hs[|hs| - 1])
  }

  /** The longest prefix of `s` made of hexadecimal digits. */
  function HexPrefix(s: string): (r: string)
    ensures |r| <= |s| && r == s[..|r|]
    ensures AllHexDigits(r)
    ensures |r| == |s| || !IsHexDigit(s[|r|])
  {
    if |s| == 0 || !IsHexDigit(s[0]) then ""
    else
      var t := HexPrefix(s[1..]);
      [s[0]] + t
  }

  /** ECMAScript's StrWhiteSpaceChar: the white space and line terminators `parseInt` skips. */
  predicate IsJsWhiteSpace(c: char) {
    var k := c as int;
    k == 0x09 || k == 0x0A || k == 0x0B || k == 0x0C || k == 0x0D || k == 0x20 || k == 0xA0
    || k == 0x1680 || (0x2000 <= k <= 0x200A) || k == 0x2028 || k == 0x2029
    || k == 0x202F || k == 0x205F || k == 0x3000 || k == 0xFEFF
  }

  /** `s` without its leading white space. */
  function TrimStart(s: string): (r: string)
    ensures |r| <= |s| && r == s[|s| - |r|..]
    ensures |r| == 0 || !IsJsWhiteSpace(r[0])
  {
    if |s| > 0 && IsJsWhiteSpace(s[0]) then TrimStart(s[1..]) else s
  }

  /**
   * `parseInt(s)` with no radix: leading white space skipped, an optional sign,
   * then the digits read by `ParseMagnitude`; `None` stands for NaN.
   */
  function ParseInt(s: string): Option<int> {
    ParseSigned(TrimStart(s))
  }

  /** `parseInt` after the white space: an optional `+` or `-`, then the magnitude. */
  function ParseSigned(t: string): Option<int> {
    var negative := |t| > 0 && t[0] == '-';
    var u := if |t| > 0 && (t[0] == '-' || t[0] == '+') then t[1..] else t;
    match ParseMagnitude(u)
    case None => None
    case Some(v) => Some(if negative then -(v as int) else v)
  }

  /**
   * The unsigned part of `parseInt`: a `0x`/`0X` prefix selects hexadecimal, then
   * the longest run of digits is read and anything after it is ignored; `None`
   * when there is no digit at all.
   */
  function ParseMagnitude(u: string): Option<nat> {
    if |u| >= 2 && u[0] == '0' && (u[1] == 'x' || u[1] == 'X') then
      var hs := HexPrefix(u[2..]);
      if |hs| == 0 then None else Some(HexValue(hs))
    else
      var ds := DigitPrefix(u);
      if |ds| == 0 then None else Some(DigitsValue(ds))
  }

  /** The digit prefix of an all-digit string is the whole string. */
  lemma {:induction false} DigitPrefixOfDigits(s: string)
    requires AllDigits(s)
    ensures DigitPrefix(s) == s
  {
    if |s| > 0 {
      DigitPrefixOfDigits(s[1..]);
    }
  }

  /** `parseInt` reads a run of decimal digits as its value. */
  lemma ParseIntOfDigits(ds: string)
    requires |ds| >= 1 && AllDigits(ds)
    ensures ParseInt(ds) == Some(DigitsValue(ds))
  {
    assert IsDigit(ds[0]);
    ParseIntWithoutSpace(ds);
    ParseSignedDigits(ds);
  }

  /** `parseInt(String(n))` gives back `n`. */
  lemma ParseIntOfNatToString(n: nat)
    ensures ParseInt(NatToString(n)) == Some(n)
  {
    ParseIntOfDigits(NatToString(n));
    NatToStringValue(n);
  }

  /** `parseInt("-" + String(n))` gives back `-n`. */
  lemma ParseIntOfMinusNatToString(n: nat)
    ensures ParseInt("-" + NatToString(n)) == Some(-(n as int))
  {
    var t := "-" + NatToString(n);
    assert t[1..] == NatToString(n);
    MagnitudeOfNatToString(n);
    ParseIntWithoutSpace(t);
    ParseSignedNegative(t, n);
  }

  /** The magnitude read from `String(n)` is `n`. */
  lemma MagnitudeOfNatToString(n: nat)
    ensures ParseMagnitude(NatToString(n)) == Some(n)
  {
    MagnitudeOfDigits(NatToString(n));
    NatToStringValue(n);
  }

  lemma ParseSignedNegative(t: string, v: nat)
    requires |t| > 0 && t[0] == '-' && ParseMagnitude(t[1..]) == Some(v)
    ensures ParseSigned(t) == Some(-(v as int))
  {
  }

  lemma ParseSignedDigits(ds: string)
    requires |ds| >= 1 && AllDigits(ds)
    ensures ParseSigned(ds) == Some(DigitsValue(ds))
  {
    assert IsDigit(ds[0]);
    MagnitudeOfDigits(ds);
  }

  /** Nothing is trimmed from a string that starts with a sign or a digit. */
  lemma ParseIntWithoutSpace(s: string)
    requires |s| > 0 && (s[0] == '-' || IsDigit(s[0]))
    ensures ParseInt(s) == ParseSigned(s)
  {
    TrimStartNoSpace(s);
  }

  /** The magnitude read from a run of decimal digits is their value. */
  lemma MagnitudeOfDigits(ds: string)
    requires |ds| >= 1 && AllDigits(ds)
    ensures ParseMagnitude(ds) == Some(DigitsValue(ds))
  {
    assert |ds| >= 2 ==> IsDigit(ds[1]);
    DigitPrefixOfDigits(ds);
  }

  /** A string whose first character is a sign or a digit has no leading white space to trim. */
  lemma TrimStartNoSpace(s: string)
    requires |s| > 0 && (s[0] == '-' || IsDigit(s[0]))
    ensures TrimStart(s) == s
  {
    assert !IsJsWhiteSpace(s[0]);
  }

  /** `parseInt(String(n)) == n`: the decimal spelling of an integer reads back as that integer. */
  lemma ParseIntOfIntToString(n: int)
    ensures ParseInt(IntToString(n)) == Some(n)
  {
    if n < 0 {
      var m: nat := -n;
      assert IntToString(n) == "-" + NatToString(m);
      ParseIntOfMinusNatToString(m);
    } else {
      var m: nat := n;
      assert IntToString(n) == NatToString(m);
      ParseIntOfNatToString(m);
    }
  }
}
