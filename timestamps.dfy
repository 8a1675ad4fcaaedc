/**
 * The lookback bound and what comparing timestamps as strings means.
 *
 * `run` computes `since` as the current time minus thirty days, written by
 * `toISOString` as `YYYY-MM-DDTHH:MM:SS.sssZ` (always with milliseconds), and
 * compares each check's `completed_at` with it as strings. GitHub writes
 * `completed_at` as `YYYY-MM-DDTHH:MM:SSZ`, without milliseconds, so the two
 * strings do not share one layout. `SameShapeOrder` states the string side of
 * section 5.1 of RFC 3339: when two strings have the same layout (the same
 * characters everywhere except that digits may differ), string order is the
 * order of the numbers read from their digits. `IsoBeforeGitHub` applies it to
 * the two layouts the program really compares: their first 19 characters
 * (date and time to the second) share a layout and decide the order, and when
 * they agree, `'.'` sorts before `'Z'`, so a check that completed within the
 * second of `since` counts as later, even when it completed before `since`.
 */
module Timestamps {
  import JsString

  const MsPerSecond := 1000
  const MsPerMinute := 60 * MsPerSecond
  const MsPerHour := 60 * MsPerMinute
  const MsPerDay := 24 * MsPerHour

  /** The instant `since`, in milliseconds, from the current instant `now`: thirty days back, although the comment beside it says 24 hours. */
  function Since(now: int): (since: int)
    ensures now - since == 30 * MsPerDay
    ensures now - since == 2592000000
    ensures since < now - MsPerDay
  {
    now - 24 * 60 * 60 * 1000 * 30
  }

  predicate IsDigit(c: char)
  {
    '0' <= c <= '9'
  }

  /** The layout of a string: every digit replaced by '0', everything else kept. */
  function Shape(s: string): (layout: string)
    ensures |layout| == |s|
    ensures forall i :: 0 <= i < |s| ==> layout[i] == if IsDigit(s[i]) then '0' else s[i]
  {
    if s == [] then [] else [if IsDigit(s[0]) then '0' else s[0]] + Shape(s[1..])
  }

  function DigitCount(s: string): nat
  {
    if s == [] then 0 else (if IsDigit(s[0]) then 1 else 0) + DigitCount(s[1..])
  }

  function Pow10(n: nat): (p: nat)
    ensures p >= 1
  {
    if n == 0 then 1 else 10 * Pow10(n - 1)
  }

  function DigitValue(c: char): (d: nat)
    requires IsDigit(c)
    ensures d <= 9
  {
    c as int - '0' as int
  }

  /** The number written by the digits of `s`, read left to right, other characters skipped. */
  function DigitsValue(s: string): nat
  {
    if s == [] then 0
    else if IsDigit(s[0]) then DigitValue(s[0]) * Pow10(DigitCount(s[1..])) + DigitsValue(s[1..])
    else DigitsValue(s[1..])
  }

  lemma {:induction false} DigitsValueBound(s: string)
    ensures DigitsValue(s) < Pow10(DigitCount(s))
  {
    if s != [] {
      DigitsValueBound(s[1..]);
      if IsDigit(s[0]) {
        var d, p := DigitValue(s[0]), Pow10(DigitCount(s[1..]));
        NextMultiple(d, p);
        MultiplyMonotone(d + 1, 10, p);
      }
    }
  }

  lemma {:induction false} SameShapeSameDigitCount(a: string, b: string)
    requires Shape(a) == Shape(b)
    ensures DigitCount(a) == DigitCount(b)
  {
    if a != [] {
      assert Shape(a[1..]) == Shape(a)[1..] && Shape(b[1..]) == Shape(b)[1..];
      SameShapeSameDigitCount(a[1..], b[1..]);
      assert Shape(a)[0] == Shape(b)[0];
    }
  }

  /** String order on strings of one layout is numeric order on the digits they carry. */
  lemma {:induction false} SameShapeOrder(a: string, b: string)
    requires Shape(a) == Shape(b)
    ensures JsString.Less(a, b) <==> DigitsValue(a) < DigitsValue(b)
  {
    if a != [] {
      assert Shape(a[1..]) == Shape(a)[1..] && Shape(b[1..]) == Shape(b)[1..];
      assert Shape(a)[0] == Shape(b)[0];
      SameShapeSameDigitCount(a[1..], b[1..]);
      if a[0] == b[0] {
        SameShapeOrder(a[1..], b[1..]);
      } else {
        assert IsDigit(a[0]) && IsDigit(b[0]);
        var p := Pow10(DigitCount(a[1..]));
        DigitsValueBound(a[1..]);
        DigitsValueBound(b[1..]);
        var da, db := DigitValue(a[0]), DigitValue(b[0]);
        NextMultiple(da, p);
        NextMultiple(db, p);
        if da < db {
          MultiplyMonotone(da + 1, db, p);
        } else {
          MultiplyMonotone(db + 1, da, p);
        }
      }
    }
  }

  lemma NextMultiple(x: int, p: int)
    ensures (x + 1) * p == x * p + p
  {
  }

  lemma MultiplyMonotone(x: int, y: int, p: nat)
    requires x <= y
    ensures x * p <= y * p
  {
  }

  /** Within one layout, distinct strings carry distinct values: no two different timestamps tie. */
  lemma SameShapeTotal(a: string, b: string)
    requires Shape(a) == Shape(b)
    ensures DigitsValue(a) == DigitsValue(b) <==> a == b
  {
    if a != b {
      JsString.LessTotal(a, b);
      SameShapeOrder(a, b);
      SameShapeOrder(b, a);
    }
  }

  /** The layout `toISOString` writes: milliseconds, then `Z`. */
  const IsoLayout := "0000-00-00T00:00:00.000Z"

  /** The layout in which GitHub reports `completed_at`: whole seconds, then `Z`. */
  const GitHubLayout := "0000-00-00T00:00:00Z"

  /** The length of `YYYY-MM-DDTHH:MM:SS`, the part both layouts share. */
  const SecondsLength: nat := 19

  /** The number written by year, month, day, hour, minute and second, which grows with the second a UTC timestamp denotes. */
  function WholeSeconds(s: string): nat
    requires |s| >= SecondsLength
  {
    DigitsValue(s[..SecondsLength])
  }

  lemma ShapePrefix(s: string, n: nat)
    requires n <= |s|
    ensures Shape(s[..n]) == Shape(s)[..n]
  {
  }

  /**
   * `since < completedAt` as strings, for `since` from `toISOString` and
   * `completedAt` from GitHub, holds exactly when `completedAt` lies in the same
   * second as `since` or a later one: milliseconds are ignored, and a tie
   * within the second counts as later.
   */
  lemma IsoBeforeGitHub(since: string, completedAt: string)
    requires Shape(since) == IsoLayout
    requires Shape(completedAt) == GitHubLayout
    ensures JsString.Less(since, completedAt) <==> WholeSeconds(since) <= WholeSeconds(completedAt)
  {
    var p, q := since[..SecondsLength], completedAt[..SecondsLength];
    ShapePrefix(since, SecondsLength);
    ShapePrefix(completedAt, SecondsLength);
    assert IsoLayout[..SecondsLength] == GitHubLayout[..SecondsLength];
    JsString.LessSplitAt(since, completedAt, SecondsLength);
    if p == q {
      assert Shape(since)[SecondsLength] == '.' && Shape(completedAt)[SecondsLength] == 'Z';
      assert since[SecondsLength..][0] == '.' && completedAt[SecondsLength..][0] == 'Z';
    } else {
      SameShapeOrder(p, q);
      SameShapeTotal(p, q);
    }
  }
}
