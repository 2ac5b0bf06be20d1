/**
 * The calendar day the rate limiter keys its counts by:
 * `dt_date.today().strftime("%Y-%m-%d")`. The clock itself is a parameter.
 */
module Calendar {
  import opened Decimal

  datatype Date = Date(year: int, month: int, day: int)

  /**
   * The dates this model formats: four-digit years (where `%Y` is padded the
   * same way on every platform), months 1-12 and days 1-31.
   */
  predicate Valid(d: Date) {
    1000 <= d.year <= 9999 && 1 <= d.month <= 12 && 1 <= d.day <= 31
  }

  /** `n` in exactly `width` decimal digits, zero-padded on the left. */
  function Padded(n: nat, width: nat): (s: string)
    ensures |s| == width && AllDigits(s)
    decreases width
  {
    if width == 0 then "" else Padded(n / 10, width - 1) + [DigitChar(n % 10)]
  }

  /** `strftime("%Y-%m-%d")`. */
  function DayString(d: Date): (s: string)
    requires Valid(d)
    ensures |s| == 10 && ':' !in s
  {
    Padded(d.year, 4) + "-" + Padded(d.month, 2) + "-" + Padded(d.day, 2)
  }

  /** `Padded` loses nothing for a number below 10^width. */
  lemma {:induction false} PaddedValue(n: nat, width: nat, bound: nat)
    requires bound == Power10(width) && n < bound
    ensures DigitsValue(Padded(n, width)) == n
    decreases width
  {
    if width > 0 {
      var s := Padded(n, width);
      var prefix := Padded(n / 10, width - 1);
      assert s[..|s| - 1] == prefix;
      PaddedValue(n / 10, width - 1, Power10(width - 1));
    }
  }

  function Power10(k: nat): (p: nat)
    ensures p >= 1
  {
    if k == 0 then 1 else 10 * Power10(k - 1)
  }

  /** Distinct dates give distinct day strings, so comparing strings compares days. */
  lemma DayStringInjective(d1: Date, d2: Date)
    requires Valid(d1) && Valid(d2)
    requires DayString(d1) == DayString(d2)
    ensures d1 == d2
  {
    var s1, s2 := DayString(d1), DayString(d2);
    assert s1[..4] == Padded(d1.year, 4) && s2[..4] == Padded(d2.year, 4);
    assert s1[5..7] == Padded(d1.month, 2) && s2[5..7] == Padded(d2.month, 2);
    assert s1[8..] == Padded(d1.day, 2) && s2[8..] == Padded(d2.day, 2);
    assert Power10(4) == 10000 && Power10(2) == 100;
    PaddedValue(d1.year, 4, 10000);
    PaddedValue(d2.year, 4, 10000);
    PaddedValue(d1.month, 2, 100);
    PaddedValue(d2.month, 2, 100);
    PaddedValue(d1.day, 2, 100);
    PaddedValue(d2.day, 2, 100);
  }
}
