/**
 * The per-client rate record kept in the counter store: the pair of a calendar
 * day and a request count, stored as the single string "day:count".
 */
module RateRecord {
  import opened Wrappers
  import opened Decimal

  datatype Record = Record(day: string, count: nat)

  /** Python's `s.split(sep)`: the pieces between occurrences of `sep`, empty pieces kept. */
  function Split(s: string, sep: char): (parts: seq<string>)
    ensures |parts| >= 1
    ensures forall i :: 0 <= i < |parts| ==> sep !in parts[i]
    decreases |s|
  {
    if s == [] then [""]
    else if s[0] == sep then [""] + Split(s[1..], sep)
    else
      var rest := Split(s[1..], sep);
      [[s[0]] + rest[0]] + rest[1..]
  }

  /** A string without the separator is a single piece. */
  lemma {:induction false} SplitWithout(s: string, sep: char)
    requires sep !in s
    ensures Split(s, sep) == [s]
    decreases |s|
  {
    if s != [] {
      assert sep !in s[1..];
      SplitWithout(s[1..], sep);
      assert [s[0]] + s[1..] == s;
    }
  }

  /** A separator-free head is split off as the first piece. */
  lemma {:induction false} SplitAfter(head: string, sep: char, tail: string)
    requires sep !in head
    ensures Split(head + [sep] + tail, sep) == [head] + Split(tail, sep)
    decreases |head|
  {
    var s := head + [sep] + tail;
    if head == [] {
      assert s[1..] == tail;
    } else {
      assert s[1..] == head[1..] + [sep] + tail;
      assert sep !in head[1..];
      SplitAfter(head[1..], sep, tail);
      assert [head[0]] + head[1..] == head;
    }
  }

  /** `f"{day}:{count}"` (src/main.py:75, 83, 85). */
  function Format(r: Record): string {
    r.day + ":" + NatToString(r.count)
  }

  /**
   * `date, count = res.split(":")` followed by `count = int(count)`
   * (src/main.py:78-80); `None` stands for the `ValueError` raised when the
   * value does not have exactly two pieces or the count is not a number.
   */
  function Parse(raw: string): (r: Option<Record>)
    ensures r.Some? ==> ':' !in r.value.day
  {
    var parts := Split(raw, ':');
    if |parts| != 2 then None
    else match ParseNat(parts[1])
      case None => None
      case Some(n) => Some(Record(parts[0], n))
  }

  /** Parsing a written record gives the record back, for a colon-free day. */
  lemma RoundTrip(r: Record)
    requires ':' !in r.day
    ensures Parse(Format(r)) == Some(r)
  {
    var digits := NatToString(r.count);
    SplitAfter(r.day, ':', digits);
    SplitWithout(digits, ':');
    assert Format(r) == r.day + [':'] + digits;
    ParseNatToString(r.count);
  }

  /** Records with colon-free days are written to distinct strings. */
  lemma FormatInjective(r1: Record, r2: Record)
    requires ':' !in r1.day && ':' !in r2.day
    requires Format(r1) == Format(r2)
    ensures r1 == r2
  {
    RoundTrip(r1);
    RoundTrip(r2);
  }
}
