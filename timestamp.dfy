/**
 The timestamp written with every measurement: the clock's reading formatted
 as the fixed-width text `YYYY-MM-DD HH:MM:SS`. Because every field is
 zero-padded to a fixed width and the separators sit at fixed places, sorting
 these strings as text sorts them chronologically; `FormatOrder` proves it.
 */
module Timestamp {
  import opened TextOrder

  /** A clock reading, field by field, as the date-time library delivers it. */
  datatype DateTime = DateTime(year: int, month: int, day: int, hour: int, minute: int, second: int)

  /** The ranges the date-time library guarantees for its fields. */
  predicate ValidDateTime(t: DateTime)
  {
    && 1 <= t.year <= 9999
    && 1 <= t.month <= 12
    && 1 <= t.day <= 31
    && 0 <= t.hour < 24
    && 0 <= t.minute < 60
    && 0 <= t.second < 60
  }

  /** Chronological order: `a` is not later than `b`, comparing the fields from the year down. */
  predicate AtOrBefore(a: DateTime, b: DateTime)
  {
    a.year < b.year || (a.year == b.year &&
    (a.month < b.month || (a.month == b.month &&
    (a.day < b.day || (a.day == b.day &&
    (a.hour < b.hour || (a.hour == b.hour &&
    (a.minute < b.minute || (a.minute == b.minute &&
    a.second <= b.second)))))))))
  }

  predicate IsDigit(c: char)
  {
    '0' <= c <= '9'
  }

  /** The value of a digit character. */
  function DigitValue(c: char): int
  {
    c as int - '0' as int
  }

  function DigitChar(d: int): (c: char)
    requires 0 <= d < 10
    ensures IsDigit(c) && c as int == '0' as int + d
    ensures DigitValue(c) == d
  {
    ('0' as int + d) as char
  }

  /** The number a two-character decimal field spells. */
  function Val2(s: string): int
    requires |s| == 2
  {
    10 * DigitValue(s[0]) + DigitValue(s[1])
  }

  /** The number a four-character decimal field spells. */
  function Val4(s: string): int
    requires |s| == 4
  {
    100 * Val2(s[..2]) + Val2(s[2..])
  }

  /** `n` written with exactly two decimal digits, zero-padded. */
  function Pad2(n: int): (s: string)
    requires 0 <= n < 100
    ensures |s| == 2 && IsDigit(s[0]) && IsDigit(s[1])
    ensures Val2(s) == n
  {
    [DigitChar(n / 10), DigitChar(n % 10)]
  }

  /** `n` written with exactly four decimal digits, zero-padded. */
  function Pad4(n: int): (s: string)
    requires 0 <= n < 10000
    ensures |s| == 4 && forall i :: 0 <= i < 4 ==> IsDigit(s[i])
    ensures Val4(s) == n
  {
    var hi, lo := Pad2(n / 100), Pad2(n % 100);
    assert (hi + lo)[..2] == hi && (hi + lo)[2..] == lo;
    hi + lo
  }

  /** The shape `YYYY-MM-DD HH:MM:SS`: digits everywhere except the five separators. */
  predicate IsStampShape(s: string)
  {
    && |s| == 19
    && s[4] == '-' && s[7] == '-' && s[10] == ' ' && s[13] == ':' && s[16] == ':'
    && forall i :: 0 <= i < 19 && i !in {4, 7, 10, 13, 16} ==> IsDigit(s[i])
  }

  /** Reads the six fields back out of a text of the stamp shape. */
  function Parse(s: string): DateTime
    requires IsStampShape(s)
  {
    DateTime(Val4(s[..4]), Val2(s[5..7]), Val2(s[8..10]),
             Val2(s[11..13]), Val2(s[14..16]), Val2(s[17..19]))
  }

  /**
   The text `strftime("%Y-%m-%d %H:%M:%S")` produces for `t`: it has the
   stamp shape, and its fields spell the fields of `t`.
   */
  function Format(t: DateTime): (s: string)
    requires ValidDateTime(t)
    ensures IsStampShape(s)
    ensures Parse(s) == t
  {
    var y, mo, d, h, mi, se := Pad4(t.year), Pad2(t.month), Pad2(t.day), Pad2(t.hour), Pad2(t.minute), Pad2(t.second);
    var s := y + ("-" + (mo + ("-" + (d + (" " + (h + (":" + (mi + (":" + se)))))))));
    assert s[..4] == y && s[5..7] == mo && s[8..10] == d;
    assert s[11..13] == h && s[14..16] == mi && s[17..19] == se;
    s
  }

  /** Distinct clock readings are written as distinct texts. */
  lemma FormatInjective(a: DateTime, b: DateTime)
    requires ValidDateTime(a) && ValidDateTime(b)
    ensures Format(a) == Format(b) <==> a == b
  {
  }

  lemma Pad2Injective(x: int, y: int)
    requires 0 <= x < 100 && 0 <= y < 100
    ensures Pad2(x) == Pad2(y) <==> x == y
  {
  }

  lemma SingleCharOrder(c: char, d: char)
    ensures TextLeq([c], [d]) <==> c <= d
  {
  }

  /** Two-digit fields compare as text exactly as they compare as numbers. */
  lemma Pad2Order(x: int, y: int)
    requires 0 <= x < 100 && 0 <= y < 100
    ensures TextLeq(Pad2(x), Pad2(y)) <==> x <= y
  {
    var a, b := Pad2(x), Pad2(y);
    assert a == [a[0]] + [a[1]] && b == [b[0]] + [b[1]];
    TextLeqConcat([a[0]], [a[1]], [b[0]], [b[1]]);
    SingleCharOrder(a[0], b[0]);
    SingleCharOrder(a[1], b[1]);
    assert x <= y <==> x / 10 < y / 10 || (x / 10 == y / 10 && x % 10 <= y % 10);
  }

  /** Four-digit fields compare as text exactly as they compare as numbers. */
  lemma Pad4Order(x: int, y: int)
    requires 0 <= x < 10000 && 0 <= y < 10000
    ensures TextLeq(Pad4(x), Pad4(y)) <==> x <= y
  {
    TextLeqConcat(Pad2(x / 100), Pad2(x % 100), Pad2(y / 100), Pad2(y % 100));
    Pad2Injective(x / 100, y / 100);
    Pad2Order(x / 100, y / 100);
    Pad2Order(x % 100, y % 100);
    assert x <= y <==> x / 100 < y / 100 || (x / 100 == y / 100 && x % 100 <= y % 100);
  }

  /** A two-digit field followed by more text: the field decides unless it ties. */
  lemma FieldThen(x: int, y: int, r1: string, r2: string)
    requires 0 <= x < 100 && 0 <= y < 100
    ensures TextLeq(Pad2(x) + r1, Pad2(y) + r2) <==> x < y || (x == y && TextLeq(r1, r2))
  {
  }

  /** A shared separator in front of both strings does not change their order. */
  lemma SeparatorThen(sep: string, r1: string, r2: string)
    requires |sep| == 1
    ensures TextLeq(sep + r1, sep + r2) <==> TextLeq(r1, r2)
  {
  }

  /**
   Sorting formatted timestamps as text sorts them chronologically: for any
   two valid clock readings, the text of `a` sorts at or before the text of
   `b` exactly when `a` is at or before `b`.
   */
  lemma FormatOrder(a: DateTime, b: DateTime)
    requires ValidDateTime(a) && ValidDateTime(b)
    ensures TextLeq(Format(a), Format(b)) <==> AtOrBefore(a, b)
  {
    var secA, secB := Pad2(a.second), Pad2(b.second);
    var minA, minB := Pad2(a.minute) + (":" + secA), Pad2(b.minute) + (":" + secB);
    var hourA, hourB := Pad2(a.hour) + (":" + minA), Pad2(b.hour) + (":" + minB);
    var dayA, dayB := Pad2(a.day) + (" " + hourA), Pad2(b.day) + (" " + hourB);
    var monA, monB := Pad2(a.month) + ("-" + dayA), Pad2(b.month) + ("-" + dayB);
    assert Format(a) == Pad4(a.year) + ("-" + monA);
    assert Format(b) == Pad4(b.year) + ("-" + monB);

    Pad2Order(a.second, b.second);
    SeparatorThen(":", secA, secB);
    FieldThen(a.minute, b.minute, ":" + secA, ":" + secB);
    SeparatorThen(":", minA, minB);
    FieldThen(a.hour, b.hour, ":" + minA, ":" + minB);
    SeparatorThen(" ", hourA, hourB);
    FieldThen(a.day, b.day, " " + hourA, " " + hourB);
    SeparatorThen("-", dayA, dayB);
    FieldThen(a.month, b.month, "-" + dayA, "-" + dayB);
    SeparatorThen("-", monA, monB);

    TextLeqConcat(Pad4(a.year), "-" + monA, Pad4(b.year), "-" + monB);
    Pad4Order(a.year, b.year);
    Pad4Order(b.year, a.year);
    if Pad4(a.year) == Pad4(b.year) {
      TextLeqReflexive(Pad4(a.year));
    }
  }
}
