/**
 The text form "%Y-%m-%dT%H:%M:%SZ" that every table stores and every SQL comparison reads
 (section 5.1 of RFC 3339: with a fixed width, text order is time order).
 */
module Timestamps {
  import opened Calendar

  function Digit(d: int): char
    requires 0 <= d < 10
  {
    "0123456789"[d]
  }

  function Pow10(width: nat): int {
    if width == 0 then 1 else 10 * Pow10(width - 1)
  }

  function Pad(width: nat, n: int): (s: string)
    ensures |s| == width
  {
    if width == 0 then "" else Pad(width - 1, n / 10) + [Digit(n % 10)]
  }

  /** A number of fixed width and the separator after it. */
  function Field(width: nat, n: int, separator: char): string {
    Pad(width, n) + [separator]
  }

  function Iso(t: int): string {
    var c := CivilOf(DayOf(t));
    var s := t % DAY;
    Field(4, c.year, '-')
    + (Field(2, c.month, '-')
    + (Field(2, c.day, 'T')
    + (Field(2, s / 3600, ':')
    + (Field(2, s / 60 % 60, ':')
    + Field(2, s % 60, 'Z')))))
  }

  /** The four-digit years, where the text has a fixed width. */
  predicate FourDigitYear(t: int) {
    1000 <= YearOf(DayOf(t)) <= 9999
  }

  /** SQLite's BINARY collation on text. */
  predicate TextLess(a: string, b: string) {
    if b == "" then false
    else if a == "" then true
    else if a[0] != b[0] then a[0] < b[0]
    else TextLess(a[1..], b[1..])
  }

  lemma {:induction false} TextLessIrreflexive(a: string)
    ensures !TextLess(a, a)
  {
    if a == "" {
    } else {
      TextLessIrreflexive(a[1..]);
    }
  }

  lemma {:induction false} TextLessAppend(a: string, a': string, b: string, b': string)
    requires |a| == |a'|
    ensures TextLess(a + b, a' + b') <==> TextLess(a, a') || (a == a' && TextLess(b, b'))
  {
    if a == "" {
      assert a + b == b && a' + b' == b';
    } else {
      TextLessAppend(a[1..], a'[1..], b, b');
      assert (a + b)[1..] == a[1..] + b && (a' + b')[1..] == a'[1..] + b';
      assert a == [a[0]] + a[1..] && a' == [a'[0]] + a'[1..];
    }
  }

  lemma DigitOrder(x: int, y: int)
    requires 0 <= x < 10 && 0 <= y < 10
    ensures TextLess([Digit(x)], [Digit(y)]) <==> x < y
    ensures Digit(x) == Digit(y) <==> x == y
  {
  }

  lemma {:induction false} PadOrder(width: nat, x: int, y: int)
    requires 0 <= x < Pow10(width) && 0 <= y < Pow10(width)
    ensures TextLess(Pad(width, x), Pad(width, y)) <==> x < y
    ensures Pad(width, x) == Pad(width, y) <==> x == y
  {
    if width == 0 {
    } else {
      var a, b := Pad(width - 1, x / 10), Pad(width - 1, y / 10);
      PadOrder(width - 1, x / 10, y / 10);
      DigitOrder(x % 10, y % 10);
      TextLessAppend(a, b, [Digit(x % 10)], [Digit(y % 10)]);
      assert Pad(width, x) == Pad(width, y) <==> a == b && Digit(x % 10) == Digit(y % 10) by {
        assert Pad(width, x)[..width - 1] == a && Pad(width, y)[..width - 1] == b;
        assert Pad(width, x)[width - 1] == Digit(x % 10) && Pad(width, y)[width - 1] == Digit(y % 10);
      }
    }
  }

  lemma FieldOrder(width: nat, x: int, y: int, separator: char, b: string, b': string)
    requires 0 <= x < Pow10(width) && 0 <= y < Pow10(width)
    ensures TextLess(Field(width, x, separator) + b, Field(width, y, separator) + b')
       <==> x < y || (x == y && TextLess(b, b'))
  {
    PadOrder(width, x, y);
    TextLessAppend(Field(width, x, separator), Field(width, y, separator), b, b');
    TextLessAppend(Pad(width, x), Pad(width, y), [separator], [separator]);
    TextLessIrreflexive([separator]);
    assert Field(width, x, separator)[..width] == Pad(width, x);
    assert Field(width, y, separator)[..width] == Pad(width, y);
  }

  /** Comparing stored timestamps as text is comparing the instants. */
  lemma IsoOrder(s: int, t: int)
    requires FourDigitYear(s) && FourDigitYear(t)
    ensures TextLess(Iso(s), Iso(t)) <==> s < t
  {
    var c, d := CivilOf(DayOf(s)), CivilOf(DayOf(t));
    var x, y := s % DAY, t % DAY;
    CivilOrder(DayOf(s), DayOf(t));
    assert Pow10(2) == 100 && Pow10(3) == 1000 && Pow10(4) == 10000;
    var x5, y5 := Field(2, x % 60, 'Z'), Field(2, y % 60, 'Z');
    var x4, y4 := Field(2, x / 60 % 60, ':') + x5, Field(2, y / 60 % 60, ':') + y5;
    var x3, y3 := Field(2, x / 3600, ':') + x4, Field(2, y / 3600, ':') + y4;
    assert TextLess(x3, y3) <==> x < y by {
      FieldOrder(2, x % 60, y % 60, 'Z', "", "");
      assert x5 + "" == x5 && y5 + "" == y5;
      FieldOrder(2, x / 60 % 60, y / 60 % 60, ':', x5, y5);
      FieldOrder(2, x / 3600, y / 3600, ':', x4, y4);
      ClockOrder(x, y);
    }
    var x2, y2 := Field(2, c.day, 'T') + x3, Field(2, d.day, 'T') + y3;
    FieldOrder(2, c.day, d.day, 'T', x3, y3);
    FieldOrder(2, c.month, d.month, '-', x2, y2);
    FieldOrder(4, c.year, d.year, '-', Field(2, c.month, '-') + x2, Field(2, d.month, '-') + y2);
  }

  lemma PadNothing()
    ensures Pad(0, 0) == ""
  {
  }

  lemma PadStep(width: nat, n: int, last: int)
    requires 0 <= last < 10
    ensures Pad(width + 1, 10 * n + last) == Pad(width, n) + [Digit(last)]
  {
    assert (10 * n + last) / 10 == n && (10 * n + last) % 10 == last;
  }

  lemma PadTwo(a: int, b: int)
    requires 0 <= a < 10 && 0 <= b < 10
    ensures Pad(2, 10 * a + b) == [Digit(a), Digit(b)]
  {
    hide Pad, Digit;
    PadNothing();
    PadStep(0, 0, a);
    PadStep(1, a, b);
  }

  lemma PadFour(a: int, b: int, c: int, d: int)
    requires 0 <= a < 10 && 0 <= b < 10 && 0 <= c < 10 && 0 <= d < 10
    ensures Pad(4, 10 * (10 * (10 * a + b) + c) + d) == [Digit(a), Digit(b), Digit(c), Digit(d)]
  {
    hide Pad, Digit;
    PadTwo(a, b);
    PadStep(2, 10 * a + b, c);
    PadStep(3, 10 * (10 * a + b) + c, d);
  }

  lemma ClockParts(s: int, h: int, m: int, sec: int)
    requires s == 3600 * h + 60 * m + sec && 0 <= m < 60 && 0 <= sec < 60
    ensures s / 3600 == h && s / 60 % 60 == m && s % 60 == sec
  {
    assert s / 60 == 60 * h + m;
  }

  lemma IsoIs(t: int, day: Civil, h: int, m: int, sec: int)
    requires CivilOf(DayOf(t)) == day && t % DAY == 3600 * h + 60 * m + sec && 0 <= m < 60 && 0 <= sec < 60
    ensures Iso(t) == Field(4, day.year, '-') + (Field(2, day.month, '-') + (Field(2, day.day, 'T')
                      + (Field(2, h, ':') + (Field(2, m, ':') + Field(2, sec, 'Z')))))
  {
    hide Field, CivilOf, DayOf;
    ClockParts(t % DAY, h, m, sec);
  }

  lemma FieldTwo(a: int, b: int, separator: char)
    requires 0 <= a < 10 && 0 <= b < 10
    ensures Field(2, 10 * a + b, separator) == [Digit(a), Digit(b), separator]
  {
    hide Pad, Digit;
    PadTwo(a, b);
  }

  lemma FieldFour(a: int, b: int, c: int, d: int)
    requires 0 <= a < 10 && 0 <= b < 10 && 0 <= c < 10 && 0 <= d < 10
    ensures Field(4, 10 * (10 * (10 * a + b) + c) + d, '-') == [Digit(a), Digit(b), Digit(c), Digit(d), '-']
  {
    hide Pad, Digit;
    PadFour(a, b, c, d);
  }

  lemma Epoch()
    ensures Iso(0) == "1970-01-01T00:00:00Z"
  {
    hide Field, Iso, CivilOf, DayOf;
    KnownDays();
    IsoIs(0, Civil(1970, 1, 1), 0, 0, 0);
    FieldFour(1, 9, 7, 0);
    FieldTwo(0, 1, '-');
    FieldTwo(0, 1, 'T');
    FieldTwo(0, 0, ':');
    FieldTwo(0, 0, 'Z');
  }

  lemma LeapDay()
    ensures Iso(951868799) == "2000-02-29T23:59:59Z"
  {
    hide Field, Iso, CivilOf, DayOf;
    KnownDays();
    IsoIs(951868799, Civil(2000, 2, 29), 23, 59, 59);
    FieldFour(2, 0, 0, 0);
    FieldTwo(0, 2, '-');
    FieldTwo(2, 9, 'T');
    FieldTwo(2, 3, ':');
    FieldTwo(5, 9, ':');
    FieldTwo(5, 9, 'Z');
  }

  /** Two known texts. */
  lemma KnownTexts()
    ensures Iso(0) == "1970-01-01T00:00:00Z" && Iso(951868799) == "2000-02-29T23:59:59Z"
  {
    hide Iso;
    Epoch();
    LeapDay();
  }

  lemma ClockOrder(x: int, y: int)
    requires 0 <= x < DAY && 0 <= y < DAY
    ensures x < y <==> (|| x / 3600 < y / 3600
                        || (x / 3600 == y / 3600 && x / 60 % 60 < y / 60 % 60)
                        || (x / 3600 == y / 3600 && x / 60 % 60 == y / 60 % 60 && x % 60 < y % 60))
  {
    assert x == 3600 * (x / 3600) + 60 * (x / 60 % 60) + x % 60;
    assert y == 3600 * (y / 3600) + 60 * (y / 60 % 60) + y % 60;
  }
}
