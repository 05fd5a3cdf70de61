/** Output file naming: the local time rendered as `%Y%m%d_%H%M%S` and the
    JPEG path built from it. The clock read itself is not modelled; the
    broken-down time is a parameter. */
module Timestamp {

  import opened Types

  /** A broken-down local time, with the full year and the month from 1. */
  datatype DateTime = DateTime(year: int, month: int, day: int, hour: int, minute: int, second: int)

  /** Field ranges of a local time whose year has four digits (a second of 60 is a leap second). */
  predicate ValidTime(t: DateTime)
  {
    1000 <= t.year <= 9999 && 1 <= t.month <= 12 && 1 <= t.day <= 31 &&
    0 <= t.hour <= 23 && 0 <= t.minute <= 59 && 0 <= t.second <= 60
  }

  predicate IsDigit(c: char)
  {
    '0' <= c <= '9'
  }

  predicate AllDigits(s: string)
  {
    forall i :: 0 <= i < |s| ==> IsDigit(s[i])
  }

  function Digit(d: int): (c: char)
    requires 0 <= d < 10
    ensures IsDigit(c)
  {
    ('0' as int + d) as char
  }

  function DigitValue(c: char): (d: int)
    requires IsDigit(c)
    ensures 0 <= d < 10 && Digit(d) == c
  {
    c as int - '0' as int
  }

  function Pow10(n: nat): (p: nat)
    ensures p >= 1
  {
    if n == 0 then 1 else 10 * Pow10(n - 1)
  }

  /** `n` in decimal, zero-padded on the left to exactly `width` digits. */
  function Padded(n: nat, width: nat): (s: string)
    requires n < Pow10(width)
    ensures |s| == width && AllDigits(s)
  {
    if width == 0 then [] else Padded(n / 10, width - 1) + [Digit(n % 10)]
  }

  /** The number a string of decimal digits denotes. */
  function Value(s: string): nat
    requires AllDigits(s)
  {
    if s == [] then 0 else 10 * Value(s[..|s| - 1]) + DigitValue(s[|s| - 1])
  }

  /** Reading a padded number back gives the number. */
  lemma {:induction false} ValueOfPadded(n: nat, width: nat)
    requires n < Pow10(width)
    ensures Value(Padded(n, width)) == n
  {
    if width > 0 {
      var s := Padded(n, width);
      assert s[..|s| - 1] == Padded(n / 10, width - 1);
      ValueOfPadded(n / 10, width - 1);
    }
  }

  /** Padding the value of a digit string to its own length gives the string back. */
  lemma {:induction false} PaddedOfValue(s: string, width: nat)
    requires AllDigits(s) && |s| == width
    ensures Value(s) < Pow10(width) && Padded(Value(s), width) == s
  {
    if s != [] {
      var p := s[..|s| - 1];
      PaddedOfValue(p, width - 1);
      var v := Value(s);
      assert v / 10 == Value(p) && v % 10 == DigitValue(s[|s| - 1]);
      assert s == p + [s[|s| - 1]];
    }
  }

  /** The three pieces of a three-part concatenation. */
  lemma Pieces(x: string, y: string, z: string)
    ensures (x + y + z)[..|x|] == x && (x + y + z)[|x|..|x| + |y|] == y
    ensures (x + y + z)[|x| + |y|..] == z
  {
    assert (x + y + z)[..|x| + |y|] == x + y;
  }

  /** A string cut in two places is the concatenation of its pieces. */
  lemma Cut(s: string, i: nat, j: nat)
    requires i <= j <= |s|
    ensures s == s[..i] + s[i..j] + s[j..]
  {
  }

  /** A string is what precedes position `i`, the character there and what follows. */
  lemma Around(s: string, i: nat)
    requires i < |s|
    ensures s == s[..i] + [s[i]] + s[i + 1..]
  {
  }

  /** `%Y%m%d`: four-digit year, two-digit month, two-digit day. */
  function DatePart(t: DateTime): (s: string)
    requires ValidTime(t)
    ensures |s| == 8 && AllDigits(s)
  {
    Padded(t.year, 4) + Padded(t.month, 2) + Padded(t.day, 2)
  }

  /** `%H%M%S`: two digits each for hour, minute and second. */
  function ClockPart(t: DateTime): (s: string)
    requires ValidTime(t)
    ensures |s| == 6 && AllDigits(s)
  {
    Padded(t.hour, 2) + Padded(t.minute, 2) + Padded(t.second, 2)
  }

  /** The `%Y%m%d_%H%M%S` rendering of a local time. */
  function Format(t: DateTime): (s: string)
    requires ValidTime(t)
    ensures |s| == 15 && s[8] == '_'
    ensures s[..8] == DatePart(t) && s[9..] == ClockPart(t)
  {
    Pieces(DatePart(t), "_", ClockPart(t));
    DatePart(t) + "_" + ClockPart(t)
  }

  /** Eight digits, an underscore, six digits. */
  predicate Shaped(s: string)
  {
    |s| == 15 && s[8] == '_' && AllDigits(s[..8]) && AllDigits(s[9..])
  }

  /** The six numeric fields of a well-shaped string, unchecked. */
  function Fields(s: string): DateTime
    requires Shaped(s)
  {
    var date, time := s[..8], s[9..];
    assert AllDigits(date[..4]) && AllDigits(date[4..6]) && AllDigits(date[6..]);
    assert AllDigits(time[..2]) && AllDigits(time[2..4]) && AllDigits(time[4..]);
    DateTime(Value(date[..4]), Value(date[4..6]), Value(date[6..]),
             Value(time[..2]), Value(time[2..4]), Value(time[4..]))
  }

  /** Reads a `%Y%m%d_%H%M%S` string back into a local time; None when the
      string does not have that shape or a field is out of range. */
  function Parse(s: string): Option<DateTime>
  {
    if Shaped(s) && ValidTime(Fields(s)) then Some(Fields(s)) else None
  }

  /** Formatting then parsing gives the time back. */
  lemma ParseOfFormat(t: DateTime)
    requires ValidTime(t)
    ensures Parse(Format(t)) == Some(t)
  {
    Pieces(Padded(t.year, 4), Padded(t.month, 2), Padded(t.day, 2));
    Pieces(Padded(t.hour, 2), Padded(t.minute, 2), Padded(t.second, 2));
    ValueOfPadded(t.year, 4);
    ValueOfPadded(t.month, 2);
    ValueOfPadded(t.day, 2);
    ValueOfPadded(t.hour, 2);
    ValueOfPadded(t.minute, 2);
    ValueOfPadded(t.second, 2);
  }

  /** A digit string cut into three fields is the padded rendering of the
      fields' values, side by side. */
  lemma ThreeFields(d: string, i: nat, j: nat)
    requires AllDigits(d) && i <= j <= |d|
    ensures AllDigits(d[..i]) && AllDigits(d[i..j]) && AllDigits(d[j..])
    ensures Value(d[..i]) < Pow10(i) && Value(d[i..j]) < Pow10(j - i) && Value(d[j..]) < Pow10(|d| - j)
    ensures Padded(Value(d[..i]), i) + Padded(Value(d[i..j]), j - i) + Padded(Value(d[j..]), |d| - j) == d
  {
    var x, y, z := d[..i], d[i..j], d[j..];
    assert AllDigits(x) && AllDigits(y) && AllDigits(z);
    PaddedOfValue(x, i);
    PaddedOfValue(y, j - i);
    PaddedOfValue(z, |d| - j);
    Cut(d, i, j);
  }

  /** Every string that parses is exactly the rendering of what it parses to. */
  lemma FormatOfParse(s: string)
    requires Parse(s).Some?
    ensures ValidTime(Parse(s).value) && Format(Parse(s).value) == s
  {
    var t := Fields(s);
    ThreeFields(s[..8], 4, 6);
    ThreeFields(s[9..], 2, 4);
    var f := Format(t);
    Around(f, 8);
    Around(s, 8);
  }

  /** The directory the JPEG files go to, under the user's home directory. */
  function TapesDir(home: string): string
  {
    home + "/tapes"
  }

  /** The path a capture taken at local time `t` is written to:
      the tapes directory, then `mpi_`, the timestamp and `.jpg`. */
  function OutputPath(home: string, t: DateTime): (p: string)
    requires ValidTime(t)
    ensures var n := |TapesDir(home)| + 5;
      |p| == n + 19 && p[..n] == TapesDir(home) + "/mpi_" && p[n + 15..] == ".jpg" &&
      Parse(p[n..n + 15]) == Some(t)
  {
    var p := TapesDir(home) + "/mpi_" + Format(t) + ".jpg";
    var n := |TapesDir(home)| + 5;
    assert p[n..n + 15] == Format(t);
    ParseOfFormat(t);
    p
  }
}
