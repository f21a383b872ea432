/** Instants as the chain hash writes them. */
module Instants {
  import opened Text

  predicate Leap(year: nat) {
    year % 4 == 0 && (year % 100 != 0 || year % 400 == 0)
  }

  function DaysIn(year: nat, month: nat): nat {
    if month == 2 then (if Leap(year) then 29 else 28)
    else if month in {4, 6, 9, 11} then 30
    else 31
  }

  /** A UTC instant with microseconds, in civil fields. */
  datatype Instant = Instant(year: nat, month: nat, day: nat, hour: nat, minute: nat, second: nat, micro: nat) {
    /** On the calendar of `datetime`: years 1 to 9999, existing days. */
    predicate Valid() {
      && 1 <= year <= 9999 && 1 <= month <= 12 && 1 <= day <= DaysIn(year, month)
      && hour < 24 && minute < 60 && second < 60 && micro < 1_000_000
    }
  }

  /** How `strftime` writes `%Y`: depending on the interpreter and its C library, with four digits or as many as it
      takes. */
  datatype Years = Padded | Unpadded

  function YearText(y: Years, year: nat): string {
    if y.Padded? then Pad(year, 4) else Decimal(year)
  }

  /** Zero-padded to `width` digits. */
  function Pad(n: nat, width: nat): (s: string)
    ensures |s| == width
    ensures forall i :: 0 <= i < width ==> DigitChar(s[i])
  {
    if width == 0 then "" else Pad(n / 10, width - 1) + [('0' as int + n % 10) as char]
  }

  predicate Fits(n: nat, width: nat)
    decreases width
  {
    if width == 0 then n == 0 else Fits(n / 10, width - 1)
  }

  lemma {:induction false} PadInjective(n: nat, m: nat, width: nat)
    requires Fits(n, width) && Fits(m, width) && Pad(n, width) == Pad(m, width)
    ensures n == m
    decreases width
  {
    if width > 0 {
      var a, b := Pad(n / 10, width - 1), Pad(m / 10, width - 1);
      SplitEqual(a, [('0' as int + n % 10) as char], b, [('0' as int + m % 10) as char]);
      PadInjective(n / 10, m / 10, width - 1);
      assert n % 10 == m % 10;
    }
  }

  /** Everything behind the year of `%Y-%m-%dT%H:%M:%S.%fZ`: always 23 characters. */
  function TimeTail(t: Instant): (s: string)
    ensures |s| == 23
  {
    "-" + Pad(t.month, 2) + "-" + Pad(t.day, 2) + "T" + Pad(t.hour, 2) + ":" + Pad(t.minute, 2) + ":"
    + Pad(t.second, 2) + "." + Pad(t.micro, 6) + "Z"
  }

  /** `strftime("%Y-%m-%dT%H:%M:%S.%fZ")`. */
  function FormatUtc(y: Years, t: Instant): string {
    YearText(y, t.year) + TimeTail(t)
  }

  /** Texts of one width: all of them where years are padded, and otherwise those from year 1000 on. */
  predicate FullWidth(y: Years, t: Instant) {
    t.Valid() && (y.Padded? || 1000 <= t.year)
  }

  lemma TailFits(t: Instant)
    requires t.Valid()
    ensures Fits(t.month, 2) && Fits(t.day, 2) && Fits(t.hour, 2) && Fits(t.minute, 2) && Fits(t.second, 2)
    ensures Fits(t.micro, 6)
  {
  }

  lemma TailInjective(t: Instant, u: Instant)
    requires t.Valid() && u.Valid() && TimeTail(t) == TimeTail(u)
    ensures t.(year := u.year) == u
  {
    TailFits(t);
    TailFits(u);
    var s, r := TimeTail(t), TimeTail(u);
    assert Pad(t.month, 2) == s[1..3] == r[1..3] == Pad(u.month, 2);
    assert Pad(t.day, 2) == s[4..6] == r[4..6] == Pad(u.day, 2);
    assert Pad(t.hour, 2) == s[7..9] == r[7..9] == Pad(u.hour, 2);
    assert Pad(t.minute, 2) == s[10..12] == r[10..12] == Pad(u.minute, 2);
    assert Pad(t.second, 2) == s[13..15] == r[13..15] == Pad(u.second, 2);
    assert Pad(t.micro, 6) == s[16..22] == r[16..22] == Pad(u.micro, 6);
    PadInjective(t.month, u.month, 2);
    PadInjective(t.day, u.day, 2);
    PadInjective(t.hour, u.hour, 2);
    PadInjective(t.minute, u.minute, 2);
    PadInjective(t.second, u.second, 2);
    PadInjective(t.micro, u.micro, 6);
  }

  lemma {:induction false} DecimalInjective(n: nat, m: nat)
    requires Decimal(n) == Decimal(m)
    ensures n == m
  {
    ReadDecimal(n, "");
    ReadDecimal(m, "");
  }

  lemma FourDigits(year: nat)
    requires 1000 <= year <= 9999
    ensures Decimal(year) == Pad(year, 4)
  {
    assert Pad(year / 1000, 1) == Pad(year / 1000 / 10, 0) + Decimal(year / 1000);
    assert year / 100 / 10 == year / 1000 && year / 10 / 10 == year / 100;
    assert Decimal(year / 100) == Pad(year / 100, 2);
    assert Decimal(year / 10) == Pad(year / 10, 3);
  }

  /** From year 1000 on the two ways agree. */
  lemma SameFromThousand(t: Instant)
    requires t.Valid() && 1000 <= t.year
    ensures FormatUtc(Padded, t) == FormatUtc(Unpadded, t)
  {
    FourDigits(t.year);
  }

  /** A timestamp of full width has 27 characters. */
  lemma FormatWide(y: Years, t: Instant)
    requires FullWidth(y, t)
    ensures |YearText(y, t.year)| == 4 && |FormatUtc(y, t)| == 27
  {
    if y.Unpadded? { FourDigits(t.year); }
  }

  lemma YearFits(year: nat)
    requires year <= 9999
    ensures Fits(year, 4)
  {
    assert Fits(year / 10 / 10 / 10, 1);
  }

  lemma YearInjective(y: Years, a: nat, b: nat)
    requires a <= 9999 && b <= 9999 && YearText(y, a) == YearText(y, b)
    ensures a == b
  {
    if y.Padded? {
      YearFits(a);
      YearFits(b);
      PadInjective(a, b, 4);
    } else {
      DecimalInjective(a, b);
    }
  }

  /** A timestamp names its instant. */
  lemma FormatInjective(y: Years, t: Instant, u: Instant)
    requires t.Valid() && u.Valid() && FormatUtc(y, t) == FormatUtc(y, u)
    ensures t == u
  {
    SplitEqual(YearText(y, t.year), TimeTail(t), YearText(y, u.year), TimeTail(u));
    YearInjective(y, t.year, u.year);
    TailInjective(t, u);
  }
}
