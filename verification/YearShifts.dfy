/** What goes wrong where `strftime` does not pad the year: its leading digits and the end of the id run together. */
module YearShifts {
  import opened Text
  import opened Digests
  import opened Instants
  import opened ForensicChain

  /** The digits of a year in front of its last three, leading zeros of those included. */
  function Leading(y: nat): nat {
    if y % 1000 < 10 then y / 10 else if y % 1000 < 100 then y / 100 else y / 1000
  }

  lemma GlueDigits(h: nat, a: nat, b: nat, c: nat)
    requires a < 10 && b < 10 && c < 10
    ensures Glue(h, c) == 10 * h + c
    ensures b > 0 ==> Glue(h, 10 * b + c) == 100 * h + (10 * b + c)
    ensures a > 0 ==> Glue(h, 100 * a + 10 * b + c) == 1000 * h + (100 * a + 10 * b + c)
  {
    assert (10 * b + c) / 10 == b && (10 * b + c) % 10 == c;
    var r := 100 * a + 10 * b + c;
    assert r / 10 == 10 * a + b && r % 10 == c;
    if a > 0 { GlueTwo(h, a, b); }
  }

  lemma GlueTwo(h: nat, a: nat, b: nat)
    requires 0 < a < 10 && b < 10
    ensures Glue(h, 10 * a + b) == 100 * h + (10 * a + b)
  {
    assert (10 * a + b) / 10 == a && (10 * a + b) % 10 == b;
  }

  lemma LeadingParts(y: nat)
    requires 1000 <= y
    ensures Leading(y) > 0
    ensures y == if y % 1000 < 10 then 10 * Leading(y) + y % 1000
                 else if y % 1000 < 100 then 100 * Leading(y) + y % 1000
                 else 1000 * Leading(y) + y % 1000
  {
    var q, r := y / 1000, y % 1000;
    assert y == 1000 * q + r;
    if r < 10 {
      assert y / 10 == 100 * q;
    } else if r < 100 {
      assert y / 100 == 10 * q;
    }
  }

  lemma YearParts(y: nat)
    requires 1000 <= y && y % 1000 != 0
    ensures Decimal(y) == Decimal(Leading(y)) + Decimal(y % 1000)
  {
    var r := y % 1000;
    var a, b, c := r / 100, r / 10 % 10, r % 10;
    assert r == 100 * a + 10 * b + c;
    GlueDigits(Leading(y), a, b, c);
    LeadingParts(y);
    GlueText(Leading(y), r);
  }

  /** Instants whose year cannot be read shorter: what is left of the year is zero, or a year without that day. */
  predicate Anchored(t: Instant) {
    || t.year % 1000 == 0
    || (t.month == 2 && t.day == 29 && t.year % 100 == 0 && (t.year % 1000) % 400 != 0)
  }

  /** Another link with the same text, unless the instant is anchored. */
  function Narrowed(l: Link): Link {
    if Anchored(l.at) then l
    else Link(l.id + Decimal(Leading(l.at.year)), l.at.(year := l.at.year % 1000))
  }

  lemma ShorterYearValid(t: Instant)
    requires t.Valid() && !Anchored(t)
    ensures t.(year := t.year % 1000).Valid()
  {
    if t.month == 2 && t.day == 29 {
      var r := t.year % 1000;
      assert t.year == 1000 * (t.year / 1000) + r;
      assert r % 4 == 0 && r % 100 == t.year % 100;
    }
  }

  /** A present-day record shares its text with one of the first millennium: the year 2024 with the year 24 and an id
      that ends in `20`. */
  lemma WideYearsShift(l: Link)
    requires WideLink(Unpadded, l)
    ensures Narrowed(l).at.Valid() && LinkText(Unpadded, Narrowed(l)) == LinkText(Unpadded, l)
    ensures Narrowed(l) == l <==> Anchored(l.at)
    ensures |Narrowed(l).id| <= |l.id| + 3
  {
    var y := l.at.year;
    if !Anchored(l.at) {
      YearParts(y);
      ShorterYearValid(l.at);
      FormatWide(Unpadded, l.at);
      Associate(Decimal(Leading(y)), Decimal(y % 1000), TimeTail(l.at));
      Associate(l.id, Decimal(Leading(y)), FormatUtc(Unpadded, Narrowed(l).at));
    }
  }

  lemma GlueTwoIs(y: nat)
    requires y < 1000
    ensures Glue(2, y) == y + if y < 10 then 20 else if y < 100 then 200 else 2000
  {
    var a, b, c := y / 100, y / 10 % 10, y % 10;
    assert y == 100 * a + 10 * b + c;
    GlueDigits(2, a, b, c);
  }

  lemma LeapBehindTwo(y: nat)
    requires Leap(y) && 1 <= y < 1000
    ensures y < 10 ==> Leap(20 + y)
    ensures 10 <= y < 100 ==> Leap(200 + y)
    ensures Leap(2000 + y)
  {
    assert (2000 + y) % 4 == y % 4 && (2000 + y) % 100 == y % 100 && (2000 + y) % 400 == y % 400;
    assert (200 + y) % 4 == y % 4 && (200 + y) % 100 == y % 100;
  }

  lemma GlueTwoLeap(y: nat)
    requires 1 <= y < 1000
    ensures Glue(2, y) <= 2999 && (Leap(y) ==> Leap(Glue(2, y)))
  {
    GlueTwoIs(y);
    if Leap(y) { LeapBehindTwo(y); }
  }

  /** Before year 1000 a digit can move from the id into the year: different records, one preimage, one chain hash. */
  lemma NarrowYearsShift(p: Platform, prev: string, id: string, at: Instant)
    requires p.years.Unpadded? && at.Valid() && at.year < 1000
    ensures var earlier, later := Link(id + "2", at), Link(id, at.(year := Glue(2, at.year)));
            earlier != later && later.at.Valid()
            && ChainHash(p, prev, earlier.id, earlier.at) == ChainHash(p, prev, later.id, later.at)
  {
    var y := at.year;
    GlueText(2, y);
    GlueTwoLeap(y);
    Associate("2", Decimal(y), TimeTail(at));
    Associate(id, "2", FormatUtc(Unpadded, at));
    ChainPreimageParts(Unpadded, prev, Link(id + "2", at));
    ChainPreimageParts(Unpadded, prev, Link(id, at.(year := Glue(2, y))));
  }

  // ---------------------------------------------------------------- anchored instants

  /** What stands in front of the time of day is the same, and the time of day too. */
  lemma LinkTextSplit(y: Years, l: Link, l': Link)
    requires l.at.Valid() && l'.at.Valid() && LinkText(y, l) == LinkText(y, l')
    ensures l.id + YearText(y, l.at.year) == l'.id + YearText(y, l'.at.year) && l.at.(year := l'.at.year) == l'.at
  {
    Associate(l.id, YearText(y, l.at.year), TimeTail(l.at));
    Associate(l'.id, YearText(y, l'.at.year), TimeTail(l'.at));
    SplitEqual(l.id + YearText(y, l.at.year), TimeTail(l.at), l'.id + YearText(y, l'.at.year), TimeTail(l'.at));
    TailInjective(l.at, l'.at);
  }

  lemma CenturyText(y: nat)
    requires 1000 <= y <= 9999 && y % 100 == 0
    ensures |Decimal(y)| == 4 && Decimal(y)[2] == '0' && Decimal(y)[3] == '0'
    ensures Decimal(y)[1] == '0' <==> y % 1000 == 0
    ensures y % 1000 != 0 ==> Decimal(y)[1..] == Decimal(y % 1000)
  {
    assert Decimal(y / 10) == Decimal(y / 100) + "0";
    assert Decimal(y) == Decimal(y / 10) + "0";
    var a := y / 100 % 10;
    assert y / 100 / 10 == y / 1000 && |Decimal(y / 1000)| == 1;
    assert Decimal(y / 100) == Decimal(y / 1000) + [('0' as int + a) as char];
    assert y % 1000 == 100 * a;
    if a != 0 {
      assert Decimal(10 * a) == Decimal(a) + "0";
      assert Decimal(100 * a) == Decimal(10 * a) + "0";
    }
  }

  lemma YearWidth(y: nat)
    requires y <= 9999
    ensures |Decimal(y)| <= 4
  {
    assert |Decimal(y / 1000)| == 1;
    assert |Decimal(y / 100)| <= 2;
    assert |Decimal(y / 10)| <= 3;
  }

  /** A year divisible by 100 can be read in one other way only. */
  lemma CenturyReadings(id: string, y: nat, id': string, y': nat)
    requires 1000 <= y <= 9999 && y % 100 == 0 && 1 <= y' <= 9999 && id + Decimal(y) == id' + Decimal(y')
    ensures (id == id' && y == y') || (y % 1000 != 0 && y' == y % 1000)
  {
    var s, t := Decimal(y), Decimal(y');
    CenturyText(y);
    YearWidth(y');
    LeadingDigit(y');
    assert (id' + t)[|id'|] == t[0];
    assert (id + s)[|id'|] == t[0];
    if |t| == 4 {
      SplitEqual(id, s, id', t);
      DecimalInjective(y, y');
    } else {
      assert t == (id' + t)[|id'|..];
      assert s[1..] == (id + s)[|id| + 1..];
      DecimalInjectiveIf(y % 1000, y', s[1..]);
    }
  }

  lemma DecimalInjectiveIf(a: nat, b: nat, s: string)
    requires s == Decimal(b) && s == Decimal(a)
    ensures a == b
  {
    DecimalInjective(a, b);
  }

  lemma AnchoredCentury(t: Instant)
    requires Anchored(t)
    ensures t.year % 100 == 0
  {
    if t.year % 1000 == 0 { assert t.year == 100 * (10 * (t.year / 1000)); }
  }

  lemma AnchoredNotShorter(t: Instant)
    requires Anchored(t) && t.year % 1000 != 0
    ensures !t.(year := t.year % 1000).Valid()
  {
    var r := t.year % 1000;
    assert t.year == 1000 * (t.year / 1000) + r;
    assert r % 100 == t.year % 100;
  }

  lemma AnchoredFixes(l: Link, l': Link)
    requires WideLink(Unpadded, l) && Anchored(l.at) && l'.at.Valid() && LinkText(Unpadded, l) == LinkText(Unpadded, l')
    ensures l' == l
  {
    LinkTextSplit(Unpadded, l, l');
    AnchoredCentury(l.at);
    CenturyReadings(l.id, l.at.year, l'.id, l'.at.year);
    if l.at.year % 1000 != 0 { AnchoredNotShorter(l.at); }
  }

  lemma SameLinkText(y: Years, prev: string, l: Link, l': Link)
    ensures ChainPreimage(y, prev, l.id, l.at) == ChainPreimage(y, prev, l'.id, l'.at)
            <==> LinkText(y, l) == LinkText(y, l')
  {
    ChainPreimageParts(y, prev, l);
    ChainPreimageParts(y, prev, l');
    if OrGenesis(prev) + LinkText(y, l) == OrGenesis(prev) + LinkText(y, l') {
      SplitEqual(OrGenesis(prev), LinkText(y, l), OrGenesis(prev), LinkText(y, l'));
    }
  }
}
