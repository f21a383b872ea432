/** Exactly which links, and which histories, can be read back from their texts. */
module YearReadings {
  import opened Text
  import opened Instants
  import opened ForensicChain
  import opened YearShifts

  /** The number the last `k` characters of a text give. */
  function Number(w: string, k: nat): nat
    requires k <= |w|
  {
    ReadDigits(0, w[|w| - k..]).0
  }

  /** The last `k` characters in front of the time of day can be the year. */
  predicate Reads(w: string, t: Instant, k: nat) {
    && 1 <= k <= 4 && k <= |w|
    && Decimal(Number(w, k)) == w[|w| - k..]
    && t.(year := Number(w, k)).Valid()
  }

  lemma YearReads(u: string, year: nat, t: Instant)
    requires t.(year := year).Valid()
    ensures var w, k := u + Decimal(year), |Decimal(year)|;
            Reads(w, t, k) && Number(w, k) == year && w[..|w| - k] == u
  {
    var w, k := u + Decimal(year), |Decimal(year)|;
    assert w[|w| - k..] == Decimal(year) == Decimal(year) + "";
    ReadDecimal(year, "");
    YearWidth(year);
  }

  /** An id and an unpadded year, as one text. */
  function Joined(l: Link): string {
    l.id + Decimal(l.at.year)
  }

  /** The link read with a year of `k` characters. */
  function ReadLink(w: string, t: Instant, k: nat): Link
    requires k <= |w|
  {
    Link(w[..|w| - k], t.(year := Number(w, k)))
  }

  lemma ReadLinkShares(l: Link, k: nat)
    requires Reads(Joined(l), l.at, k)
    ensures var l' := ReadLink(Joined(l), l.at, k);
            && l'.at.Valid() && LinkText(Unpadded, l') == LinkText(Unpadded, l)
            && (k != |Decimal(l.at.year)| ==> l'.at.year != l.at.year)
  {
    var l' := ReadLink(Joined(l), l.at, k);
    assert l'.id + Decimal(l'.at.year) == Joined(l);
    Associate(l'.id, Decimal(l'.at.year), TimeTail(l'.at));
    Associate(l.id, Decimal(l.at.year), TimeTail(l.at));
  }

  // ---------------------------------------------------------------- one link

  /** No other link, of any year, has the same text behind the same previous hash. */
  ghost predicate OnlyLink(y: Years, prev: string, l: Link) {
    forall l': Link ::
      l'.at.Valid() && ChainPreimage(y, prev, l.id, l.at) == ChainPreimage(y, prev, l'.id, l'.at) ==> l' == l
  }

  /** Of the up to four ways to end the id and begin the year there is one that gives an existing day. */
  predicate OneReading(l: Link) {
    forall k :: 1 <= k <= 4 && Reads(Joined(l), l.at, k) ==> k == |Decimal(l.at.year)|
  }

  lemma OneReadingFixes(l: Link, l': Link)
    requires l.at.Valid() && l'.at.Valid() && OneReading(l) && LinkText(Unpadded, l) == LinkText(Unpadded, l')
    ensures l' == l
  {
    LinkTextSplit(Unpadded, l, l');
    YearReads(l'.id, l'.at.year, l.at);
    assert Reads(Joined(l), l.at, |Decimal(l'.at.year)|);
    SplitEqual(l.id, Decimal(l.at.year), l'.id, Decimal(l'.at.year));
    DecimalInjective(l.at.year, l'.at.year);
  }

  lemma PaddedFixes(l: Link, l': Link)
    requires l.at.Valid() && l'.at.Valid() && LinkText(Padded, l) == LinkText(Padded, l')
    ensures l' == l
  {
    WideTextsFix(Padded, l, l');
  }

  /** Another link with the same text, for one that has several readings. */
  ghost function Reread(l: Link): Link {
    if OneReading(l) then l
    else
      var k :| 1 <= k <= 4 && Reads(Joined(l), l.at, k) && k != |Decimal(l.at.year)|;
      ReadLink(Joined(l), l.at, k)
  }

  lemma RereadShares(l: Link)
    requires l.at.Valid()
    ensures Reread(l).at.Valid() && LinkText(Unpadded, Reread(l)) == LinkText(Unpadded, l)
    ensures Reread(l) == l <==> OneReading(l)
  {
    if !OneReading(l) {
      var k :| 1 <= k <= 4 && Reads(Joined(l), l.at, k) && k != |Decimal(l.at.year)|
                && Reread(l) == ReadLink(Joined(l), l.at, k);
      ReadLinkShares(l, k);
    }
  }

  /** A link is the only one with its text exactly where years are padded or its year can be read in one way. */
  lemma OnlyLinkExactly(y: Years, prev: string, l: Link)
    requires l.at.Valid()
    ensures OnlyLink(y, prev, l) <==> y.Padded? || OneReading(l)
  {
    if y.Padded? || OneReading(l) {
      forall l': Link | l'.at.Valid() && ChainPreimage(y, prev, l.id, l.at) == ChainPreimage(y, prev, l'.id, l'.at)
        ensures l' == l
      {
        SameLinkText(y, prev, l, l');
        if y.Padded? { PaddedFixes(l, l'); } else { OneReadingFixes(l, l'); }
      }
    } else {
      RereadShares(l);
      SameLinkText(y, prev, l, Reread(l));
    }
  }

  /** From year 1000 on those are the years 1000, 2000, ... and the leap days that the shorter year does not have, like
      29 February 1600. */
  lemma OneReadingFromThousand(l: Link)
    requires WideLink(Unpadded, l)
    ensures OneReading(l) <==> Anchored(l.at)
  {
    if OneReading(l) {
      WideYearsShift(l);
      OneReadingFixes(l, Narrowed(l));
    }
    if Anchored(l.at) {
      RereadShares(l);
      AnchoredFixes(l, Reread(l));
    }
  }

  // ---------------------------------------------------------------- whole histories

  /** Every link of the chain has one reading. */
  predicate AllOneReading(c: Chain) {
    c.Append? ==> AllOneReading(c.before) && OneReading(c.newest)
  }

  /** Every link of the chain is anchored. */
  predicate AllAnchored(c: Chain) {
    c.Append? ==> AllAnchored(c.before) && Anchored(c.newest.at)
  }

  /** The chain with every link that can be read otherwise read so. */
  ghost function RereadChain(c: Chain): Chain {
    if c.Start? then c else Append(RereadChain(c.before), Reread(c.newest))
  }

  lemma {:induction false} RereadChainShares(c: Chain)
    requires c.Dated()
    ensures RereadChain(c).Texts(Unpadded) == c.Texts(Unpadded) && RereadChain(c).Dated()
    ensures c.Grown() ==> RereadChain(c).Grown()
    ensures RereadChain(c).Events() == c.Events() <==> AllOneReading(c)
  {
    if c.Append? {
      RereadChainShares(c.before);
      RereadShares(c.newest);
      SnocEqual(RereadChain(c.before).Events(), Reread(c.newest), c.before.Events(), c.newest);
    }
  }

  lemma SnocEqual(x: seq<Link>, l: Link, y: seq<Link>, l': Link)
    ensures x + [l] == y + [l'] <==> x == y && l == l'
  {
    if x + [l] == y + [l'] {
      assert x == (x + [l])[..|x|] && y == (y + [l'])[..|y|];
      assert (x + [l])[|x|] == l && (y + [l'])[|y|] == l';
    }
  }

  lemma {:induction false} TextsFix(y: Years, a: Chain, b: Chain)
    requires a.Dated() && b.Dated() && (y.Padded? || AllOneReading(a)) && a.Texts(y) == b.Texts(y)
    ensures a.Events() == b.Events()
  {
    if a.Append? && b.Append? {
      LastText(y, a, b);
      if y.Padded? { PaddedFixes(a.newest, b.newest); } else { OneReadingFixes(a.newest, b.newest); }
      TextsFix(y, a.before, b.before);
    }
  }

  /** No other history, of any years, has the texts, and so the head, of `c`. */
  ghost predicate OnlyHistory(y: Years, c: Chain) {
    forall b: Chain :: b.Grown() && b.Dated() && b.Texts(y) == c.Texts(y) ==> b.Events() == c.Events()
  }

  /** Against records of every year the head binds a history exactly where years are padded or all its links have one
      reading. */
  lemma OnlyHistoryExactly(y: Years, c: Chain)
    requires c.Grown() && c.Dated()
    ensures OnlyHistory(y, c) <==> y.Padded? || AllOneReading(c)
  {
    if y.Padded? || AllOneReading(c) {
      forall b: Chain | b.Grown() && b.Dated() && b.Texts(y) == c.Texts(y) ensures b.Events() == c.Events() {
        TextsFix(y, c, b);
      }
    } else {
      RereadChainShares(c);
    }
  }

  /** From year 1000 on: exactly when all its instants are anchored. */
  lemma {:induction false} AllAnchoredFromThousand(c: Chain)
    requires c.Wide(Unpadded)
    ensures AllOneReading(c) <==> AllAnchored(c)
  {
    if c.Append? {
      AllAnchoredFromThousand(c.before);
      OneReadingFromThousand(c.newest);
    }
  }
}
