/** Where the text of a stored link can be cut: previous hash, id and instant stand behind one another with nothing in
    between, and replay does not look at the shape of the first. */
module LinkCuts {
  import opened Text
  import opened Instants
  import opened ForensicChain
  import opened YearShifts
  import opened YearReadings

  // ---------------------------------------------------------------- where a link can be cut

  /** The widths of the two columns; an id is never empty. */
  predicate Storable(prev: string, id: string) {
    |prev| <= 64 && 1 <= |id| <= 64
  }

  /** Previous hash and id are both one character long or both fill their columns. */
  predicate OneCut(prev: string, id: string) {
    |OrGenesis(prev)| == |id| && (|id| == 1 || |id| == 64)
  }

  /** The last character of the previous hash moves to the front of the id, or, where that does not fit, back. */
  function OtherCut(prev: string, id: string): (string, string)
    requires Storable(prev, id) && !OneCut(prev, id)
  {
    var q := OrGenesis(prev);
    if |q| > 1 && |id| < 64 then (q[..|q| - 1], [q[|q| - 1]] + id) else (q + [id[0]], id[1..])
  }

  lemma OtherCutShares(y: Years, prev: string, id: string, at: Instant)
    requires Storable(prev, id) && !OneCut(prev, id)
    ensures var (q, j) := OtherCut(prev, id);
            && Storable(q, j) && OrGenesis(q) != OrGenesis(prev) && j != id
            && ChainPreimage(y, q, j, at) == ChainPreimage(y, prev, id, at)
  {
    var p := OrGenesis(prev);
    var (q, j) := OtherCut(prev, id);
    if |p| > 1 && |id| < 64 {
      assert p == q + [p[|p| - 1]];
      Associate(q, [p[|p| - 1]], id);
    } else {
      assert id == [id[0]] + j;
      Associate(p, [id[0]], j);
    }
  }

  /** No other storable previous hash and id have the same text in front of the same instant. */
  ghost predicate PartsFixed(y: Years, prev: string, id: string, at: Instant) {
    forall q, j :: Storable(q, j) && ChainPreimage(y, q, j, at) == ChainPreimage(y, prev, id, at)
                   ==> OrGenesis(q) == OrGenesis(prev) && j == id
  }

  lemma OneCutFixes(prev: string, id: string, q: string, j: string)
    requires OneCut(prev, id) && Storable(q, j) && OrGenesis(q) + j == OrGenesis(prev) + id
    ensures OrGenesis(q) == OrGenesis(prev) && j == id
  {
    assert |OrGenesis(q) + j| == |OrGenesis(prev) + id|;
    SplitEqual(OrGenesis(q), j, OrGenesis(prev), id);
  }

  /** For one instant: a record's previous hash and id can be read back exactly when there is one place to cut. */
  lemma PartsFixedExactly(y: Years, prev: string, id: string, at: Instant)
    requires Storable(prev, id)
    ensures PartsFixed(y, prev, id, at) <==> OneCut(prev, id)
  {
    if OneCut(prev, id) {
      forall q, j | Storable(q, j) && ChainPreimage(y, q, j, at) == ChainPreimage(y, prev, id, at)
        ensures OrGenesis(q) == OrGenesis(prev) && j == id
      {
        var s, t := OrGenesis(q) + j, OrGenesis(prev) + id;
        assert |s + FormatUtc(y, at)| == |t + FormatUtc(y, at)|;
        SplitEqual(s, FormatUtc(y, at), t, FormatUtc(y, at));
        OneCutFixes(prev, id, q, j);
      }
    } else {
      OtherCutShares(y, prev, id, at);
    }
  }

  // ---------------------------------------------------------------- whole links

  /** A link that could be stored, of whatever instant, with the same text. */
  predicate SharesText(y: Years, prev: string, l: Link, q: string, l': Link) {
    && Storable(q, l'.id)
    && l'.at.Valid()
    && ChainPreimage(y, q, l'.id, l'.at) == ChainPreimage(y, prev, l.id, l.at)
  }

  /** There is no other. */
  ghost predicate LinkFixed(y: Years, prev: string, l: Link) {
    forall q: string, l': Link :: SharesText(y, prev, l, q, l') ==> OrGenesis(q) == OrGenesis(prev) && l' == l
  }

  /** Everything in front of the time of day, unpadded. */
  function Front(prev: string, l: Link): string {
    OrGenesis(prev) + l.id + Decimal(l.at.year)
  }

  /** What is left in front of a year of `k` characters can be stored as previous hash and id. */
  predicate Room(w: string, k: nat) {
    2 <= |w| - k <= 128
  }

  /** There is one place to cut between previous hash and id, and where years are not padded one way to read the year
      that leaves room for both. */
  predicate LinkSafe(y: Years, prev: string, l: Link) {
    && OneCut(prev, l.id)
    && (y.Padded? || forall k :: 1 <= k <= 4 && Reads(Front(prev, l), l.at, k) && Room(Front(prev, l), k)
                       ==> k == |Decimal(l.at.year)|)
  }

  /** The same text, read with previous hash and id as one. */
  lemma JoinedParts(y: Years, prev: string, l: Link, q: string, l': Link)
    requires ChainPreimage(y, q, l'.id, l'.at) == ChainPreimage(y, prev, l.id, l.at)
    ensures LinkText(y, Link(OrGenesis(prev) + l.id, l.at)) == LinkText(y, Link(OrGenesis(q) + l'.id, l'.at))
  {
  }

  lemma SafeLinkFixes(y: Years, prev: string, l: Link, q: string, l': Link)
    requires l.at.Valid() && LinkSafe(y, prev, l) && SharesText(y, prev, l, q, l')
    ensures OrGenesis(q) == OrGenesis(prev) && l' == l
  {
    var a, b := Link(OrGenesis(prev) + l.id, l.at), Link(OrGenesis(q) + l'.id, l'.at);
    JoinedParts(y, prev, l, q, l');
    if y.Padded? {
      PaddedFixes(a, b);
    } else {
      LinkTextSplit(y, a, b);
      YearReads(b.id, l'.at.year, l.at);
      assert Reads(Front(prev, l), l.at, |Decimal(l'.at.year)|);
      SplitEqual(a.id, Decimal(l.at.year), b.id, Decimal(l'.at.year));
      DecimalInjective(l.at.year, l'.at.year);
    }
    OneCutFixes(prev, l.id, q, l'.id);
  }

  /** A text cut into a previous hash and an id that fit their columns. */
  function Cut(s: string): (string, string)
    requires 2 <= |s| <= 128
  {
    var n := if |s| <= 64 then |s| - 1 else 64;
    (s[..n], s[n..])
  }

  /** The front read with a year of `k` characters. */
  function Recut(prev: string, l: Link, k: nat): (string, Link)
    requires k <= |Front(prev, l)| && Room(Front(prev, l), k)
  {
    var r := ReadLink(Front(prev, l), l.at, k);
    var (q, j) := Cut(r.id);
    (q, Link(j, r.at))
  }

  lemma RecutShares(prev: string, l: Link, k: nat)
    requires Reads(Front(prev, l), l.at, k) && Room(Front(prev, l), k) && k != |Decimal(l.at.year)|
    ensures var (q, l') := Recut(prev, l, k);
            SharesText(Unpadded, prev, l, q, l') && l' != l
  {
    var (q, l') := Recut(prev, l, k);
    var a := Link(OrGenesis(prev) + l.id, l.at);
    ReadLinkShares(a, k);
    assert q + l'.id == ReadLink(Joined(a), l.at, k).id;
  }

  /** Another storable link with the same text, for a link that is not safe. */
  lemma OtherLink(y: Years, prev: string, l: Link) returns (q: string, l': Link)
    requires Storable(prev, l.id) && l.at.Valid() && !LinkSafe(y, prev, l)
    ensures SharesText(y, prev, l, q, l') && l' != l
  {
    if !OneCut(prev, l.id) {
      OtherCutShares(y, prev, l.id, l.at);
      var cut := OtherCut(prev, l.id);
      q, l' := cut.0, Link(cut.1, l.at);
    } else {
      var k :| 1 <= k <= 4 && Reads(Front(prev, l), l.at, k) && Room(Front(prev, l), k) && k != |Decimal(l.at.year)|;
      RecutShares(prev, l, k);
      var cut := Recut(prev, l, k);
      q, l' := cut.0, cut.1;
    }
  }

  /** A stored link can be read back from its text exactly when it is safe, which almost none is: a digest in front of a
      server-made id, shorter than 64 characters, can be cut elsewhere. */
  lemma LinkFixedExactly(y: Years, prev: string, l: Link)
    requires Storable(prev, l.id) && l.at.Valid()
    ensures LinkFixed(y, prev, l) <==> LinkSafe(y, prev, l)
  {
    if LinkSafe(y, prev, l) {
      forall q: string, l': Link | SharesText(y, prev, l, q, l')
        ensures OrGenesis(q) == OrGenesis(prev) && l' == l
      {
        SafeLinkFixes(y, prev, l, q, l');
      }
    } else {
      var q, l' := OtherLink(y, prev, l);
      assert SharesText(y, prev, l, q, l') && l' != l;
    }
  }

  /** Where timestamps have full width: both columns are full, or both hold one character and the year is padded or
      cannot be read shorter. */
  lemma SafeFromThousand(y: Years, prev: string, l: Link)
    requires WideLink(y, l)
    ensures LinkSafe(y, prev, l)
            <==> OneCut(prev, l.id) && (|l.id| == 64 || y.Padded? || Anchored(l.at))
  {
    if y.Unpadded? && OneCut(prev, l.id) {
      var a := Link(OrGenesis(prev) + l.id, l.at);
      FormatWide(y, l.at);
      assert Front(prev, l) == Joined(a);
      OneReadingFromThousand(a);
    }
  }
}
