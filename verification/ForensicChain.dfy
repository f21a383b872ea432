/** The linkage hash of forensic records: over (previous hash, id, instant), written one behind the other. */
module ForensicChain {
  import opened Text
  import opened Digests
  import opened Instants

  const GENESIS := "genesis_block"

  function OrGenesis(prev: string): string {
    if prev == "" then GENESIS else prev
  }

  /** The digest, and the way years are written. */
  datatype Platform = Platform(H: Digest, years: Years)

  function ChainPreimage(y: Years, prev: string, id: string, at: Instant): string {
    OrGenesis(prev) + id + FormatUtc(y, at)
  }

  function ChainHash(p: Platform, prev: string, id: string, at: Instant): string {
    p.H(ChainPreimage(p.years, prev, id, at))
  }

  /** One record's share in the chain. */
  datatype Link = Link(id: string, at: Instant)

  predicate WideLink(y: Years, l: Link) {
    FullWidth(y, l.at)
  }

  predicate Genesis(prev: string) {
    prev == "" || prev == GENESIS
  }

  // ---------------------------------------------------------------- one link

  /** A link's share of the hashed text. */
  function LinkText(y: Years, l: Link): string {
    l.id + FormatUtc(y, l.at)
  }

  lemma ChainPreimageParts(y: Years, prev: string, l: Link)
    ensures ChainPreimage(y, prev, l.id, l.at) == OrGenesis(prev) + LinkText(y, l)
  {
    Associate(OrGenesis(prev), l.id, FormatUtc(y, l.at));
  }

  /** Equal texts mean equal previous hashes and links exactly when the first two of the three parts have equal
      lengths. */
  lemma {:induction false} ChainTextFixesParts(y: Years, prev: string, l: Link, prev': string, l': Link)
    requires l.at.Valid() && l'.at.Valid()
    requires ChainPreimage(y, prev, l.id, l.at) == ChainPreimage(y, prev', l'.id, l'.at)
    ensures OrGenesis(prev) == OrGenesis(prev') && l == l'
            <==> |OrGenesis(prev)| == |OrGenesis(prev')| && |l.id| == |l'.id|
  {
    if |OrGenesis(prev)| == |OrGenesis(prev')| && |l.id| == |l'.id| {
      SplitEqual(OrGenesis(prev) + l.id, FormatUtc(y, l.at), OrGenesis(prev') + l'.id, FormatUtc(y, l'.at));
      SplitEqual(OrGenesis(prev), l.id, OrGenesis(prev'), l'.id);
      FormatInjective(y, l.at, l'.at);
    }
  }

  /** Dropping the 27 characters of a full-width timestamp leaves previous hash and id. */
  lemma ChainPreimageSplit(y: Years, prev: string, l: Link, prev': string, l': Link)
    requires WideLink(y, l) && WideLink(y, l')
    requires ChainPreimage(y, prev, l.id, l.at) == ChainPreimage(y, prev', l'.id, l'.at)
    ensures l.at == l'.at && OrGenesis(prev) + l.id == OrGenesis(prev') + l'.id
  {
    FormatWide(y, l.at);
    FormatWide(y, l'.at);
    SplitEqual(OrGenesis(prev) + l.id, FormatUtc(y, l.at), OrGenesis(prev') + l'.id, FormatUtc(y, l'.at));
    FormatInjective(y, l.at, l'.at);
  }

  predicate Hex64(s: string) {
    |s| == 64 && forall i :: 0 <= i < 64 ==> HexChar(s[i])
  }

  /** A first record's marker and a later record's digest are never confused, so the undelimited text behind them is
      recovered. */
  lemma PrevSplit(p: string, id: string, q: string, id': string)
    requires (Genesis(p) || Hex64(p)) && (Genesis(q) || Hex64(q))
    requires OrGenesis(p) + id == OrGenesis(q) + id'
    ensures id == id' && (Hex64(p) || Hex64(q) ==> p == q)
  {
    var x, y := OrGenesis(p), OrGenesis(q);
    assert (x + id)[0] == x[0] && (y + id')[0] == y[0];
    assert GENESIS[0] == 'g' && !HexChar('g');
    if Hex64(p) == Hex64(q) {
      SplitEqual(x, id, y, id');
    }
  }

  // ---------------------------------------------------------------- chains

  /** Records linked from a first one: each carries its predecessor's hash. */
  datatype Chain = Start(first: string) | Append(before: Chain, newest: Link) {
    function Events(): seq<Link> {
      if Start? then [] else before.Events() + [newest]
    }

    function Texts(y: Years): seq<string> {
      if Start? then [] else before.Texts(y) + [LinkText(y, newest)]
    }

    /** Grown from genesis. */
    predicate Grown() {
      if Start? then Genesis(first) else before.Grown()
    }

    /** Every instant is one of the calendar's. */
    predicate Dated() {
      Append? ==> before.Dated() && newest.at.Valid()
    }

    /** All timestamps have full width. */
    predicate Wide(y: Years) {
      Append? ==> before.Wide(y) && WideLink(y, newest)
    }
  }

  /** The hash of the newest record. */
  function Head(p: Platform, c: Chain): string {
    match c
    case Start(first) => first
    case Append(before, l) => ChainHash(p, Head(p, before), l.id, l.at)
  }

  /** What the records of the chain were hashed from. */
  function Preimages(p: Platform, c: Chain): set<string> {
    match c
    case Start(_) => {}
    case Append(before, l) => Preimages(p, before) + {ChainPreimage(p.years, Head(p, before), l.id, l.at)}
  }

  /** Two records, one of each chain, hashed from different text to the same digest. */
  ghost predicate ChainsCollide(p: Platform, a: Chain, b: Chain) {
    exists x, y :: x in Preimages(p, a) && y in Preimages(p, b) && Collide(p.H, x, y)
  }

  lemma HeadShape(p: Platform, c: Chain)
    requires IsDigest(p.H) && c.Grown()
    ensures if c.Start? then Genesis(Head(p, c)) && !Hex64(Head(p, c)) else Hex64(Head(p, c))
  {
  }

  /** One step back: equal texts of the newest records have equal link texts and equal previous heads. */
  lemma {:induction false} HeadStep(p: Platform, a: Chain, l: Link, b: Chain, l': Link)
    requires IsDigest(p.H) && a.Grown() && b.Grown()
    requires ChainPreimage(p.years, Head(p, a), l.id, l.at) == ChainPreimage(p.years, Head(p, b), l'.id, l'.at)
    ensures LinkText(p.years, l) == LinkText(p.years, l') && (a.Start? <==> b.Start?)
    ensures a.Append? ==> Head(p, a) == Head(p, b)
  {
    ChainPreimageParts(p.years, Head(p, a), l);
    ChainPreimageParts(p.years, Head(p, b), l');
    HeadShape(p, a);
    HeadShape(p, b);
    PrevSplit(Head(p, a), LinkText(p.years, l), Head(p, b), LinkText(p.years, l'));
  }

  /** What one head hash binds, whatever the years: the number of records and the text of each behind its previous hash,
      or two of the records collide. */
  lemma {:induction false} HeadBindsTexts(p: Platform, a: Chain, b: Chain)
    requires IsDigest(p.H) && a.Grown() && b.Grown() && Head(p, a) == Head(p, b)
    ensures a.Texts(p.years) == b.Texts(p.years) || ChainsCollide(p, a, b)
  {
    HeadShape(p, a);
    HeadShape(p, b);
    if a.Append? && b.Append? {
      var x := ChainPreimage(p.years, Head(p, a.before), a.newest.id, a.newest.at);
      var y := ChainPreimage(p.years, Head(p, b.before), b.newest.id, b.newest.at);
      if x != y {
        assert Collide(p.H, x, y);
      } else {
        HeadStep(p, a.before, a.newest, b.before, b.newest);
        if a.before.Append? {
          HeadBindsTexts(p, a.before, b.before);
        }
      }
    }
  }

  /** And it binds no more than that: chains with the same link texts have the same head. */
  lemma {:induction false} TextsFixHead(p: Platform, a: Chain, b: Chain)
    requires a.Grown() && b.Grown() && a.Texts(p.years) == b.Texts(p.years)
    ensures OrGenesis(Head(p, a)) == OrGenesis(Head(p, b))
  {
    if a.Append? && b.Append? {
      LastText(p.years, a, b);
      TextsFixHead(p, a.before, b.before);
      ChainPreimageParts(p.years, Head(p, a.before), a.newest);
      ChainPreimageParts(p.years, Head(p, b.before), b.newest);
    }
  }

  lemma LastText(y: Years, a: Chain, b: Chain)
    requires a.Append? && b.Append? && a.Texts(y) == b.Texts(y)
    ensures a.before.Texts(y) == b.before.Texts(y) && LinkText(y, a.newest) == LinkText(y, b.newest)
  {
    var s, t := a.before.Texts(y), b.before.Texts(y);
    assert s == (s + [LinkText(y, a.newest)])[..|a.Texts(y)| - 1];
    assert t == (t + [LinkText(y, b.newest)])[..|b.Texts(y)| - 1];
    assert a.Texts(y)[|s|] == b.Texts(y)[|t|];
  }

  lemma WideTextsFix(y: Years, l: Link, l': Link)
    requires WideLink(y, l) && WideLink(y, l') && LinkText(y, l) == LinkText(y, l')
    ensures l == l'
  {
    FormatWide(y, l.at);
    FormatWide(y, l'.at);
    SplitEqual(l.id, FormatUtc(y, l.at), l'.id, FormatUtc(y, l'.at));
    FormatInjective(y, l.at, l'.at);
  }

  lemma {:induction false} WideTextsFixEvents(y: Years, a: Chain, b: Chain)
    requires a.Wide(y) && b.Wide(y) && a.Texts(y) == b.Texts(y)
    ensures a.Events() == b.Events()
  {
    if a.Append? && b.Append? {
      LastText(y, a, b);
      WideTextsFix(y, a.newest, b.newest);
      WideTextsFixEvents(y, a.before, b.before);
    }
  }

  /** The head binds the whole history among records of full width: two chains grown from genesis with one head hash
      list the same ids at the same instants, or two of their own records collide. */
  lemma {:induction false} HeadBindsHistory(p: Platform, a: Chain, b: Chain)
    requires IsDigest(p.H) && a.Grown() && a.Wide(p.years) && b.Grown() && b.Wide(p.years) && Head(p, a) == Head(p, b)
    ensures a.Events() == b.Events() || ChainsCollide(p, a, b)
  {
    HeadBindsTexts(p, a, b);
    if a.Texts(p.years) == b.Texts(p.years) { WideTextsFixEvents(p.years, a, b); }
  }

  lemma {:induction false} PaddedIsWide(c: Chain)
    ensures c.Wide(Padded) <==> c.Dated()
  {
    if c.Append? { PaddedIsWide(c.before); }
  }

  /** Where years are padded that is every record the calendar allows. */
  lemma {:induction false} PaddedHeadBindsHistory(p: Platform, a: Chain, b: Chain)
    requires IsDigest(p.H) && p.years.Padded?
    requires a.Grown() && a.Dated() && b.Grown() && b.Dated() && Head(p, a) == Head(p, b)
    ensures a.Events() == b.Events() || ChainsCollide(p, a, b)
  {
    PaddedIsWide(a);
    PaddedIsWide(b);
    HeadBindsHistory(p, a, b);
  }
}
