/** What an edit of a stored record can change while the record goes on verifying under the same two hashes. */
module TamperEvidence {
  import opened Text
  import opened Json
  import opened Digests
  import opened Instants
  import opened EntryBlocks
  import opened EntryLaws
  import opened ForensicChain
  import opened YearShifts
  import opened LinkCuts
  import opened InPlace
  import opened ForensicStore

  ghost predicate BlocksCollide(p: Platform, row: Row, row': Row) {
    Collide(p.H, Preimage(row.Blocks()), Preimage(row'.Blocks()))
  }

  ghost predicate LinksCollide(p: Platform, id: string, row: Row, id': string, row': Row) {
    Collide(p.H, ChainPreimage(p.years, row.prev, id, row.createdAt),
            ChainPreimage(p.years, row'.prev, id', row'.createdAt))
  }

  /** Both records verify, under the same hashes. */
  ghost predicate Edited(p: Platform, id: string, row: Row, id': string, row': Row) {
    && Verified(p, id, row) && Verified(p, id', row')
    && row.entryHash == row'.entryHash && row.chainHash == row'.chainHash
    && AllWellFormed(row.Blocks()) && AllWellFormed(row'.Blocks())
    && row.createdAt.Valid() && row'.createdAt.Valid()
  }

  // ---------------------------------------------------------------- the blocks

  /** No edit of the blocks goes unnoticed, whatever is written in their place, unless the original puts a positive
      number behind a number and has a number with a second non-zero digit. */
  lemma {:induction false} BlockEditsDetected(p: Platform, id: string, row: Row, id': string, row': Row)
    requires Edited(p, id, row, id', row')
    requires Separable(row.Blocks()) || AllUncut(row.Blocks())
    ensures Meaning(row.Blocks()) == Meaning(row'.Blocks()) || BlocksCollide(p, row, row')
  {
    EntryHashIgnoresEmpty(p.H, row.event, row.snapshot, row.enforcement, row.resolution);
    EntryHashIgnoresEmpty(p.H, row'.event, row'.snapshot, row'.enforcement, row'.resolution);
    EntryHashBinds(p.H, row.Blocks(), row'.Blocks());
  }

  /** In the excepted case there is an edit that verifies, for every hash function. */
  lemma {:induction false} BlockEditMissed(p: Platform, id: string, row: Row) returns (row': Row)
    requires Verified(p, id, row) && AllWellFormed(row.Blocks()) && row.createdAt.Valid()
    requires !Separable(row.Blocks()) && !AllUncut(row.Blocks())
    ensures Edited(p, id, row, id, row') && Meaning(row'.Blocks()) != Meaning(row.Blocks())
    ensures Preimage(row'.Blocks()) == Preimage(row.Blocks())
  {
    var b := EntryHashShared(p.H, row.Blocks());
    FourBlocks(b);
    row' := row.(event := b[0], snapshot := b[1], enforcement := b[2], resolution := b[3]);
    EntryHashIgnoresEmpty(p.H, row.event, row.snapshot, row.enforcement, row.resolution);
    EntryHashIgnoresEmpty(p.H, row'.event, row'.snapshot, row'.enforcement, row'.resolution);
  }

  // ---------------------------------------------------------------- links of stored rows

  /** No edit of a safe link goes unnoticed. */
  lemma {:induction false} SafeLinkEditsDetected(p: Platform, id: string, row: Row, id': string, row': Row)
    requires Edited(p, id, row, id', row') && Storable(row'.prev, id')
    requires LinkSafe(p.years, row.prev, Link(id, row.createdAt))
    ensures LinksCollide(p, id, row, id', row')
            || (OrGenesis(row.prev) == OrGenesis(row'.prev) && id == id' && row.createdAt == row'.createdAt)
  {
    if !LinksCollide(p, id, row, id', row') {
      SafeLinkFixes(p.years, row.prev, Link(id, row.createdAt), row'.prev, Link(id', row'.createdAt));
    }
  }

  /** Of any other there is an edit that can be stored and verifies, for every hash function. */
  lemma {:induction false} LinkEditMissed(p: Platform, id: string, row: Row) returns (id': string, row': Row)
    requires Verified(p, id, row) && Storable(row.prev, id) && row.createdAt.Valid()
    requires !LinkSafe(p.years, row.prev, Link(id, row.createdAt))
    ensures Verified(p, id', row') && Storable(row'.prev, id') && row'.createdAt.Valid()
    ensures row' == row.(prev := row'.prev, createdAt := row'.createdAt)
    ensures id' != id || row'.createdAt != row.createdAt
  {
    var q, l := OtherLink(p.years, row.prev, Link(id, row.createdAt));
    id', row' := l.id, row.(prev := q, createdAt := l.at);
  }

  /** One failing family: the last character of the previous hash moves to the front of the id. */
  lemma {:induction false} PrevGivesToId(p: Platform, id: string, row: Row)
    requires Verified(p, id, row) && Storable(row.prev, id) && |OrGenesis(row.prev)| > 1 && |id| < 64
    ensures var q := OrGenesis(row.prev);
            Storable(q[..|q| - 1], [q[|q| - 1]] + id)
            && Verified(p, [q[|q| - 1]] + id, row.(prev := q[..|q| - 1]))
  {
    OtherCutShares(p.years, row.prev, id, row.createdAt);
  }

  /** The other: the first character of the id moves to the end of the previous hash. */
  lemma {:induction false} PrevTakesFromId(p: Platform, c: char, id: string, row: Row)
    requires Verified(p, [c] + id, row) && Storable(row.prev, [c] + id) && |OrGenesis(row.prev)| < 64 && id != ""
    ensures var q := OrGenesis(row.prev) + [c];
            Storable(q, id) && Verified(p, id, row.(prev := q))
  {
    Associate(OrGenesis(row.prev), [c], id);
  }

  /** So an honest row behind a digest, with an id such as the server makes, verifies with its cut moved. */
  lemma {:induction false} HonestRowMoves(p: Platform, id: string, row: Row)
    requires Verified(p, id, row) && Hex64(row.prev) && 1 <= |id| < 64
    ensures Verified(p, [row.prev[63]] + id, row.(prev := row.prev[..63]))
  {
    PrevGivesToId(p, id, row);
  }

  /** And where years are not padded, the leading digits of the year can move to the end of the id. */
  lemma {:induction false} IdTakesFromYear(p: Platform, id: string, row: Row)
    requires p.years.Unpadded? && Verified(p, id, row) && WideLink(p.years, Link(id, row.createdAt))
    requires !Anchored(row.createdAt)
    ensures var l := Narrowed(Link(id, row.createdAt));
            && l.at != row.createdAt && l.at.Valid() && Verified(p, l.id, row.(createdAt := l.at))
            && (|id| <= 61 ==> |l.id| <= 64)
  {
    var l := Link(id, row.createdAt);
    WideYearsShift(l);
    SameLinkText(p.years, row.prev, l, Narrowed(l));
  }

  // ---------------------------------------------------------------- comparing an edit with the original

  /** Previous hash, id and instant are all as they were exactly when the first two kept their lengths, or the links
      collide. */
  lemma {:induction false} LinkEditsDetected(p: Platform, id: string, row: Row, id': string, row': Row)
    requires Edited(p, id, row, id', row')
    ensures LinksCollide(p, id, row, id', row')
            || ((OrGenesis(row.prev) == OrGenesis(row'.prev) && id == id' && row.createdAt == row'.createdAt)
                <==> (|OrGenesis(row.prev)| == |OrGenesis(row'.prev)| && |id| == |id'|))
  {
    if !LinksCollide(p, id, row, id', row') {
      ChainTextFixesParts(p.years, row.prev, Link(id, row.createdAt), row'.prev, Link(id', row'.createdAt));
    }
  }

  /** Between timestamps of full width the instant is fixed, and the previous hash is what it was exactly when the id
      is, or, what comes to the same, when it has its old length. */
  lemma {:induction false} WideLinkEditsDetected(p: Platform, id: string, row: Row, id': string, row': Row)
    requires Edited(p, id, row, id', row')
    requires WideLink(p.years, Link(id, row.createdAt)) && WideLink(p.years, Link(id', row'.createdAt))
    ensures LinksCollide(p, id, row, id', row')
            || (row.createdAt == row'.createdAt
                && (OrGenesis(row.prev) == OrGenesis(row'.prev) <==> id == id')
                && (OrGenesis(row.prev) == OrGenesis(row'.prev) <==> |OrGenesis(row.prev)| == |OrGenesis(row'.prev)|))
  {
    if !LinksCollide(p, id, row, id', row') {
      var s, t := OrGenesis(row.prev), OrGenesis(row'.prev);
      ChainPreimageSplit(p.years, row.prev, Link(id, row.createdAt), row'.prev, Link(id', row'.createdAt));
      if |s| == |t| { SplitEqual(s, id, t, id'); }
      if id == id' { assert |s + id| == |t + id'|; }
    }
  }

  /** A record edited in place, under its own id, keeps blocks, previous hash and instant, whatever the client sent as
      previous hash. */
  lemma {:induction false} EditsInPlaceDetected(p: Platform, id: string, row: Row, row': Row)
    requires Edited(p, id, row, id, row')
    requires WideLink(p.years, Link(id, row.createdAt)) && WideLink(p.years, Link(id, row'.createdAt))
    requires Separable(row.Blocks()) || AllUncut(row.Blocks())
    ensures || (Meaning(row.Blocks()) == Meaning(row'.Blocks()) && row.createdAt == row'.createdAt
                && OrGenesis(row.prev) == OrGenesis(row'.prev))
            || BlocksCollide(p, row, row')
            || LinksCollide(p, id, row, id, row')
  {
    BlockEditsDetected(p, id, row, id, row');
    WideLinkEditsDetected(p, id, row, id, row');
  }

  /** The same for a record that is safe in place, whatever the edited instant is. */
  lemma {:induction false} SafeInPlaceDetected(p: Platform, id: string, row: Row, row': Row)
    requires Edited(p, id, row, id, row') && |row'.prev| <= 64
    requires SafeInPlace(p.years, row.prev, Link(id, row.createdAt))
    requires Separable(row.Blocks()) || AllUncut(row.Blocks())
    ensures || (Meaning(row.Blocks()) == Meaning(row'.Blocks()) && row.createdAt == row'.createdAt
                && OrGenesis(row.prev) == OrGenesis(row'.prev))
            || BlocksCollide(p, row, row')
            || LinksCollide(p, id, row, id, row')
  {
    BlockEditsDetected(p, id, row, id, row');
    if !LinksCollide(p, id, row, id, row') {
      SafeInPlaceFixes(p.years, row.prev, Link(id, row.createdAt), row'.prev, row'.createdAt);
    }
  }

  /** In particular for every record whose id is not a number, of whatever years, padded or not. */
  lemma {:induction false} NamedEditsInPlaceDetected(p: Platform, id: string, row: Row, row': Row)
    requires Edited(p, id, row, id, row') && |row'.prev| <= 64 && !AllDigits(id)
    requires Separable(row.Blocks()) || AllUncut(row.Blocks())
    ensures || (Meaning(row.Blocks()) == Meaning(row'.Blocks()) && row.createdAt == row'.createdAt
                && OrGenesis(row.prev) == OrGenesis(row'.prev))
            || BlocksCollide(p, row, row')
            || LinksCollide(p, id, row, id, row')
  {
    NamesAreSafe(p.years, row.prev, Link(id, row.createdAt));
    SafeInPlaceDetected(p, id, row, row');
  }

  /** A record that is not safe in place has an edit under its id that verifies, for every hash function. */
  lemma {:induction false} EditInPlaceMissed(p: Platform, id: string, row: Row) returns (row': Row)
    requires Verified(p, id, row) && row.createdAt.Valid()
    requires !SafeInPlace(p.years, row.prev, Link(id, row.createdAt))
    ensures Verified(p, id, row') && |row'.prev| <= 64 && row'.createdAt.Valid()
    ensures row' == row.(prev := row'.prev, createdAt := row'.createdAt) && row'.createdAt != row.createdAt
  {
    var l := Link(id, row.createdAt);
    var k :| 1 <= k <= 4 && Again(row.prev, l, k) && k != |Decimal(l.at.year)|;
    ReplacedShares(row.prev, l, k);
    row' := row.(prev := Replaced(row.prev, l, k).0, createdAt := Replaced(row.prev, l, k).1);
  }

  /** Where years are padded, whatever the instants are. */
  lemma {:induction false} PaddedEditsInPlaceDetected(p: Platform, id: string, row: Row, row': Row)
    requires p.years.Padded? && Edited(p, id, row, id, row')
    requires Separable(row.Blocks()) || AllUncut(row.Blocks())
    ensures || (Meaning(row.Blocks()) == Meaning(row'.Blocks()) && row.createdAt == row'.createdAt
                && OrGenesis(row.prev) == OrGenesis(row'.prev))
            || BlocksCollide(p, row, row')
            || LinksCollide(p, id, row, id, row')
  {
    EditsInPlaceDetected(p, id, row, row');
  }

  /** Between previous hashes that are both the marker or a digest, as the chain makes them, the id is fixed as well. */
  lemma {:induction false} EditsDetected(p: Platform, id: string, row: Row, id': string, row': Row)
    requires Edited(p, id, row, id', row')
    requires (Genesis(row.prev) || Hex64(row.prev)) && (Genesis(row'.prev) || Hex64(row'.prev))
    requires WideLink(p.years, Link(id, row.createdAt)) && WideLink(p.years, Link(id', row'.createdAt))
    requires Separable(row.Blocks()) || AllUncut(row.Blocks())
    ensures || (Meaning(row.Blocks()) == Meaning(row'.Blocks()) && id == id' && row.createdAt == row'.createdAt
                && OrGenesis(row.prev) == OrGenesis(row'.prev))
            || BlocksCollide(p, row, row')
            || LinksCollide(p, id, row, id', row')
  {
    BlockEditsDetected(p, id, row, id', row');
    WideLinkEditsDetected(p, id, row, id', row');
    if !LinksCollide(p, id, row, id', row') {
      ChainPreimageSplit(p.years, row.prev, Link(id, row.createdAt), row'.prev, Link(id', row'.createdAt));
      PrevSplit(row.prev, id, row'.prev, id');
    }
  }
}
