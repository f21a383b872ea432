/** What an edit that keeps the id can move: the same id must stand in the text once more, a few characters on. */
module InPlace {
  import opened Text
  import opened Instants
  import opened ForensicChain
  import opened YearShifts
  import opened YearReadings
  import opened LinkCuts

  predicate EndsWith(s: string, id: string) {
    |id| <= |s| && s[|s| - |id|..] == id
  }

  /** With a year of `k` characters, what stands in front of it is a previous hash that fits and the same id. */
  predicate Again(prev: string, l: Link, k: nat) {
    var w := Front(prev, l);
    Reads(w, l.at, k) && EndsWith(w[..|w| - k], l.id) && 1 <= |w| - k - |l.id| <= 64
  }

  predicate SafeInPlace(y: Years, prev: string, l: Link) {
    y.Padded? || forall k :: 1 <= k <= 4 && Again(prev, l, k) ==> k == |Decimal(l.at.year)|
  }

  /** Under this id no other previous hash and instant have the same text. */
  ghost predicate FixedInPlace(y: Years, prev: string, l: Link) {
    forall q: string, at: Instant ::
      |q| <= 64 && at.Valid() && ChainPreimage(y, q, l.id, at) == ChainPreimage(y, prev, l.id, l.at)
      ==> OrGenesis(q) == OrGenesis(prev) && at == l.at
  }

  /** The two texts agree up to the time of day. */
  lemma JoinedInPlace(y: Years, prev: string, l: Link, q: string, at: Instant)
    requires l.at.Valid() && at.Valid()
    requires ChainPreimage(y, q, l.id, at) == ChainPreimage(y, prev, l.id, l.at)
    ensures OrGenesis(prev) + l.id + YearText(y, l.at.year) == OrGenesis(q) + l.id + YearText(y, at.year)
    ensures l.at.(year := at.year) == at
  {
    JoinedParts(y, prev, l, q, Link(l.id, at));
    LinkTextSplit(y, Link(OrGenesis(prev) + l.id, l.at), Link(OrGenesis(q) + l.id, at));
  }

  lemma SafeInPlaceFixes(y: Years, prev: string, l: Link, q: string, at: Instant)
    requires l.at.Valid() && at.Valid() && |q| <= 64 && SafeInPlace(y, prev, l)
    requires ChainPreimage(y, q, l.id, at) == ChainPreimage(y, prev, l.id, l.at)
    ensures OrGenesis(q) == OrGenesis(prev) && at == l.at
  {
    var p, r := OrGenesis(prev), OrGenesis(q);
    JoinedInPlace(y, prev, l, q, at);
    if y.Unpadded? {
      YearReads(r + l.id, at.year, l.at);
      assert Again(prev, l, |Decimal(at.year)|);
    }
    SplitEqual(p + l.id, YearText(y, l.at.year), r + l.id, YearText(y, at.year));
    YearInjective(y, l.at.year, at.year);
    SplitEqual(p, l.id, r, l.id);
  }

  /** Another previous hash and instant under the same id. */
  function Replaced(prev: string, l: Link, k: nat): (string, Instant)
    requires Again(prev, l, k)
  {
    var w := Front(prev, l);
    (w[..|w| - k - |l.id|], l.at.(year := Number(w, k)))
  }

  lemma ReplacedShares(prev: string, l: Link, k: nat)
    requires Again(prev, l, k) && k != |Decimal(l.at.year)|
    ensures var (q, at) := Replaced(prev, l, k);
            && |q| <= 64 && at.Valid() && at != l.at
            && ChainPreimage(Unpadded, q, l.id, at) == ChainPreimage(Unpadded, prev, l.id, l.at)
  {
    var w, a := Front(prev, l), Link(OrGenesis(prev) + l.id, l.at);
    var (q, at) := Replaced(prev, l, k);
    ReadLinkShares(a, k);
    assert q + l.id == w[..|w| - k];
  }

  /** Under its id a stored link can be read back exactly when it is safe in place. */
  lemma {:induction false} FixedInPlaceExactly(y: Years, prev: string, l: Link)
    requires l.at.Valid()
    ensures FixedInPlace(y, prev, l) <==> SafeInPlace(y, prev, l)
  {
    if SafeInPlace(y, prev, l) {
      forall q: string, at: Instant |
        |q| <= 64 && at.Valid() && ChainPreimage(y, q, l.id, at) == ChainPreimage(y, prev, l.id, l.at)
        ensures OrGenesis(q) == OrGenesis(prev) && at == l.at
      {
        SafeInPlaceFixes(y, prev, l, q, at);
      }
    } else {
      var k :| 1 <= k <= 4 && Again(prev, l, k) && k != |Decimal(l.at.year)|;
      ReplacedShares(prev, l, k);
    }
  }

  // ---------------------------------------------------------------- ids that are not numbers

  predicate AllDigits(s: string) {
    forall i :: 0 <= i < |s| ==> DigitChar(s[i])
  }

  /** A text that repeats an id `|d|` digits on repeats digits. */
  lemma {:induction false} RepeatsDigits(p: string, id: string, d: string, q: string, i: nat)
    requires p + id + d == q + id && d != "" && AllDigits(d) && i < |id|
    ensures DigitChar(id[|id| - 1 - i])
    decreases i
  {
    var s, t := p + id + d, q + id;
    assert t[|t| - 1 - i] == id[|id| - 1 - i];
    if i < |d| {
      assert s[|s| - 1 - i] == d[|d| - 1 - i];
    } else {
      assert s[|s| - 1 - i] == id[|id| - 1 - (i - |d|)];
      RepeatsDigits(p, id, d, q, i - |d|);
    }
  }

  lemma OnlyNumbersRepeat(p: string, id: string, d: string, q: string)
    requires p + id + d == q + id && d != "" && AllDigits(d)
    ensures AllDigits(id)
  {
    forall i | 0 <= i < |id| ensures DigitChar(id[i]) {
      RepeatsDigits(p, id, d, q, |id| - 1 - i);
    }
  }

  /** `p`, `id` and a long number in one text, `q`, `id` and its end in the other. */
  lemma LongerYear(p: string, id: string, year: string, q: string, end: string)
    requires p + id + year == q + id + end && |end| < |year| && AllDigits(year)
    ensures AllDigits(id)
  {
    var d := year[..|year| - |end|];
    var rest := year[|year| - |end|..];
    assert year == d + rest;
    Associate(p + id, d, rest);
    assert |p + id + d| + |end| == |q + id + end|;
    SplitEqual(p + id + d, rest, q + id, end);
    OnlyNumbersRepeat(p, id, d, q);
  }

  lemma FrontParts(w: string, id: string, k: nat) returns (q: string, end: string)
    requires k <= |w| && EndsWith(w[..|w| - k], id)
    ensures q + id + end == w && |end| == k && end == w[|w| - k..]
  {
    var u := w[..|w| - k];
    q, end := u[..|u| - |id|], w[|w| - k..];
    assert q + id == u;
  }

  lemma AgainRepeats(prev: string, l: Link, k: nat)
    requires Again(prev, l, k) && k != |Decimal(l.at.year)|
    ensures AllDigits(l.id)
  {
    var w, year := Front(prev, l), Decimal(l.at.year);
    var q, end := FrontParts(w, l.id, k);
    if k < |year| {
      LongerYear(OrGenesis(prev), l.id, year, q, end);
    } else {
      LongerYear(q, l.id, end, OrGenesis(prev), year);
    }
  }

  /** An id with a character that is no digit, such as those the server makes, is always safe in place. */
  lemma {:induction false} NamesAreSafe(y: Years, prev: string, l: Link)
    requires !AllDigits(l.id)
    ensures SafeInPlace(y, prev, l)
  {
    forall k | 1 <= k <= 4 && Again(prev, l, k) ensures k == |Decimal(l.at.year)| {
      if k != |Decimal(l.at.year)| { AgainRepeats(prev, l, k); }
    }
  }
}
