/** When the undelimited blocks of a record can be told apart. Only numbers run together: text in which a number is
    followed by a positive number can be cut elsewhere, in front of any non-zero digit. */
module EntryLaws {
  import opened Text
  import opened Json
  import opened JsonParser
  import opened Digests
  import opened EntryBlocks

  // ---------------------------------------------------------------- numbers side by side

  /** `Glue` for a first number of either sign. */
  function Join(n: int, m: nat): int {
    if n < 0 then 0 - Glue(-n, m) else Glue(n, m)
  }

  lemma JoinText(n: int, m: nat)
    requires n != 0
    ensures Join(n, m) != 0 && Join(n, m) != n && (Join(n, m) > 0 <==> n > 0)
    ensures Integer(Join(n, m)) == Integer(n) + Integer(m)
  {
    if n < 0 {
      GlueText(-n, m);
      Associate("-", Decimal(-n), Decimal(m));
    } else {
      GlueText(n, m);
    }
  }

  /** One digit followed by zeros: a number that cannot be cut. */
  predicate Round(n: nat) {
    n < 10 || (n % 10 == 0 && Round(n / 10))
  }

  function Magnitude(n: int): nat {
    if n < 0 then -n else n
  }

  /** The cut in front of the last non-zero digit. */
  function Cut(n: nat): (r: (nat, nat))
    requires !Round(n)
    ensures 0 < r.0 < n && 0 < r.1 && Round(r.1)
  {
    if n % 10 != 0 then (n / 10, n % 10)
    else
      var (x, y) := Cut(n / 10);
      (x, 10 * y)
  }

  lemma {:induction false} CutText(n: nat)
    requires !Round(n)
    ensures Decimal(n) == Decimal(Cut(n).0) + Decimal(Cut(n).1)
  {
    if n % 10 == 0 {
      var (x, y) := Cut(n / 10);
      CutText(n / 10);
      assert Decimal(10 * y) == Decimal(y) + "0";
      Associate(Decimal(x), Decimal(y), "0");
    }
  }

  function CutSigned(n: int): (r: (int, nat))
    requires !Round(Magnitude(n))
    ensures r.0 != 0 && r.0 != n && r.1 > 0 && Round(r.1) && Magnitude(r.0) < Magnitude(n)
    ensures r.0 > 0 <==> n > 0
  {
    if n < 0 then (0 - Cut(-n).0, Cut(-n).1) else Cut(n)
  }

  lemma CutSignedText(n: int)
    requires !Round(Magnitude(n))
    ensures Integer(n) == Integer(CutSigned(n).0) + Integer(CutSigned(n).1)
  {
    CutText(Magnitude(n));
    if n < 0 { Associate("-", Decimal(Cut(-n).0), Decimal(Cut(-n).1)); }
  }

  // ---------------------------------------------------------------- block lists

  predicate Number(v: Json) {
    v.Num? && v.n != 0
  }

  predicate Positive(v: Json) {
    v.Num? && v.n > 0
  }

  lemma NumberText(n: int)
    requires n != 0
    ensures CanonicalDumps(OrEmpty(Num(n))) == Integer(n) && Denote(OrEmpty(Num(n))) == VNum(n)
  {
  }

  lemma {:induction false} PreimageConcat(a: seq<Json>, b: seq<Json>)
    ensures Preimage(a + b) == Preimage(a) + Preimage(b)
  {
    if a == [] {
      assert a + b == b;
    } else {
      assert (a + b)[1..] == a[1..] + b;
      PreimageConcat(a[1..], b);
      Associate(CanonicalDumps(OrEmpty(a[0])), Preimage(a[1..]), Preimage(b));
    }
  }

  lemma {:induction false} MeaningAt(blocks: seq<Json>, i: nat)
    ensures |Meaning(blocks)| == |blocks|
    ensures i < |blocks| ==> Meaning(blocks)[i] == Denote(OrEmpty(blocks[i]))
  {
    if blocks != [] {
      MeaningCons(blocks);
      MeaningAt(blocks[1..], if i > 0 then i - 1 else 0);
    }
  }

  /** Replacing one stretch of blocks by another with the same text. */
  lemma ReplaceText(before: seq<Json>, x: seq<Json>, y: seq<Json>, after: seq<Json>)
    requires Preimage(x) == Preimage(y)
    ensures Preimage(before + x + after) == Preimage(before + y + after)
  {
    PreimageConcat(before + x, after);
    PreimageConcat(before, x);
    PreimageConcat(before + y, after);
    PreimageConcat(before, y);
  }

  lemma OneText(v: Json)
    ensures Preimage([v]) == CanonicalDumps(OrEmpty(v))
  {
    assert Preimage([v]) == CanonicalDumps(OrEmpty(v)) + Preimage([v][1..]);
  }

  lemma PairText(n: int, m: int)
    requires n != 0 && m != 0
    ensures Preimage([Num(n), Num(m)]) == Integer(n) + Integer(m)
  {
    PreimageConcat([Num(n)], [Num(m)]);
    assert [Num(n)] + [Num(m)] == [Num(n), Num(m)];
    OneText(Num(n));
    OneText(Num(m));
  }

  // ---------------------------------------------------------------- the coarsest reading

  /** Joins every number with the positive numbers behind it. */
  function Coarse(blocks: seq<Json>): seq<Json> {
    if blocks == [] then []
    else
      var rest := Coarse(blocks[1..]);
      if Number(blocks[0]) && rest != [] && Positive(rest[0]) then [Num(Join(blocks[0].n, rest[0].n))] + rest[1..]
      else [blocks[0]] + rest
  }

  lemma {:induction false} CoarseText(blocks: seq<Json>)
    ensures Preimage(Coarse(blocks)) == Preimage(blocks)
  {
    if blocks != [] {
      CoarseText(blocks[1..]);
      var first, rest := blocks[0], Coarse(blocks[1..]);
      assert blocks == [first] + blocks[1..];
      PreimageConcat([first], blocks[1..]);
      PreimageConcat([first], rest);
      if Number(first) && rest != [] && Positive(rest[0]) {
        JoinText(first.n, rest[0].n);
        PairText(first.n, rest[0].n);
        OneText(Num(Join(first.n, rest[0].n)));
        ReplaceText([], [first, rest[0]], [Num(Join(first.n, rest[0].n))], rest[1..]);
        assert [first] + rest == [] + [first, rest[0]] + rest[1..];
      }
    }
  }

  lemma SeparableCons(v: Json, rest: seq<Json>)
    requires Separable(rest) && (rest == [] || !(Number(v) && Positive(rest[0])))
    ensures Separable([v] + rest)
  {
    var all := [v] + rest;
    forall i | 0 < i < |all| && Positive(all[i]) ensures !Number(all[i - 1]) {
      if i > 1 { assert all[i] == rest[i - 1] && all[i - 1] == rest[i - 2]; }
    }
  }

  lemma SeparableHead(v: Json, rest: seq<Json>)
    requires Separable(rest) && rest != [] && Number(v) && Number(rest[0])
    ensures Separable([v] + rest[1..])
  {
    var all := [v] + rest[1..];
    forall i | 0 < i < |all| && Positive(all[i]) ensures !Number(all[i - 1]) {
      assert all[i] == rest[i] && Positive(rest[i]);
      assert !(rest[i - 1].Num? && Truthy(rest[i - 1]));
    }
  }

  lemma {:induction false} CoarseWellFormed(blocks: seq<Json>)
    requires AllWellFormed(blocks)
    ensures AllWellFormed(Coarse(blocks))
  {
    if blocks != [] { CoarseWellFormed(blocks[1..]); }
  }

  lemma {:induction false} CoarseSeparable(blocks: seq<Json>)
    ensures Separable(Coarse(blocks)) && |Coarse(blocks)| <= |blocks|
    ensures |Coarse(blocks)| == |blocks| ==> Coarse(blocks) == blocks
    ensures blocks != [] ==> Coarse(blocks) != [] && (Positive(Coarse(blocks)[0]) <==> Positive(blocks[0]))
  {
    if blocks != [] {
      var first, rest := blocks[0], Coarse(blocks[1..]);
      CoarseSeparable(blocks[1..]);
      if Number(first) && rest != [] && Positive(rest[0]) {
        JoinText(first.n, rest[0].n);
        SeparableHead(Num(Join(first.n, rest[0].n)), rest);
      } else {
        SeparableCons(first, rest);
      }
    }
  }

  /** Separable blocks are the shortest with their text, and the only ones of their length. */
  lemma {:induction false} SeparableUnique(a: seq<Json>, b: seq<Json>)
    requires AllWellFormed(a) && AllWellFormed(b) && Separable(a) && Preimage(a) == Preimage(b)
    ensures |a| <= |b| && (|a| == |b| ==> Meaning(a) == Meaning(b))
  {
    CoarseText(b);
    CoarseWellFormed(b);
    CoarseSeparable(b);
    PreimageUnique(a, Coarse(b));
    MeaningAt(a, 0);
    MeaningAt(Coarse(b), 0);
  }

  // ---------------------------------------------------------------- the finest reading

  predicate Uncut(v: Json) {
    v.Num? ==> Round(Magnitude(v.n))
  }

  /** Every number block is one digit followed by zeros. */
  predicate AllUncut(blocks: seq<Json>) {
    forall i :: 0 <= i < |blocks| ==> Uncut(blocks[i])
  }

  function FineOf(v: Json): seq<Json>
    decreases if v.Num? then Magnitude(v.n) else 0
  {
    if Uncut(v) then [v] else FineOf(Num(CutSigned(v.n).0)) + [Num(CutSigned(v.n).1)]
  }

  /** Cuts every number wherever it can be cut. */
  function Fine(blocks: seq<Json>): seq<Json> {
    if blocks == [] then [] else FineOf(blocks[0]) + Fine(blocks[1..])
  }

  lemma {:induction false} FineOfSound(v: Json)
    requires WellFormed(v)
    ensures Preimage(FineOf(v)) == Preimage([v])
    ensures AllUncut(FineOf(v)) && AllWellFormed(FineOf(v)) && FineOf(v) != []
    ensures |FineOf(v)| == 1 ==> FineOf(v) == [v]
    decreases if v.Num? then Magnitude(v.n) else 0
  {
    if !Uncut(v) {
      var (x, y) := CutSigned(v.n);
      FineOfSound(Num(x));
      CutSignedText(v.n);
      PreimageConcat(FineOf(Num(x)), [Num(y)]);
      OneText(Num(x));
      OneText(Num(y));
      OneText(v);
    }
  }

  lemma {:induction false} FineSound(blocks: seq<Json>)
    requires AllWellFormed(blocks)
    ensures Preimage(Fine(blocks)) == Preimage(blocks)
    ensures AllUncut(Fine(blocks)) && AllWellFormed(Fine(blocks)) && |blocks| <= |Fine(blocks)|
    ensures |Fine(blocks)| == |blocks| ==> Fine(blocks) == blocks
  {
    if blocks != [] {
      FineOfSound(blocks[0]);
      FineSound(blocks[1..]);
      PreimageConcat(FineOf(blocks[0]), Fine(blocks[1..]));
      PreimageConcat([blocks[0]], blocks[1..]);
      assert [blocks[0]] + blocks[1..] == blocks;
    }
  }

  lemma {:induction false} RoundText(n: nat, i: nat)
    requires Round(n) && 0 < i < |Decimal(n)|
    ensures Decimal(n)[i] == '0'
  {
    if i < |Decimal(n)| - 1 { RoundText(n / 10, i); }
  }

  /** No number starts with a zero, so only the digits themselves can follow an uncut number with one. */
  predicate NoZeroFirst(t: string) {
    t == "" || t[0] != '0'
  }

  lemma UncutFollowed(blocks: seq<Json>)
    ensures NoZeroFirst(Preimage(blocks))
  {
    if blocks != [] {
      var v := OrEmpty(blocks[0]);
      if v.Num? { LeadingDigit(Magnitude(v.n)); }
    }
  }

  lemma NextChar(x: string, s: string, y: string, t: string)
    requires x + s == y + t && |x| < |y|
    ensures s != "" && s[0] == y[|x|]
  {
    assert (x + s)[|x|] == (y + t)[|x|];
  }

  lemma RoundNotLonger(n: nat, m: nat, s: string, t: string)
    requires Round(m) && NoZeroFirst(s) && Decimal(n) + s == Decimal(m) + t
    ensures |Decimal(m)| <= |Decimal(n)|
  {
    if |Decimal(n)| < |Decimal(m)| {
      RoundText(m, |Decimal(n)|);
      NextChar(Decimal(n), s, Decimal(m), t);
    }
  }

  /** An uncut number is read off the front of a text in one way only. */
  lemma RoundPrefix(n: nat, m: nat, s: string, t: string)
    requires Round(n) && Round(m) && NoZeroFirst(s) && NoZeroFirst(t)
    requires Decimal(n) + s == Decimal(m) + t
    ensures n == m && s == t
  {
    RoundNotLonger(n, m, s, t);
    RoundNotLonger(m, n, t, s);
    SplitEqual(Decimal(n), s, Decimal(m), t);
    ReadDecimal(n, "");
    ReadDecimal(m, "");
  }

  lemma SignShows(n: int, s: string)
    ensures (Integer(n) + s)[0] == '-' <==> n < 0
    ensures n < 0 ==> (Integer(n) + s)[1..] == Decimal(-n) + s
  {
    assert (Integer(n) + s)[0] == Integer(n)[0];
    if n < 0 { Associate("-", Decimal(-n), s); }
  }

  lemma SignedPrefix(n: int, m: int, s: string, t: string)
    requires Round(Magnitude(n)) && Round(Magnitude(m)) && NoZeroFirst(s) && NoZeroFirst(t)
    requires Integer(n) + s == Integer(m) + t
    ensures n == m && s == t
  {
    SignShows(n, s);
    SignShows(m, t);
    RoundPrefix(Magnitude(n), Magnitude(m), s, t);
  }

  /** A block is a number exactly when its text starts like one. */
  lemma NumberFirst(v: Json)
    ensures Emit(SortKeys(v)) != ""
    ensures v.Num? <==> Emit(SortKeys(v))[0] == '-' || DigitChar(Emit(SortKeys(v))[0])
  {
  }

  /** One step of reading two lists of uncut blocks with one text. */
  lemma UncutStep(v: Json, w: Json, s: string, t: string)
    requires WellFormed(v) && WellFormed(w) && Uncut(v) && Uncut(w) && NoZeroFirst(s) && NoZeroFirst(t)
    requires CanonicalDumps(v) + s == CanonicalDumps(w) + t
    ensures Denote(v) == Denote(w) && s == t
  {
    NumberFirst(v);
    NumberFirst(w);
    assert (CanonicalDumps(v) + s)[0] == CanonicalDumps(v)[0] && (CanonicalDumps(w) + t)[0] == CanonicalDumps(w)[0];
    if v.Num? {
      SignedPrefix(v.n, w.n, s, t);
    } else {
      ValueRead(SortKeys(v), s);
      ValueRead(SortKeys(w), t);
      SortKeysSound(v);
      SortKeysSound(w);
    }
  }

  lemma {:induction false} UncutDecodes(a: seq<Json>, b: seq<Json>)
    requires AllWellFormed(a) && AllWellFormed(b) && AllUncut(a) && AllUncut(b) && Preimage(a) == Preimage(b)
    ensures Meaning(a) == Meaning(b)
  {
    if a != [] { NumberFirst(OrEmpty(a[0])); }
    if b != [] { NumberFirst(OrEmpty(b[0])); }
    if a != [] && b != [] {
      UncutFollowed(a[1..]);
      UncutFollowed(b[1..]);
      UncutStep(OrEmpty(a[0]), OrEmpty(b[0]), Preimage(a[1..]), Preimage(b[1..]));
      UncutDecodes(a[1..], b[1..]);
      MeaningCons(a);
      MeaningCons(b);
    }
  }

  /** Uncut blocks are the most with their text, and the only ones of their length. */
  lemma {:induction false} UncutUnique(a: seq<Json>, b: seq<Json>)
    requires AllWellFormed(a) && AllWellFormed(b) && AllUncut(a) && Preimage(a) == Preimage(b)
    ensures |b| <= |a| && (|a| == |b| ==> Meaning(a) == Meaning(b))
  {
    FineSound(b);
    UncutDecodes(a, Fine(b));
    MeaningAt(a, 0);
    MeaningAt(Fine(b), 0);
  }

  // ---------------------------------------------------------------- moving a cut

  /** Cuts block `j` in two. */
  function CutAt(a: seq<Json>, j: nat): seq<Json>
    requires j < |a| && !Uncut(a[j])
  {
    a[..j] + [Num(CutSigned(a[j].n).0), Num(CutSigned(a[j].n).1)] + a[j + 1..]
  }

  /** Joins block `k` to the one before it. */
  function JoinAt(a: seq<Json>, k: nat): seq<Json>
    requires 0 < k < |a| && Number(a[k - 1]) && Positive(a[k])
  {
    a[..k - 1] + [Num(Join(a[k - 1].n, a[k].n))] + a[k + 1..]
  }

  lemma AroundOne(a: seq<Json>, j: nat)
    requires j < |a|
    ensures a == a[..j] + [a[j]] + a[j + 1..]
  {
  }

  lemma AroundTwo(a: seq<Json>, k: nat)
    requires 0 < k < |a|
    ensures a == a[..k - 1] + [a[k - 1], a[k]] + a[k + 1..]
  {
  }

  lemma CutAtText(a: seq<Json>, j: nat)
    requires j < |a| && !Uncut(a[j])
    ensures Preimage(CutAt(a, j)) == Preimage(a)
  {
    var (x, y) := CutSigned(a[j].n);
    CutSignedText(a[j].n);
    PairText(x, y);
    OneText(a[j]);
    ReplaceText(a[..j], [a[j]], [Num(x), Num(y)], a[j + 1..]);
    AroundOne(a, j);
  }

  lemma JoinedText(n: int, m: int)
    requires n != 0 && m > 0
    ensures Preimage([Num(n), Num(m)]) == Preimage([Num(Join(n, m))])
  {
    JoinText(n, m);
    PairText(n, m);
    OneText(Num(Join(n, m)));
  }

  lemma JoinAtText(a: seq<Json>, k: nat)
    requires 0 < k < |a| && Number(a[k - 1]) && Positive(a[k])
    ensures Preimage(JoinAt(a, k)) == Preimage(a)
  {
    JoinedText(a[k - 1].n, a[k].n);
    ReplaceText(a[..k - 1], [a[k - 1], a[k]], [Num(Join(a[k - 1].n, a[k].n))], a[k + 1..]);
    AroundTwo(a, k);
  }

  /** Another list with the text of `a`: number `j` is cut in two and the pair ending at `i` joined. */
  function MoveCut(a: seq<Json>, i: nat, j: nat): (b: seq<Json>)
    requires 0 < i < |a| && Number(a[i - 1]) && Positive(a[i]) && j < |a| && !Uncut(a[j])
    ensures |b| == |a|
  {
    JoinAt(CutAt(a, j), if j < i then i + 1 else i)
  }

  lemma MoveCutChanges(a: seq<Json>, i: nat, j: nat)
    requires 0 < i < |a| && Number(a[i - 1]) && Positive(a[i]) && j < |a| && !Uncut(a[j])
    ensures var b := MoveCut(a, i, j);
            if j < i then b[j] == Num(CutSigned(a[j].n).0)
            else b[i - 1].Num? && b[i - 1].n != a[i - 1].n && b[i - 1].n != 0
  {
    var s := CutAt(a, j);
    if j >= i { JoinText(s[i - 1].n, s[i].n); }
  }

  lemma JoinableAfterCut(a: seq<Json>, i: nat, j: nat) returns (k: nat)
    requires 0 < i < |a| && Number(a[i - 1]) && Positive(a[i]) && j < |a| && !Uncut(a[j])
    ensures k == if j < i then i + 1 else i
    ensures k < |CutAt(a, j)| && Number(CutAt(a, j)[k - 1]) && Positive(CutAt(a, j)[k])
    ensures MoveCut(a, i, j) == JoinAt(CutAt(a, j), k)
  {
    k := if j < i then i + 1 else i;
  }

  lemma MovedCutText(a: seq<Json>, i: nat, j: nat)
    requires AllWellFormed(a) && 0 < i < |a| && Number(a[i - 1]) && Positive(a[i]) && j < |a| && !Uncut(a[j])
    ensures AllWellFormed(MoveCut(a, i, j)) && Preimage(MoveCut(a, i, j)) == Preimage(a)
  {
    var k := JoinableAfterCut(a, i, j);
    CutWellFormed(a, j);
    CutAtText(a, j);
    JoinWellFormed(CutAt(a, j), k);
    JoinAtText(CutAt(a, j), k);
  }

  /** The failing family: wherever a number is followed by a positive one, and some number of the list has a second
      non-zero digit, a different list of the same length has the same text. */
  lemma {:induction false} MovedCutShares(a: seq<Json>, i: nat, j: nat)
    requires AllWellFormed(a) && 0 < i < |a| && Number(a[i - 1]) && Positive(a[i]) && j < |a| && !Uncut(a[j])
    ensures AllWellFormed(MoveCut(a, i, j)) && Preimage(MoveCut(a, i, j)) == Preimage(a)
    ensures Meaning(MoveCut(a, i, j)) != Meaning(a)
  {
    MovedCutText(a, i, j);
    MoveCutChanges(a, i, j);
    OtherNumber(a, MoveCut(a, i, j), if j < i then j else i - 1);
  }

  lemma CutWellFormed(a: seq<Json>, j: nat)
    requires AllWellFormed(a) && j < |a| && !Uncut(a[j])
    ensures AllWellFormed(CutAt(a, j))
  {
  }

  lemma JoinWellFormed(a: seq<Json>, k: nat)
    requires AllWellFormed(a) && 0 < k < |a| && Number(a[k - 1]) && Positive(a[k])
    ensures AllWellFormed(JoinAt(a, k))
  {
  }

  lemma OtherNumber(a: seq<Json>, b: seq<Json>, k: nat)
    requires k < |a| == |b| && Number(a[k]) && Number(b[k]) && a[k].n != b[k].n
    ensures Meaning(a) != Meaning(b)
  {
    MeaningAt(a, k);
    MeaningAt(b, k);
    NumberText(a[k].n);
    NumberText(b[k].n);
  }

  /** In particular a digit moves from a number of either sign to the positive number behind it. */
  lemma AdjacentNumbersShift(n: int, m: nat, tail: seq<Json>)
    requires !Round(Magnitude(n)) && m > 0 && AllWellFormed(tail)
    ensures var (x, y) := CutSigned(n);
            var a, b := [Num(n), Num(m)] + tail, [Num(x), Num(Join(y, m))] + tail;
            Preimage(a) == Preimage(b) && Meaning(a) != Meaning(b)
  {
    var (x, y) := CutSigned(n);
    var a := [Num(n), Num(m)] + tail;
    MovedCutShares(a, 1, 0);
    assert CutAt(a, 0) == [Num(x), Num(y), Num(m)] + tail;
    assert JoinAt(CutAt(a, 0), 2) == [Num(x), Num(Join(y, m))] + tail;
  }

  // ---------------------------------------------------------------- the exact condition

  /** No other blocks, as many of them, have the text of `a`. */
  ghost predicate Decodable(a: seq<Json>) {
    forall b :: |b| == |a| && AllWellFormed(b) && Preimage(b) == Preimage(a) ==> Meaning(b) == Meaning(a)
  }

  /** A record's blocks can be read back from their text if and only if no number is followed by a positive number, or
      no number has a second non-zero digit. */
  lemma DecodableExactly(a: seq<Json>)
    requires AllWellFormed(a)
    ensures Decodable(a) <==> Separable(a) || AllUncut(a)
  {
    if Separable(a) || AllUncut(a) {
      forall b | |b| == |a| && AllWellFormed(b) && Preimage(b) == Preimage(a) ensures Meaning(b) == Meaning(a) {
        if Separable(a) { SeparableUnique(a, b); } else { UncutUnique(a, b); }
      }
    } else {
      var i :| 0 < i < |a| && Positive(a[i]) && Number(a[i - 1]);
      var j :| 0 <= j < |a| && !Uncut(a[j]);
      MovedCutShares(a, i, j);
    }
  }

  /** Equal entry hashes bind the four blocks, whatever the other record holds, or exhibit a collision. */
  lemma {:induction false} EntryHashBinds(H: Digest, a: seq<Json>, b: seq<Json>)
    requires |a| == |b| == 4 && AllWellFormed(a) && AllWellFormed(b)
    requires EntryHash(H, a[0], a[1], a[2], a[3]) == EntryHash(H, b[0], b[1], b[2], b[3])
    ensures Separable(a) || AllUncut(a) ==> Meaning(a) == Meaning(b) || Collide(H, Preimage(a), Preimage(b))
  {
    FourBlocks(a);
    FourBlocks(b);
    if Preimage(a) == Preimage(b) { DecodableExactly(a); }
  }

  lemma FourBlocks(a: seq<Json>)
    requires |a| == 4
    ensures a == [a[0], a[1], a[2], a[3]]
  {
  }

  /** Where it fails, it fails for every hash function: another record has the same text. */
  lemma {:induction false} EntryHashShared(H: Digest, a: seq<Json>) returns (b: seq<Json>)
    requires |a| == 4 && AllWellFormed(a) && !Separable(a) && !AllUncut(a)
    ensures |b| == 4 && AllWellFormed(b) && Meaning(a) != Meaning(b) && Preimage(a) == Preimage(b)
    ensures EntryHash(H, a[0], a[1], a[2], a[3]) == EntryHash(H, b[0], b[1], b[2], b[3])
  {
    DecodableExactly(a);
    b :| |b| == |a| && AllWellFormed(b) && Preimage(b) == Preimage(a) && Meaning(b) != Meaning(a);
    FourBlocks(a);
    FourBlocks(b);
  }
}
