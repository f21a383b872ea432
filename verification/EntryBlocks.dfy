/** The content hash of a forensic record: four decision blocks in canonical form, hashed one behind the other. */
module EntryBlocks {
  import opened Text
  import opened Json
  import opened JsonParser
  import opened Digests

  /** Python truthiness of a JSON value. */
  predicate Truthy(v: Json) {
    match v
    case Null => false
    case Bool(b) => b
    case Num(n) => n != 0
    case Str(s) => s != ""
    case Arr(items) => items != []
    case Obj(ms) => ms != []
  }

  /** `block or {}`. */
  function OrEmpty(v: Json): Json {
    if Truthy(v) then v else Obj([])
  }

  /** Null, false, zero and the empty text, array and object: what Python takes for no value. */
  predicate Missing(v: Json) {
    v == Null || v == Bool(false) || v == Num(0) || v == Str("") || v == Arr([]) || v == Obj([])
  }

  /** A missing block is hashed as `{}`, and only a missing one is; any other is hashed as it is. */
  lemma MissingExactly(v: Json)
    ensures CanonicalDumps(OrEmpty(v)) == "{}" <==> Missing(v)
    ensures !Missing(v) ==> OrEmpty(v) == v
  {
    var w := SortKeys(OrEmpty(v));
    ValueRead(w, "");
    ValueRead(Obj([]), "");
    assert Emit(w) + "" == Emit(w);
    if w == Obj([]) { SortedEmpty(OrEmpty(v).members); }
  }

  lemma SortedEmpty(ms: seq<Member>)
    requires SortMembers(ms) == []
    ensures ms == []
  {
  }

  /** What the hasher is fed, block after block, with nothing in between. */
  function Preimage(blocks: seq<Json>): string {
    if blocks == [] then "" else CanonicalDumps(OrEmpty(blocks[0])) + Preimage(blocks[1..])
  }

  lemma PreimageFrom(blocks: seq<Json>, i: nat)
    requires i < |blocks|
    ensures Preimage(blocks[i..]) == CanonicalDumps(OrEmpty(blocks[i])) + Preimage(blocks[i + 1..])
  {
  }

  class Hasher {
    var fed: string

    constructor ()
      ensures fed == ""
    {
      fed := "";
    }

    method Update(chunk: string)
      modifies this
      ensures fed == old(fed) + chunk
    {
      fed := fed + chunk;
    }

    method HexDigest(H: Digest) returns (digest: string)
      ensures digest == H(fed)
    {
      digest := H(fed);
    }
  }

  method ComputeEntryHash(H: Digest, event: Json, snapshot: Json, enforcement: Json, resolution: Json)
    returns (digest: string)
    ensures digest == H(Preimage([event, snapshot, enforcement, resolution]))
  {
    var h := new Hasher();
    var blocks := [event, snapshot, enforcement, resolution];
    for i := 0 to |blocks|
      invariant fresh(h)
      invariant h.fed + Preimage(blocks[i..]) == Preimage(blocks)
    {
      PreimageFrom(blocks, i);
      Associate(h.fed, CanonicalDumps(OrEmpty(blocks[i])), Preimage(blocks[i + 1..]));
      h.Update(CanonicalDumps(OrEmpty(blocks[i])));
    }
    assert h.fed + Preimage([]) == h.fed;
    digest := h.HexDigest(H);
  }

  function EntryHash(H: Digest, event: Json, snapshot: Json, enforcement: Json, resolution: Json): string {
    H(Preimage([event, snapshot, enforcement, resolution]))
  }

  ghost predicate AllWellFormed(blocks: seq<Json>) {
    forall i :: 0 <= i < |blocks| ==> WellFormed(blocks[i])
  }

  /** What the blocks say, once a missing block counts as the empty object. */
  function Meaning(blocks: seq<Json>): seq<Value> {
    if blocks == [] then [] else [Denote(OrEmpty(blocks[0]))] + Meaning(blocks[1..])
  }

  /** No number is followed directly by a positive number; objects, the intended blocks, always qualify. */
  predicate Separable(blocks: seq<Json>) {
    forall i :: 0 < i < |blocks| && blocks[i].Num? && blocks[i].n > 0 ==> !(blocks[i - 1].Num? && Truthy(blocks[i - 1]))
  }

  /** Text made from separable blocks delimits its first block. */
  lemma FirstDelimited(blocks: seq<Json>)
    requires Separable(blocks) && blocks != []
    ensures Delimited(SortKeys(OrEmpty(blocks[0])), Preimage(blocks[1..]))
  {
  }

  /** The undelimited concatenation is uniquely decodable: two separable block lists, even of different lengths, have
      one preimage exactly when they mean the same. */
  lemma {:induction false} PreimageUnique(a: seq<Json>, b: seq<Json>)
    requires AllWellFormed(a) && AllWellFormed(b) && Separable(a) && Separable(b)
    ensures Preimage(a) == Preimage(b) <==> Meaning(a) == Meaning(b)
  {
    if a == [] || b == [] {
      if a != [] { FirstChar(SortKeys(OrEmpty(a[0]))); }
      if b != [] { FirstChar(SortKeys(OrEmpty(b[0]))); }
    } else {
      var v, w := OrEmpty(a[0]), OrEmpty(b[0]);
      PreimageUnique(a[1..], b[1..]);
      CanonicalFaithful(v, w);
      FirstDelimited(a);
      FirstDelimited(b);
      ValueRead(SortKeys(v), Preimage(a[1..]));
      ValueRead(SortKeys(w), Preimage(b[1..]));
      MeaningCons(a);
      MeaningCons(b);
    }
  }

  lemma MeaningCons(blocks: seq<Json>)
    requires blocks != []
    ensures |Meaning(blocks)| > 0 && Meaning(blocks)[0] == Denote(OrEmpty(blocks[0]))
    ensures Meaning(blocks)[1..] == Meaning(blocks[1..])
  {
  }

  /** The entry hash depends on what the blocks say only, so it survives a database that reorders their keys. */
  lemma {:induction false} MeaningFixesPreimage(a: seq<Json>, b: seq<Json>)
    requires AllWellFormed(a) && AllWellFormed(b) && Meaning(a) == Meaning(b)
    ensures Preimage(a) == Preimage(b)
  {
    if a != [] && b != [] {
      MeaningCons(a);
      MeaningCons(b);
      MeaningFixesText(OrEmpty(a[0]), OrEmpty(b[0]));
      MeaningFixesPreimage(a[1..], b[1..]);
    }
  }
}
