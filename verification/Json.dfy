/** JSON values as the server holds them, and `canonical_dumps` (sorted keys, compact separators, ASCII escapes). */
module Json {
  import opened Text

  /** One entry of a Python dict, in insertion order. */
  datatype Member = Member(key: string, value: Json)

  datatype Json =
    | Null
    | Bool(b: bool)
    | Num(n: int)
    | Str(s: string)
    | Arr(items: seq<Json>)
    | Obj(members: seq<Member>)

  /** What a JSON value means: an object is a map, so the order of its members is gone at every depth. */
  datatype Value =
    | VNull
    | VBool(b: bool)
    | VNum(n: int)
    | VStr(s: string)
    | VArr(items: seq<Value>)
    | VObj(members: map<string, Value>)

  function Denote(v: Json): Value
    decreases v, 1
  {
    match v
    case Null => VNull
    case Bool(b) => VBool(b)
    case Num(n) => VNum(n)
    case Str(s) => VStr(s)
    case Arr(items) => VArr(DenoteItems(items))
    case Obj(members) => VObj(DenoteMembers(members))
  }

  function DenoteItems(items: seq<Json>): seq<Value>
    decreases items, 0
  {
    if items == [] then [] else [Denote(items[0])] + DenoteItems(items[1..])
  }

  function DenoteMembers(ms: seq<Member>): map<string, Value>
    decreases ms, 0
  {
    if ms == [] then map[] else DenoteMembers(ms[1..])[ms[0].key := Denote(ms[0].value)]
  }

  /** The dict invariant, at every depth: no key occurs twice. */
  ghost predicate WellFormed(v: Json) {
    match v
    case Arr(items) => forall i :: 0 <= i < |items| ==> WellFormed(items[i])
    case Obj(ms) => DistinctKeys(ms) && forall i :: 0 <= i < |ms| ==> WellFormed(ms[i].value)
    case _ => true
  }

  ghost predicate DistinctKeys(ms: seq<Member>) {
    forall i, j :: 0 <= i < j < |ms| ==> ms[i].key != ms[j].key
  }

  // ---------------------------------------------------------------- canonical_dumps

  /** `sort_keys=True`, applied at every depth. */
  function SortKeys(v: Json): Json
    decreases v, 1
  {
    match v
    case Arr(items) => Arr(SortItems(items))
    case Obj(members) => Obj(SortMembers(members))
    case _ => v
  }

  function SortItems(items: seq<Json>): seq<Json>
    decreases items, 0
  {
    if items == [] then [] else [SortKeys(items[0])] + SortItems(items[1..])
  }

  function SortMembers(ms: seq<Member>): seq<Member>
    decreases ms, 0
  {
    if ms == [] then [] else Insert(Member(ms[0].key, SortKeys(ms[0].value)), SortMembers(ms[1..]))
  }

  function Insert(m: Member, ms: seq<Member>): seq<Member> {
    if ms == [] || !Less(ms[0].key, m.key) then [m] + ms
    else [ms[0]] + Insert(m, ms[1..])
  }

  function HexDigit(d: nat): char
    requires d < 16
  {
    if d < 10 then ('0' as int + d) as char else ('a' as int + d - 10) as char
  }

  /** `\uXXXX`, four lower-case digits. */
  function EscapeUnit(n: nat): string
    requires n < 0x1_0000
  {
    ['\\', 'u', HexDigit(n / 0x1000), HexDigit(n / 0x100 % 16), HexDigit(n / 0x10 % 16), HexDigit(n % 16)]
  }

  /** `ensure_ascii=True`: two-character escapes where JSON has them, otherwise `\uXXXX`, a surrogate pair
      above the basic plane. */
  function EscapeChar(c: char): string {
    var n := c as int;
    if c == '"' then "\\\""
    else if c == '\\' then "\\\\"
    else if n == 0x0A then "\\n"
    else if n == 0x0D then "\\r"
    else if n == 0x09 then "\\t"
    else if n == 0x0C then "\\f"
    else if n == 0x08 then "\\b"
    else if ' ' <= c <= '~' then [c]
    else if n < 0x1_0000 then EscapeUnit(n)
    else
      var m := n - 0x1_0000;
      EscapeUnit(0xD800 + m / 0x400) + EscapeUnit(0xDC00 + m % 0x400)
  }

  function Escape(s: string): string {
    if s == "" then "" else EscapeChar(s[0]) + Escape(s[1..])
  }

  function Quote(s: string): string {
    "\"" + Escape(s) + "\""
  }

  function Integer(n: int): string {
    if n < 0 then "-" + Decimal(-n) else Decimal(n)
  }

  /** The compact printer: `,` and `:` as separators, members in the order given. */
  function Emit(v: Json): string
    decreases v, 2
  {
    match v
    case Null => "null"
    case Bool(b) => if b then "true" else "false"
    case Num(n) => Integer(n)
    case Str(s) => Quote(s)
    case Arr(items) =>
      "[" + (if items == [] then "]" else Emit(items[0]) + EmitItems(items[1..]))
    case Obj(ms) =>
      "{" + (if ms == [] then "}" else EmitMember(ms[0]) + EmitMembers(ms[1..]))
  }

  function EmitItems(items: seq<Json>): string
    decreases items, 0
  {
    if items == [] then "]" else "," + Emit(items[0]) + EmitItems(items[1..])
  }

  function EmitMember(m: Member): string
    decreases m, 3
  {
    Quote(m.key) + ":" + Emit(m.value)
  }

  function EmitMembers(ms: seq<Member>): string
    decreases ms, 0
  {
    if ms == [] then "}" else "," + EmitMember(ms[0]) + EmitMembers(ms[1..])
  }

  function CanonicalDumps(v: Json): string {
    Emit(SortKeys(v))
  }

  // ---------------------------------------------------------------- the sorted form means the same and is unique

  /** Strictly ascending keys, at every depth. */
  ghost predicate Canonical(v: Json) {
    match v
    case Arr(items) => forall i :: 0 <= i < |items| ==> Canonical(items[i])
    case Obj(ms) => Ascending(ms) && forall i :: 0 <= i < |ms| ==> Canonical(ms[i].value)
    case _ => true
  }

  ghost predicate Ascending(ms: seq<Member>) {
    forall i, j :: 0 <= i < j < |ms| ==> Less(ms[i].key, ms[j].key)
  }

  ghost function Keys(ms: seq<Member>): set<string> {
    set i | 0 <= i < |ms| :: ms[i].key
  }

  lemma {:induction false} DenoteKeys(ms: seq<Member>)
    ensures DenoteMembers(ms).Keys == Keys(ms)
  {
    if ms != [] {
      DenoteKeys(ms[1..]);
      forall k | k in Keys(ms) ensures k == ms[0].key || k in Keys(ms[1..]) {
        var i :| 0 <= i < |ms| && ms[i].key == k;
        assert i == 0 || ms[1..][i - 1].key == k;
      }
      forall k | k in Keys(ms[1..]) ensures k in Keys(ms) {
        var i :| 0 <= i < |ms[1..]| && ms[1..][i].key == k;
        assert ms[i + 1].key == k;
      }
    }
  }

  lemma {:induction false} InsertKeys(m: Member, ms: seq<Member>)
    ensures Keys(Insert(m, ms)) == Keys(ms) + {m.key}
  {
    if ms == [] || !Less(ms[0].key, m.key) {
      KeysCons(m, ms);
    } else {
      InsertKeys(m, ms[1..]);
      KeysCons(ms[0], ms[1..]);
      KeysCons(ms[0], Insert(m, ms[1..]));
      assert ms == [ms[0]] + ms[1..];
    }
  }

  lemma {:induction false} InsertMeans(m: Member, ms: seq<Member>)
    requires m.key !in Keys(ms)
    ensures DenoteMembers(Insert(m, ms)) == DenoteMembers(ms)[m.key := Denote(m.value)]
  {
    if ms == [] || !Less(ms[0].key, m.key) {
      assert ([m] + ms)[1..] == ms;
    } else {
      var tail := ms[1..];
      KeysCons(ms[0], tail);
      assert ms == [ms[0]] + tail;
      InsertMeans(m, tail);
      var rest := Insert(m, tail);
      assert ([ms[0]] + rest)[1..] == rest;
      assert DenoteMembers([ms[0]] + rest) == DenoteMembers(rest)[ms[0].key := Denote(ms[0].value)];
    }
  }

  lemma {:induction false} InsertSorts(m: Member, ms: seq<Member>)
    requires Ascending(ms) && m.key !in Keys(ms)
    ensures Ascending(Insert(m, ms))
  {
    if ms == [] {
    } else if !Less(ms[0].key, m.key) {
      LessTotal(ms[0].key, m.key);
      assert ms[0].key in Keys(ms);
      forall i | 0 <= i < |ms| ensures Less(m.key, ms[i].key) {
        if i > 0 { LessTransitive(m.key, ms[0].key, ms[i].key); }
      }
    } else {
      var tail := ms[1..];
      KeysCons(ms[0], tail);
      assert ms == [ms[0]] + tail;
      InsertSorts(m, tail);
      InsertKeys(m, tail);
      var rest := Insert(m, tail);
      forall j | 0 <= j < |rest| ensures Less(ms[0].key, rest[j].key) {
        assert rest[j].key in Keys(rest);
        if rest[j].key != m.key {
          var i :| 0 <= i < |tail| && tail[i].key == rest[j].key;
          assert ms[i + 1] == tail[i];
        }
      }
    }
  }

  lemma {:induction false} InsertCanonical(m: Member, ms: seq<Member>)
    requires Canonical(m.value) && forall i :: 0 <= i < |ms| ==> Canonical(ms[i].value)
    ensures forall i :: 0 <= i < |Insert(m, ms)| ==> Canonical(Insert(m, ms)[i].value)
  {
    if ms != [] && Less(ms[0].key, m.key) {
      InsertCanonical(m, ms[1..]);
    }
  }

  lemma KeysCons(m: Member, ms: seq<Member>)
    ensures Keys([m] + ms) == {m.key} + Keys(ms)
  {
    var all := [m] + ms;
    assert all[0] == m;
    forall k | k in Keys(ms) ensures k in Keys(all) {
      var i :| 0 <= i < |ms| && ms[i].key == k;
      assert all[i + 1].key == k;
    }
    forall k | k in Keys(all) ensures k in {m.key} + Keys(ms) {
      var i :| 0 <= i < |all| && all[i].key == k;
      assert i == 0 || ms[i - 1].key == k;
    }
  }

  lemma {:induction false} SortKeysSound(v: Json)
    requires WellFormed(v)
    ensures Canonical(SortKeys(v)) && Denote(SortKeys(v)) == Denote(v)
    decreases v, 1
  {
    match v
    case Arr(items) => SortItemsSound(items);
    case Obj(ms) => SortMembersSound(ms);
    case _ =>
  }

  lemma {:induction false} SortItemsSound(items: seq<Json>)
    requires forall i :: 0 <= i < |items| ==> WellFormed(items[i])
    ensures forall i :: 0 <= i < |SortItems(items)| ==> Canonical(SortItems(items)[i])
    ensures DenoteItems(SortItems(items)) == DenoteItems(items)
    decreases items, 0
  {
    if items != [] {
      SortKeysSound(items[0]);
      SortItemsSound(items[1..]);
      assert SortItems(items)[1..] == SortItems(items[1..]);
    }
  }

  lemma {:induction false} SortMembersSound(ms: seq<Member>)
    requires DistinctKeys(ms) && forall i :: 0 <= i < |ms| ==> WellFormed(ms[i].value)
    ensures var r := SortMembers(ms);
            && Ascending(r) && Keys(r) == Keys(ms)
            && (forall i :: 0 <= i < |r| ==> Canonical(r[i].value))
            && DenoteMembers(r) == DenoteMembers(ms)
    decreases ms, 0
  {
    if ms != [] {
      SortKeysSound(ms[0].value);
      SortMembersSound(ms[1..]);
      assert ms[0].key !in Keys(ms[1..]);
      var m, rest := Member(ms[0].key, SortKeys(ms[0].value)), SortMembers(ms[1..]);
      InsertSorts(m, rest);
      InsertKeys(m, rest);
      InsertMeans(m, rest);
      InsertCanonical(m, rest);
      KeysCons(ms[0], ms[1..]);
      assert ms == [ms[0]] + ms[1..];
    }
  }

  /** There is exactly one canonical form per meaning. */
  lemma {:induction false} CanonicalUnique(a: Json, b: Json)
    requires Canonical(a) && Canonical(b) && Denote(a) == Denote(b)
    ensures a == b
    decreases a, 1
  {
    match a
    case Arr(items) => CanonicalItemsUnique(items, b.items);
    case Obj(ms) => CanonicalMembersUnique(ms, b.members);
    case _ =>
  }

  lemma {:induction false} CanonicalItemsUnique(a: seq<Json>, b: seq<Json>)
    requires forall i :: 0 <= i < |a| ==> Canonical(a[i])
    requires forall i :: 0 <= i < |b| ==> Canonical(b[i])
    requires DenoteItems(a) == DenoteItems(b)
    ensures a == b
    decreases a, 0
  {
    if a != [] && b != [] {
      assert DenoteItems(a)[0] == Denote(a[0]) && DenoteItems(b)[0] == Denote(b[0]);
      assert DenoteItems(a)[1..] == DenoteItems(a[1..]) && DenoteItems(b)[1..] == DenoteItems(b[1..]);
      CanonicalUnique(a[0], b[0]);
      CanonicalItemsUnique(a[1..], b[1..]);
      assert a == [a[0]] + a[1..] && b == [b[0]] + b[1..];
    }
  }

  lemma {:induction false} CanonicalMembersUnique(a: seq<Member>, b: seq<Member>)
    requires Ascending(a) && Ascending(b)
    requires forall i :: 0 <= i < |a| ==> Canonical(a[i].value)
    requires forall i :: 0 <= i < |b| ==> Canonical(b[i].value)
    requires DenoteMembers(a) == DenoteMembers(b)
    ensures a == b
    decreases a, 0
  {
    DenoteKeys(a);
    DenoteKeys(b);
    SomeKey(a);
    SomeKey(b);
    if a != [] && b != [] {
      SameFirstKey(a, b);
      WithoutFirst(a);
      WithoutFirst(b);
      CanonicalUnique(a[0].value, b[0].value);
      CanonicalMembersUnique(a[1..], b[1..]);
      assert a == [a[0]] + a[1..] && b == [b[0]] + b[1..];
    }
  }

  lemma SameFirstKey(a: seq<Member>, b: seq<Member>)
    requires a != [] && b != [] && Ascending(a) && Ascending(b) && Keys(a) == Keys(b)
    ensures a[0].key == b[0].key
  {
    FirstKeyLeast(a, b);
    FirstKeyLeast(b, a);
    LessTotal(a[0].key, b[0].key);
  }

  lemma WithoutFirst(a: seq<Member>)
    requires a != [] && Ascending(a)
    ensures DenoteMembers(a)[a[0].key] == Denote(a[0].value)
    ensures DenoteMembers(a[1..]) == DenoteMembers(a) - {a[0].key}
  {
    FirstKeyFresh(a);
    DenoteKeys(a[1..]);
    UpdateThenDrop(DenoteMembers(a[1..]), a[0].key, Denote(a[0].value));
  }

  lemma UpdateThenDrop<K, V>(m: map<K, V>, k: K, v: V)
    requires k !in m
    ensures m[k := v] - {k} == m
  {
  }

  lemma SomeKey(ms: seq<Member>)
    ensures ms == [] <==> Keys(ms) == {}
  {
    if ms != [] {
      assert ms[0].key in Keys(ms);
    }
  }

  /** No key of `b` is below the first key of the ascending list `a` that holds the same keys. */
  lemma FirstKeyLeast(a: seq<Member>, b: seq<Member>)
    requires a != [] && b != [] && Ascending(a) && Keys(a) == Keys(b)
    ensures !Less(b[0].key, a[0].key)
  {
    assert b[0].key in Keys(b);
    var i :| 0 <= i < |a| && a[i].key == b[0].key;
    if Less(a[i].key, a[0].key) {
      if i > 0 { LessTransitive(a[0].key, a[i].key, a[0].key); }
      LessIrreflexive(a[0].key);
    }
  }

  lemma FirstKeyFresh(a: seq<Member>)
    requires a != [] && Ascending(a)
    ensures a[0].key !in Keys(a[1..])
  {
    LessIrreflexive(a[0].key);
  }

  /** The canonical text depends on the meaning only: two dicts built in different orders, at any depth, serialise
      identically. */
  lemma MeaningFixesText(v: Json, w: Json)
    requires WellFormed(v) && WellFormed(w) && Denote(v) == Denote(w)
    ensures CanonicalDumps(v) == CanonicalDumps(w)
  {
    SortKeysSound(v);
    SortKeysSound(w);
    CanonicalUnique(SortKeys(v), SortKeys(w));
  }

  /** Permuting the members of a dict does not change what it means. */
  lemma {:induction false} PermutedMembers(a: seq<Member>, b: seq<Member>)
    requires DistinctKeys(a) && DistinctKeys(b) && multiset(a) == multiset(b)
    ensures DenoteMembers(a) == DenoteMembers(b)
  {
    DenoteKeys(a);
    DenoteKeys(b);
    forall k | k in Keys(a) ensures k in Keys(b) && DenoteMembers(a)[k] == DenoteMembers(b)[k] {
      var i :| 0 <= i < |a| && a[i].key == k;
      assert a[i] in multiset(b);
      var j :| 0 <= j < |b| && b[j] == a[i];
      DenoteAt(a, i);
      DenoteAt(b, j);
    }
    forall k | k in Keys(b) ensures k in Keys(a) {
      var j :| 0 <= j < |b| && b[j].key == k;
      assert b[j] in multiset(a);
      var i :| 0 <= i < |a| && a[i] == b[j];
    }
  }

  lemma {:induction false} DenoteAt(ms: seq<Member>, i: nat)
    requires DistinctKeys(ms) && i < |ms|
    ensures ms[i].key in DenoteMembers(ms) && DenoteMembers(ms)[ms[i].key] == Denote(ms[i].value)
  {
    if i > 0 {
      DenoteAt(ms[1..], i - 1);
    }
  }
}
