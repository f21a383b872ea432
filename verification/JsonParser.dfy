/** An independent reader of compact ASCII JSON: of the texts that RFC 8259, sections 4 to 7, allows for a value without
    fractions and exponents it takes one, the one without white space, with lower-case hexadecimal digits, and with an
    escape only where the character has no plain form and `\u` only where it has no short one. What `canonical_dumps`
    writes is read back, whatever text follows it, and nothing else is read. */
module JsonParser {
  import opened Text
  import opened Json

  function HexValue(c: char): (d: Option<nat>)
    ensures d.Some? ==> d.value < 16
  {
    if '0' <= c <= '9' then Some(c as int - '0' as int)
    else if 'a' <= c <= 'f' then Some(c as int - 'a' as int + 10)
    else None
  }

  /** One `\uXXXX` unit. */
  function ReadUnit(t: string): (r: Option<(nat, string)>)
    ensures r.Some? ==> r.value.0 < 0x1_0000 && |r.value.1| < |t|
  {
    if |t| < 6 || t[0] != '\\' || t[1] != 'u' then None
    else
      var a :- HexValue(t[2]);
      var b :- HexValue(t[3]);
      var c :- HexValue(t[4]);
      var d :- HexValue(t[5]);
      Some((0x1000 * a + 0x100 * b + 0x10 * c + d, t[6..]))
  }

  /** Code points that stand for themselves, and those with a two-character escape. */
  predicate ShortForm(n: nat) {
    0x20 <= n <= 0x7E || n in {0x08, 0x09, 0x0A, 0x0C, 0x0D}
  }

  /** One character of a string body, joining surrogate pairs. */
  function ReadChar(t: string): (r: Option<(char, string)>)
    requires t != ""
    ensures r.Some? ==> |r.value.1| < |t|
  {
    if t[0] != '\\' then
      if 0x20 <= t[0] as int <= 0x7E && t[0] != '"' then Some((t[0], t[1..])) else None
    else if |t| < 2 then None
    else match t[1]
      case '"' => Some(('"', t[2..]))
      case '\\' => Some(('\\', t[2..]))
      case 'n' => Some((0x0A as char, t[2..]))
      case 'r' => Some((0x0D as char, t[2..]))
      case 't' => Some((0x09 as char, t[2..]))
      case 'f' => Some((0x0C as char, t[2..]))
      case 'b' => Some((0x08 as char, t[2..]))
      case 'u' =>
        var (n, rest) :- ReadUnit(t);
        if ShortForm(n) then None
        else if n < 0xD800 || 0xE000 <= n then Some((n as char, rest))
        else if 0xDC00 <= n then None
        else
          var (low, rest') :- ReadUnit(rest);
          if low < 0xDC00 || 0xE000 <= low then None
          else Some(((0x1_0000 + 0x400 * (n - 0xD800) + (low - 0xDC00)) as char, rest'))
      case _ => None
  }

  /** The rest of a string, after its opening quote. */
  function ReadString(t: string): (r: Option<(string, string)>)
    ensures r.Some? ==> |r.value.1| < |t|
    decreases |t|
  {
    if t == "" then None
    else if t[0] == '"' then Some(("", t[1..]))
    else
      var (c, rest) :- ReadChar(t);
      var (s, rest') :- ReadString(rest);
      Some(([c] + s, rest'))
  }

  function ReadInteger(t: string): (r: Option<(int, string)>)
    ensures r.Some? ==> |r.value.1| < |t|
  {
    if t != "" && DigitChar(t[0]) then
      if t[0] == '0' && |t| > 1 && DigitChar(t[1]) then None
      else
        DigitsShrink(t);
        var (n, rest) := ReadDigits(0, t);
        Some((n, rest))
    else if |t| > 1 && t[0] == '-' && DigitChar(t[1]) && t[1] != '0' then
      DigitsShrink(t[1..]);
      var (n, rest) := ReadDigits(0, t[1..]);
      var m: int := n;
      Some((-m, rest))
    else None
  }

  lemma DigitsShrink(t: string)
    requires t != "" && DigitChar(t[0])
    ensures |ReadDigits(0, t).1| < |t|
  {
    DigitsBounded(t[0] as int - '0' as int, t[1..]);
  }

  lemma {:induction false} DigitsBounded(acc: nat, t: string)
    ensures |ReadDigits(acc, t).1| <= |t|
    decreases |t|
  {
    if t != "" && DigitChar(t[0]) {
      DigitsBounded(10 * acc + (t[0] as int - '0' as int), t[1..]);
    }
  }

  function ReadWord(word: string, v: Json, t: string): (r: Option<(Json, string)>)
    requires word != ""
    ensures r.Some? ==> |r.value.1| < |t|
  {
    if word <= t then Some((v, t[|word|..])) else None
  }

  function ReadValue(t: string): (r: Option<(Json, string)>)
    ensures r.Some? ==> |r.value.1| < |t|
    decreases |t|, 1
  {
    if t == "" then None
    else match t[0]
      case 'n' => ReadWord("null", Null, t)
      case 't' => ReadWord("true", Bool(true), t)
      case 'f' => ReadWord("false", Bool(false), t)
      case '"' =>
        var (s, rest) :- ReadString(t[1..]);
        Some((Str(s), rest))
      case '[' =>
        if |t| > 1 && t[1] == ']' then Some((Arr([]), t[2..]))
        else
          var (first, rest) :- ReadValue(t[1..]);
          var (others, rest') :- ReadItems(rest);
          Some((Arr([first] + others), rest'))
      case '{' =>
        if |t| > 1 && t[1] == '}' then Some((Obj([]), t[2..]))
        else
          var (first, rest) :- ReadMember(t[1..]);
          var (others, rest') :- ReadMembers(rest);
          Some((Obj([first] + others), rest'))
      case _ =>
        var (n, rest) :- ReadInteger(t);
        Some((Num(n), rest))
  }

  function ReadItems(t: string): (r: Option<(seq<Json>, string)>)
    ensures r.Some? ==> |r.value.1| < |t|
    decreases |t|, 0
  {
    if t == "" then None
    else if t[0] == ']' then Some(([], t[1..]))
    else if t[0] == ',' then
      var (first, rest) :- ReadValue(t[1..]);
      var (others, rest') :- ReadItems(rest);
      Some(([first] + others, rest'))
    else None
  }

  function ReadMember(t: string): (r: Option<(Member, string)>)
    ensures r.Some? ==> |r.value.1| < |t|
    decreases |t|, 2
  {
    if t == "" || t[0] != '"' then None
    else
      var (key, rest) :- ReadString(t[1..]);
      if rest == "" || rest[0] != ':' then None
      else
        var (value, rest') :- ReadValue(rest[1..]);
        Some((Member(key, value), rest'))
  }

  function ReadMembers(t: string): (r: Option<(seq<Member>, string)>)
    ensures r.Some? ==> |r.value.1| < |t|
    decreases |t|, 0
  {
    if t == "" then None
    else if t[0] == '}' then Some(([], t[1..]))
    else if t[0] == ',' then
      var (first, rest) :- ReadMember(t[1..]);
      var (others, rest') :- ReadMembers(rest);
      Some(([first] + others, rest'))
    else None
  }

  // ---------------------------------------------------------------- reading back what was written

  lemma HexRead(d: nat)
    requires d < 16
    ensures HexValue(HexDigit(d)) == Some(d)
  {
  }

  lemma HexSplit(n: nat)
    ensures n == 0x1000 * (n / 0x1000) + 0x100 * (n / 0x100 % 16) + 0x10 * (n / 0x10 % 16) + n % 16
  {
    var a, b, c := n / 0x10, n / 0x100, n / 0x1000;
    assert b == a / 16 && c == b / 16;
  }

  lemma UnitRead(n: nat, rest: string)
    requires n < 0x1_0000
    ensures ReadUnit(EscapeUnit(n) + rest) == Some((n, rest))
  {
    HexSplit(n);
    var a, b, c, d := n / 0x1000, n / 0x100 % 16, n / 0x10 % 16, n % 16;
    HexRead(a);
    HexRead(b);
    HexRead(c);
    HexRead(d);
    assert EscapeUnit(n) == ['\\', 'u', HexDigit(a), HexDigit(b), HexDigit(c), HexDigit(d)];
    assert (EscapeUnit(n) + rest)[6..] == rest;
  }

  lemma SurrogatesRead(c: char, high: nat, low: nat, rest: string)
    requires 0xD800 <= high < 0xDC00 && 0xDC00 <= low < 0xE000
    requires c as int == 0x1_0000 + 0x400 * (high - 0xD800) + (low - 0xDC00)
    ensures ReadChar(EscapeUnit(high) + (EscapeUnit(low) + rest)) == Some((c, rest))
  {
    UnitRead(high, EscapeUnit(low) + rest);
    UnitRead(low, rest);
  }

  lemma SurrogatesOf(m: nat)
    requires m < 0x10_0000
    ensures m / 0x400 < 0x400 && m % 0x400 < 0x400 && m == 0x400 * (m / 0x400) + m % 0x400
  {
  }

  lemma PairRead(c: char, rest: string)
    requires 0x1_0000 <= c as int
    ensures ReadChar(EscapeChar(c) + rest) == Some((c, rest))
  {
    var m := c as int - 0x1_0000;
    SurrogatesOf(m);
    var high, low := 0xD800 + m / 0x400, 0xDC00 + m % 0x400;
    PairText(c, EscapeUnit(high), EscapeUnit(low), rest);
    SurrogatesRead(c, high, low, rest);
  }

  lemma PairText(c: char, high: string, low: string, rest: string)
    requires 0x1_0000 <= c as int
    requires high == EscapeUnit(0xD800 + (c as int - 0x1_0000) / 0x400)
    requires low == EscapeUnit(0xDC00 + (c as int - 0x1_0000) % 0x400)
    ensures EscapeChar(c) + rest == high + (low + rest)
  {
    Associate(high, low, rest);
  }

  lemma ShortRead(c: char, rest: string)
    requires c == '"' || c == '\\' || c as int in {0x08, 0x09, 0x0A, 0x0C, 0x0D}
    ensures EscapeChar(c)[0] == '\\' && ReadChar(EscapeChar(c) + rest) == Some((c, rest))
  {
  }

  lemma CharRead(c: char, rest: string)
    ensures EscapeChar(c)[0] != '"'
    ensures ReadChar(EscapeChar(c) + rest) == Some((c, rest))
  {
    if c == '"' || c == '\\' || c as int in {0x08, 0x09, 0x0A, 0x0C, 0x0D} {
      ShortRead(c, rest);
    } else if 0x1_0000 <= c as int {
      PairRead(c, rest);
    } else if ' ' <= c <= '~' {
      assert (EscapeChar(c) + rest)[1..] == rest;
    } else {
      UnitRead(c as int, rest);
    }
  }

  lemma {:induction false} StringRead(s: string, rest: string)
    ensures ReadString(Escape(s) + "\"" + rest) == Some((s, rest))
  {
    var t := Escape(s) + "\"" + rest;
    if s == "" {
      assert t == "\"" + rest;
    } else {
      var tail := Escape(s[1..]) + "\"" + rest;
      assert t == EscapeChar(s[0]) + tail;
      CharRead(s[0], tail);
      StringRead(s[1..], rest);
      StringStep(t, s[0], tail, s[1..], rest);
      assert s == [s[0]] + s[1..];
    }
  }

  lemma StringStep(t: string, c: char, tail: string, s: string, rest: string)
    requires t != "" && t[0] != '"' && ReadChar(t) == Some((c, tail)) && ReadString(tail) == Some((s, rest))
    ensures ReadString(t) == Some(([c] + s, rest))
  {
  }

  lemma QuoteRead(s: string, rest: string)
    ensures var t := Quote(s) + rest;
            t[0] == '"' && ReadString(t[1..]) == Some((s, rest))
  {
    assert (Quote(s) + rest)[1..] == Escape(s) + "\"" + rest;
    StringRead(s, rest);
  }

  /** Only a number can run on into the text behind it. */
  predicate Delimited(v: Json, rest: string) {
    v.Num? ==> rest == "" || !DigitChar(rest[0])
  }

  lemma NaturalRead(n: nat, rest: string)
    requires rest == "" || !DigitChar(rest[0])
    ensures ReadValue(Decimal(n) + rest) == Some((Num(n), rest))
    ensures n > 0 ==> ReadValue("-" + (Decimal(n) + rest)) == Some((Num(0 - n), rest))
  {
    ReadDecimal(n, rest);
    var digits := Decimal(n) + rest;
    assert digits[0] == Decimal(n)[0];
    if n > 0 {
      LeadingDigit(n);
      assert ("-" + digits)[1..] == digits;
      NumberStep("-" + digits);
    }
    NumberStep(digits);
  }

  lemma NumberStep(t: string)
    requires t != "" && (DigitChar(t[0]) || t[0] == '-') && ReadInteger(t).Some?
    ensures ReadValue(t) == Some((Num(ReadInteger(t).value.0), ReadInteger(t).value.1))
  {
  }

  lemma IntegerRead(n: int, rest: string)
    requires rest == "" || !DigitChar(rest[0])
    ensures ReadValue(Integer(n) + rest) == Some((Num(n), rest))
  {
    if n < 0 {
      NaturalRead(-n, rest);
      Associate("-", Decimal(-n), rest);
    } else {
      NaturalRead(n, rest);
    }
  }

  lemma {:induction false} ValueRead(v: Json, rest: string)
    requires Delimited(v, rest)
    ensures ReadValue(Emit(v) + rest) == Some((v, rest))
    decreases v, 2
  {
    var t := Emit(v) + rest;
    match v
    case Null => assert t[4..] == rest && "null" <= t;
    case Bool(b) =>
      if b {
        assert t[4..] == rest && "true" <= t;
      } else {
        assert t[5..] == rest && "false" <= t;
      }
    case Num(n) => IntegerRead(n, rest);
    case Str(s) => QuoteRead(s, rest);
    case Arr(items) =>
      if items == [] {
        assert t[2..] == rest;
      } else {
        ArrayRead(items, rest);
      }
    case Obj(ms) =>
      if ms == [] {
        assert t[2..] == rest;
      } else {
        ObjectRead(ms, rest);
      }
  }

  lemma ObjectStep(t: string, first: Member, others: seq<Member>, mid: string, rest: string)
    requires |t| > 1 && t[0] == '{' && t[1] == '"'
    requires ReadMember(t[1..]) == Some((first, mid)) && ReadMembers(mid) == Some((others, rest))
    ensures ReadValue(t) == Some((Obj([first] + others), rest))
  {
  }

  lemma MemberStep(t: string, key: string, value: Json, mid: string, rest: string)
    requires t != "" && t[0] == '"' && ReadString(t[1..]) == Some((key, mid))
    requires mid != "" && mid[0] == ':' && ReadValue(mid[1..]) == Some((value, rest))
    ensures ReadMember(t) == Some((Member(key, value), rest))
  {
  }

  lemma {:induction false} ArrayRead(items: seq<Json>, rest: string)
    requires items != []
    ensures ReadValue(Emit(Arr(items)) + rest) == Some((Arr(items), rest))
    decreases items, 3
  {
    var t := Emit(Arr(items)) + rest;
    var tail := EmitItems(items[1..]) + rest;
    assert t[1..] == Emit(items[0]) + tail;
    FirstChar(items[0]);
    ValueRead(items[0], tail);
    ItemsRead(items[1..], rest);
    assert items == [items[0]] + items[1..];
  }

  lemma {:induction false} ObjectRead(ms: seq<Member>, rest: string)
    requires ms != []
    ensures ReadValue(Emit(Obj(ms)) + rest) == Some((Obj(ms), rest))
    decreases ms, 3
  {
    var tail := EmitMembers(ms[1..]) + rest;
    MemberRead(ms[0], tail);
    MembersRead(ms[1..], rest);
    ObjectText(ms, tail, rest);
    ObjectStep(Emit(Obj(ms)) + rest, ms[0], ms[1..], tail, rest);
    assert ms == [ms[0]] + ms[1..];
  }

  lemma ObjectText(ms: seq<Member>, tail: string, rest: string)
    requires ms != [] && tail == EmitMembers(ms[1..]) + rest
    ensures var t := Emit(Obj(ms)) + rest;
            |t| > 1 && t[0] == '{' && t[1] == '"' && t[1..] == EmitMember(ms[0]) + tail
  {
    BehindBracket('{', EmitMember(ms[0]), EmitMembers(ms[1..]), rest);
    MemberFirst(ms[0]);
  }

  lemma BehindBracket(c: char, x: string, y: string, rest: string)
    requires x != ""
    ensures var t := [c] + (x + y) + rest;
            |t| > 1 && t[0] == c && t[1] == x[0] && t[1..] == x + (y + rest)
  {
  }

  lemma MemberFirst(m: Member)
    ensures EmitMember(m) != "" && EmitMember(m)[0] == '"'
  {
  }

  /** No value starts with a closing bracket. */
  lemma FirstChar(v: Json)
    ensures Emit(v) != "" && Emit(v)[0] !in "]},"
  {
  }

  lemma {:induction false} ItemsRead(items: seq<Json>, rest: string)
    ensures var t := EmitItems(items) + rest;
            !DigitChar(t[0]) && ReadItems(t) == Some((items, rest))
    decreases items, 0
  {
    var t := EmitItems(items) + rest;
    if items == [] {
      assert t[1..] == rest;
    } else {
      var tail := EmitItems(items[1..]) + rest;
      assert t[1..] == Emit(items[0]) + tail;
      ItemsRead(items[1..], rest);
      ValueRead(items[0], tail);
      assert items == [items[0]] + items[1..];
    }
  }

  lemma {:induction false} MemberRead(m: Member, rest: string)
    requires rest != "" && !DigitChar(rest[0])
    ensures var t := EmitMember(m) + rest;
            t[0] == '"' && ReadMember(t) == Some((m, rest))
    decreases m, 3
  {
    var text := Emit(m.value) + rest;
    var tail := ":" + text;
    assert EmitMember(m) + rest == Quote(m.key) + tail;
    assert tail[1..] == text;
    QuoteRead(m.key, tail);
    ValueRead(m.value, rest);
    MemberStep(Quote(m.key) + tail, m.key, m.value, tail, rest);
  }

  lemma {:induction false} MembersRead(ms: seq<Member>, rest: string)
    ensures var t := EmitMembers(ms) + rest;
            !DigitChar(t[0]) && ReadMembers(t) == Some((ms, rest))
    decreases ms, 0
  {
    var t := EmitMembers(ms) + rest;
    if ms == [] {
      assert t[1..] == rest;
    } else {
      var tail := EmitMembers(ms[1..]) + rest;
      assert t[1..] == EmitMember(ms[0]) + tail;
      MembersRead(ms[1..], rest);
      MemberRead(ms[0], tail);
      assert ms == [ms[0]] + ms[1..];
    }
  }

  /** Two dicts have one canonical text exactly when they mean the same. */
  lemma CanonicalFaithful(v: Json, w: Json)
    requires WellFormed(v) && WellFormed(w)
    ensures CanonicalDumps(v) == CanonicalDumps(w) <==> Denote(v) == Denote(w)
  {
    if CanonicalDumps(v) == CanonicalDumps(w) {
      ValueRead(SortKeys(v), "");
      ValueRead(SortKeys(w), "");
      assert Emit(SortKeys(v)) + "" == Emit(SortKeys(w)) + "";
      SortKeysSound(v);
      SortKeysSound(w);
    }
    if Denote(v) == Denote(w) {
      MeaningFixesText(v, w);
    }
  }
}
