/** The reader takes nothing but what the printer writes, so every text of the reader's language is fixed character by
    character; and all of it is printable ASCII. */
module JsonExact {
  import opened Text
  import opened Json
  import opened JsonParser

  // ---------------------------------------------------------------- printable ASCII

  predicate Printable(s: string) {
    forall i :: 0 <= i < |s| ==> ' ' <= s[i] <= '~'
  }

  lemma PrintableConcat(s: string, t: string)
    requires Printable(s) && Printable(t)
    ensures Printable(s + t)
  {
  }

  lemma UnitPrintable(n: nat)
    requires n < 0x1_0000
    ensures Printable(EscapeUnit(n))
  {
  }

  lemma CharPrintable(c: char)
    ensures Printable(EscapeChar(c))
  {
    var n := c as int;
    if 0x1_0000 <= n {
      SurrogatesOf(n - 0x1_0000);
      UnitPrintable(0xD800 + (n - 0x1_0000) / 0x400);
      UnitPrintable(0xDC00 + (n - 0x1_0000) % 0x400);
    } else if !(' ' <= c <= '~') && n !in {0x08, 0x09, 0x0A, 0x0C, 0x0D} {
      UnitPrintable(n);
    }
  }

  lemma {:induction false} EscapePrintable(s: string)
    ensures Printable(Escape(s))
  {
    if s != "" {
      CharPrintable(s[0]);
      EscapePrintable(s[1..]);
    }
  }

  lemma QuotePrintable(s: string)
    ensures Printable(Quote(s))
  {
    EscapePrintable(s);
  }

  lemma DigitsPrintable(n: nat)
    ensures Printable(Decimal(n))
  {
  }

  lemma {:induction false} EmitPrintable(v: Json)
    ensures Printable(Emit(v))
    decreases v, 2
  {
    match v
    case Null =>
    case Bool(_) =>
    case Num(n) => DigitsPrintable(if n < 0 then -n else n);
    case Str(s) => QuotePrintable(s);
    case Arr(items) =>
      if items != [] {
        EmitPrintable(items[0]);
        ItemsPrintable(items[1..]);
        BracketPrintable('[', Emit(items[0]), EmitItems(items[1..]));
      }
    case Obj(ms) =>
      if ms != [] {
        MemberPrintable(ms[0]);
        MembersPrintable(ms[1..]);
        BracketPrintable('{', EmitMember(ms[0]), EmitMembers(ms[1..]));
      }
  }

  lemma BracketPrintable(c: char, first: string, others: string)
    requires ' ' <= c <= '~' && Printable(first) && Printable(others)
    ensures Printable([c] + (first + others))
  {
  }

  lemma {:induction false} ItemsPrintable(items: seq<Json>)
    ensures Printable(EmitItems(items))
    decreases items, 0
  {
    if items != [] {
      EmitPrintable(items[0]);
      ItemsPrintable(items[1..]);
      PrintableConcat("," + Emit(items[0]), EmitItems(items[1..]));
    }
  }

  lemma {:induction false} MemberPrintable(m: Member)
    ensures Printable(EmitMember(m))
    decreases m, 3
  {
    QuotePrintable(m.key);
    EmitPrintable(m.value);
  }

  lemma {:induction false} MembersPrintable(ms: seq<Member>)
    ensures Printable(EmitMembers(ms))
    decreases ms, 0
  {
    if ms != [] {
      MemberPrintable(ms[0]);
      MembersPrintable(ms[1..]);
      PrintableConcat("," + EmitMember(ms[0]), EmitMembers(ms[1..]));
    }
  }

  /** Canonical text is printable ASCII, whatever the strings in the value hold. */
  lemma CanonicalPrintable(v: Json)
    ensures Printable(CanonicalDumps(v))
  {
    EmitPrintable(SortKeys(v));
  }

  // ---------------------------------------------------------------- one spelling for each character

  lemma HexBack(c: char)
    requires HexValue(c).Some?
    ensures HexDigit(HexValue(c).value) == c
  {
  }

  lemma FourDigits(a: nat, b: nat, c: nat, d: nat)
    requires a < 16 && b < 16 && c < 16 && d < 16
    ensures var n := 0x1000 * a + 0x100 * b + 0x10 * c + d;
            n / 0x1000 == a && n / 0x100 % 16 == b && n / 0x10 % 16 == c && n % 16 == d
  {
    var n := 0x1000 * a + 0x100 * b + 0x10 * c + d;
    assert n / 0x10 == 0x100 * a + 0x10 * b + c;
    assert n / 0x100 == 0x10 * a + b;
  }

  lemma UnitBack(t: string)
    requires ReadUnit(t).Some?
    ensures t == EscapeUnit(ReadUnit(t).value.0) + ReadUnit(t).value.1
  {
    var a, b, c, d := HexValue(t[2]).value, HexValue(t[3]).value, HexValue(t[4]).value, HexValue(t[5]).value;
    FourDigits(a, b, c, d);
    HexBack(t[2]);
    HexBack(t[3]);
    HexBack(t[4]);
    HexBack(t[5]);
    assert t == ['\\', 'u', t[2], t[3], t[4], t[5]] + t[6..];
  }

  lemma PairBack(high: nat, low: nat)
    requires 0xD800 <= high < 0xDC00 && 0xDC00 <= low < 0xE000
    ensures EscapeChar((0x1_0000 + 0x400 * (high - 0xD800) + (low - 0xDC00)) as char)
            == EscapeUnit(high) + EscapeUnit(low)
  {
    var m := 0x400 * (high - 0xD800) + (low - 0xDC00);
    assert m / 0x400 == high - 0xD800 && m % 0x400 == low - 0xDC00;
  }

  lemma SingleBack(n: nat)
    requires n < 0x1_0000 && !(0xD800 <= n < 0xE000) && !ShortForm(n)
    ensures EscapeChar(n as char) == EscapeUnit(n)
  {
  }

  /** A `\u` escape of one unit. */
  lemma EscapedSingle(t: string, n: nat, rest: string)
    requires |t| > 1 && t[0] == '\\' && t[1] == 'u' && ReadChar(t).Some?
    requires ReadUnit(t) == Some((n, rest)) && !(0xD800 <= n < 0xDC00)
    ensures ReadChar(t) == Some((n as char, rest)) && t == EscapeChar(n as char) + rest
  {
    UnitBack(t);
    SingleBack(n);
  }

  lemma PairIsRead(t: string, n: nat, rest: string, low: nat, rest': string)
    requires |t| > 1 && t[0] == '\\' && t[1] == 'u'
    requires ReadUnit(t) == Some((n, rest)) && 0xD800 <= n < 0xDC00
    requires ReadUnit(rest) == Some((low, rest')) && 0xDC00 <= low < 0xE000
    ensures ReadChar(t) == Some(((0x1_0000 + 0x400 * (n - 0xD800) + (low - 0xDC00)) as char, rest'))
  {
  }

  /** One of two. */
  lemma EscapedPair(t: string, n: nat, rest: string)
    requires |t| > 1 && t[0] == '\\' && t[1] == 'u' && ReadChar(t).Some?
    requires ReadUnit(t) == Some((n, rest)) && 0xD800 <= n < 0xDC00
    ensures t == EscapeChar(ReadChar(t).value.0) + ReadChar(t).value.1
  {
    var (low, rest') := ReadUnit(rest).value;
    PairIsRead(t, n, rest, low, rest');
    UnitBack(t);
    UnitBack(rest);
    PairBack(n, low);
    Associate(EscapeUnit(n), EscapeUnit(low), rest');
  }

  lemma EscapedBack(t: string)
    requires |t| > 1 && t[0] == '\\' && t[1] == 'u' && ReadChar(t).Some?
    ensures t == EscapeChar(ReadChar(t).value.0) + ReadChar(t).value.1
  {
    var (n, rest) := ReadUnit(t).value;
    if 0xD800 <= n < 0xDC00 { EscapedPair(t, n, rest); } else { EscapedSingle(t, n, rest); }
  }

  lemma CharBack(t: string)
    requires t != "" && ReadChar(t).Some?
    ensures t == EscapeChar(ReadChar(t).value.0) + ReadChar(t).value.1
  {
    if t[0] != '\\' {
      assert t == [t[0]] + t[1..];
    } else if t[1] == 'u' {
      EscapedBack(t);
    } else {
      assert t == [t[0], t[1]] + t[2..];
    }
  }

  /** A character is read from its own spelling and from no other. */
  lemma CharExactly(t: string, c: char, rest: string)
    requires t != ""
    ensures ReadChar(t) == Some((c, rest)) <==> t == EscapeChar(c) + rest
  {
    CharRead(c, rest);
    if ReadChar(t) == Some((c, rest)) { CharBack(t); }
  }

  lemma {:induction false} StringBack(t: string)
    requires ReadString(t).Some?
    ensures t == Escape(ReadString(t).value.0) + "\"" + ReadString(t).value.1
    decreases |t|
  {
    if t[0] == '"' {
      assert t == "\"" + t[1..];
    } else {
      CharBack(t);
      var (c, rest) := ReadChar(t).value;
      StringBack(rest);
      var (s, rest') := ReadString(rest).value;
      assert ([c] + s)[1..] == s;
      Associate(EscapeChar(c), Escape(s), "\"" + rest');
      Associate(Escape(s), "\"", rest');
      Associate(EscapeChar(c) + Escape(s), "\"", rest');
    }
  }

  /** So a string literal determines its string and is determined by it. */
  lemma StringExactly(t: string, s: string, rest: string)
    ensures ReadString(t) == Some((s, rest)) <==> t == Escape(s) + "\"" + rest
  {
    StringRead(s, rest);
    if ReadString(t) == Some((s, rest)) { StringBack(t); }
  }

  // ---------------------------------------------------------------- one text for each value

  lemma {:induction false} DigitsBack(acc: nat, t: string)
    requires acc > 0
    ensures var (n, rest) := ReadDigits(acc, t);
            Decimal(acc) + t == Decimal(n) + rest && (rest == "" || !DigitChar(rest[0]))
    decreases |t|
  {
    if t != "" && DigitChar(t[0]) {
      var d := t[0] as int - '0' as int;
      DigitsBack(10 * acc + d, t[1..]);
      assert (10 * acc + d) / 10 == acc && (10 * acc + d) % 10 == d;
      assert Decimal(10 * acc + d) == Decimal(acc) + [t[0]];
      assert t == [t[0]] + t[1..];
      Associate(Decimal(acc), [t[0]], t[1..]);
    }
  }

  lemma NaturalBack(t: string)
    requires t != "" && DigitChar(t[0]) && (t[0] == '0' ==> |t| == 1 || !DigitChar(t[1]))
    ensures var (n, rest) := ReadDigits(0, t);
            t == Decimal(n) + rest && (rest == "" || !DigitChar(rest[0])) && (t[0] != '0' ==> n > 0)
  {
    var d := t[0] as int - '0' as int;
    assert t == Decimal(d) + t[1..];
    if d > 0 { DigitsBack(d, t[1..]); }
  }

  lemma IntegerBack(t: string)
    requires ReadInteger(t).Some?
    ensures var (n, rest) := ReadInteger(t).value;
            t == Integer(n) + rest && (rest == "" || !DigitChar(rest[0]))
  {
    if DigitChar(t[0]) {
      NaturalBack(t);
    } else {
      NaturalBack(t[1..]);
      assert t == "-" + t[1..];
      var (n, rest) := ReadDigits(0, t[1..]);
      Associate("-", Decimal(n), rest);
    }
  }

  lemma WordBack(word: string, v: Json, t: string)
    requires word != "" && ReadWord(word, v, t).Some?
    ensures ReadWord(word, v, t).value.0 == v && t == word + ReadWord(word, v, t).value.1
  {
  }

  lemma Bracketed(c: char, t: string, x: string, mid: string, y: string, rest: string)
    requires t != "" && t[0] == c && t[1..] == x + mid && mid == y + rest
    ensures t == [c] + (x + y) + rest
  {
    Associate(x, y, rest);
    assert t == [c] + t[1..];
    Associate([c], x + y, rest);
  }

  lemma Separated(c: char, t: string, x: string, mid: string, y: string, rest: string)
    requires t != "" && t[0] == c && t[1..] == x + mid && mid == y + rest
    ensures t == [c] + x + y + rest
  {
    Bracketed(c, t, x, mid, y, rest);
    Associate([c], x, y);
  }

  lemma LiteralBack(t: string)
    requires t != "" && t[0] == '"' && ReadString(t[1..]).Some?
    ensures var (s, rest) := ReadString(t[1..]).value;
            t == Quote(s) + rest
  {
    StringBack(t[1..]);
    var (s, rest) := ReadString(t[1..]).value;
    Bracketed('"', t, Escape(s), "\"" + rest, "\"", rest);
    Associate("\"", Escape(s), "\"");
  }

  lemma {:induction false} ValueBack(t: string)
    requires ReadValue(t).Some?
    ensures var (v, rest) := ReadValue(t).value;
            t == Emit(v) + rest && Delimited(v, rest)
    decreases |t|, 1
  {
    match t[0]
    case 'n' => WordBack("null", Null, t);
    case 't' => WordBack("true", Bool(true), t);
    case 'f' => WordBack("false", Bool(false), t);
    case '"' =>
      LiteralBack(t);
    case '[' => ArrayBack(t);
    case '{' => ObjectBack(t);
    case _ => IntegerBack(t);
  }

  lemma {:induction false} ArrayBack(t: string)
    requires ReadValue(t).Some? && t[0] == '['
    ensures t == Emit(ReadValue(t).value.0) + ReadValue(t).value.1
    decreases |t|, 0
  {
    if |t| > 1 && t[1] == ']' {
      assert t == "[]" + t[2..];
    } else {
      ValueBack(t[1..]);
      var (first, mid) := ReadValue(t[1..]).value;
      ItemsBack(mid);
      var (others, rest) := ReadItems(mid).value;
      Bracketed('[', t, Emit(first), mid, EmitItems(others), rest);
      assert ([first] + others)[1..] == others;
    }
  }

  lemma {:induction false} ObjectBack(t: string)
    requires ReadValue(t).Some? && t[0] == '{'
    ensures t == Emit(ReadValue(t).value.0) + ReadValue(t).value.1
    decreases |t|, 0
  {
    if |t| > 1 && t[1] == '}' {
      assert t == "{}" + t[2..];
    } else {
      MemberBack(t[1..]);
      var (first, mid) := ReadMember(t[1..]).value;
      MembersBack(mid);
      var (others, rest) := ReadMembers(mid).value;
      Bracketed('{', t, EmitMember(first), mid, EmitMembers(others), rest);
      assert ([first] + others)[1..] == others;
    }
  }

  lemma {:induction false} ItemsBack(t: string)
    requires ReadItems(t).Some?
    ensures t == EmitItems(ReadItems(t).value.0) + ReadItems(t).value.1
    decreases |t|, 0
  {
    if t[0] == ']' {
      assert t == "]" + t[1..];
    } else {
      ValueBack(t[1..]);
      var (first, mid) := ReadValue(t[1..]).value;
      ItemsBack(mid);
      var (others, rest) := ReadItems(mid).value;
      Separated(',', t, Emit(first), mid, EmitItems(others), rest);
      assert ([first] + others)[1..] == others;
    }
  }

  lemma {:induction false} MemberBack(t: string)
    requires ReadMember(t).Some?
    ensures t == EmitMember(ReadMember(t).value.0) + ReadMember(t).value.1
    decreases |t|, 2
  {
    StringBack(t[1..]);
    var (key, mid) := ReadString(t[1..]).value;
    ValueBack(mid[1..]);
    var (value, rest) := ReadValue(mid[1..]).value;
    MemberText(t, Escape(key), mid, Emit(value), rest);
    Associate("\"", Escape(key), "\"");
  }

  lemma MemberText(t: string, key: string, mid: string, value: string, rest: string)
    requires t != "" && t[0] == '"' && t[1..] == key + "\"" + mid
    requires mid != "" && mid[0] == ':' && mid[1..] == value + rest
    ensures t == "\"" + key + "\"" + ":" + value + rest
  {
    assert t == ['"'] + t[1..] && mid == [':'] + mid[1..];
    Associate(['"'] + key + "\"", [':'], value + rest);
    Associate(['"'] + key + "\"" + [':'], value, rest);
    Associate(['"'], key + "\"", mid);
    Associate(['"'], key, "\"");
  }

  lemma {:induction false} MembersBack(t: string)
    requires ReadMembers(t).Some?
    ensures t == EmitMembers(ReadMembers(t).value.0) + ReadMembers(t).value.1
    decreases |t|, 0
  {
    if t[0] == '}' {
      assert t == "}" + t[1..];
    } else {
      MemberBack(t[1..]);
      var (first, mid) := ReadMember(t[1..]).value;
      MembersBack(mid);
      var (others, rest) := ReadMembers(mid).value;
      Separated(',', t, EmitMember(first), mid, EmitMembers(others), rest);
      assert ([first] + others)[1..] == others;
    }
  }

  /** A value is read from the text the printer writes for it and from no other. */
  lemma ValueExactly(t: string, v: Json, rest: string)
    ensures ReadValue(t) == Some((v, rest)) <==> t == Emit(v) + rest && Delimited(v, rest)
  {
    if Delimited(v, rest) { ValueRead(v, rest); }
    if ReadValue(t) == Some((v, rest)) { ValueBack(t); }
  }
}
