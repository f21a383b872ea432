/** Failure-aware results and the string operations every service of the server leans on. */
module Text {

  datatype Option<+T> = None | Some(value: T) {
    predicate IsFailure() {
      None?
    }

    function PropagateFailure<U>(): Option<U>
      requires None?
    {
      None
    }

    function Extract(): T
      requires Some?
    {
      value
    }
  }

  datatype Result<+T, +E> = Ok(value: T) | Err(error: E)

  /** Python's `<` on `str`: code point by code point, a proper prefix first. */
  predicate Less(a: string, b: string) {
    b != "" && (a == "" || a[0] < b[0] || (a[0] == b[0] && Less(a[1..], b[1..])))
  }

  lemma {:induction false} LessTotal(a: string, b: string)
    ensures Less(a, b) || a == b || Less(b, a)
  {
    if a == "" || b == "" {
    } else if a[0] == b[0] {
      LessTotal(a[1..], b[1..]);
      assert a == [a[0]] + a[1..] && b == [b[0]] + b[1..];
    } else {
      assert (a[0] as int) < b[0] as int || (b[0] as int) < a[0] as int;
    }
  }

  lemma {:induction false} LessIrreflexive(a: string)
    ensures !Less(a, a)
  {
    if a != "" {
      LessIrreflexive(a[1..]);
    }
  }

  lemma {:induction false} LessTransitive(a: string, b: string, c: string)
    requires Less(a, b) && Less(b, c)
    ensures Less(a, c)
  {
    if a != "" && a[0] == b[0] == c[0] {
      LessTransitive(a[1..], b[1..], c[1..]);
    }
  }

  /** `a` and `b` agree up to `i`, where `a` ends or has the smaller code point. */
  ghost predicate FirstDifference(a: string, b: string, i: nat) {
    && i <= |a| && i < |b|
    && (forall j :: 0 <= j < i ==> a[j] == b[j])
    && (i == |a| || (a[i] as int) < b[i] as int)
  }

  /** What `Less` means: the first place where the texts differ decides. */
  lemma {:induction false} LessExactly(a: string, b: string)
    ensures Less(a, b) <==> exists i: nat :: FirstDifference(a, b, i)
  {
    if a != "" && b != "" {
      LessExactly(a[1..], b[1..]);
      if a[0] == b[0] {
        if i: nat :| FirstDifference(a[1..], b[1..], i) { DifferenceShifts(a, b, i + 1); }
        if i: nat :| FirstDifference(a, b, i) { DifferenceShifts(a, b, i); }
      } else if Less(a, b) {
        assert FirstDifference(a, b, 0);
      }
    } else if b != "" {
      assert FirstDifference(a, b, 0);
    }
  }

  lemma DifferenceShifts(a: string, b: string, i: nat)
    requires a != "" && b != "" && a[0] == b[0]
    ensures FirstDifference(a, b, i) <==> i > 0 && FirstDifference(a[1..], b[1..], i - 1)
  {
    if i > 0 && FirstDifference(a[1..], b[1..], i - 1) {
      forall j | 0 <= j < i ensures a[j] == b[j] {
        if j > 0 { assert a[j] == a[1..][j - 1] && b[j] == b[1..][j - 1]; }
      }
    }
  }

  function LowerChar(c: char): char {
    if 'A' <= c <= 'Z' then (c as int + 32) as char else c
  }

  /** `str.lower()` on ASCII text. */
  function Lower(s: string): (r: string)
    ensures |r| == |s|
    ensures forall i :: 0 <= i < |s| ==> r[i] == LowerChar(s[i])
  {
    seq(|s|, i requires 0 <= i < |s| => LowerChar(s[i]))
  }

  function UpperChar(c: char): char {
    if 'a' <= c <= 'z' then (c as int - 32) as char else c
  }

  /** `str.upper()` on ASCII text. */
  function Upper(s: string): string {
    seq(|s|, i requires 0 <= i < |s| => UpperChar(s[i]))
  }

  const CAPITALS := "ABCDEFGHIJKLMNOPQRSTUVWXYZ"
  const SMALLS := "abcdefghijklmnopqrstuvwxyz"

  /** The alphabet is mapped letter by letter, everything else stays. */
  lemma LettersMapped(c: char, i: nat)
    ensures i < 26 ==> LowerChar(CAPITALS[i]) == SMALLS[i] && UpperChar(SMALLS[i]) == CAPITALS[i]
    ensures c !in CAPITALS ==> LowerChar(c) == c
    ensures c !in SMALLS ==> UpperChar(c) == c
  {
    if 'A' <= c <= 'Z' { assert CAPITALS[c as int - 'A' as int] == c; }
    if 'a' <= c <= 'z' { assert SMALLS[c as int - 'a' as int] == c; }
  }

  /** The text is this word of small letters, letter case aside. */
  predicate AnyCase(s: string, word: string) {
    |s| == |word|
    && forall i :: 0 <= i < |s| ==> s[i] == word[i] || ('a' <= word[i] <= 'z' && s[i] as int == word[i] as int - 32)
  }

  lemma AnyCaseExactly(s: string, word: string)
    requires forall i :: 0 <= i < |word| ==> !('A' <= word[i] <= 'Z')
    ensures Lower(s) == word <==> AnyCase(s, word)
  {
    if AnyCase(s, word) { assert forall i :: 0 <= i < |s| ==> Lower(s)[i] == word[i]; }
  }

  predicate Blank(c: char) {
    c == ' ' || 0x09 <= c as int <= 0x0D || 0x1C <= c as int <= 0x1F
  }

  /** `str.strip()` on ASCII text. */
  function Strip(s: string): string {
    if s == "" then ""
    else if Blank(s[0]) then Strip(s[1..])
    else if Blank(s[|s| - 1]) then Strip(s[..|s| - 1])
    else s
  }

  predicate Blanks(s: string) {
    forall i :: 0 <= i < |s| ==> Blank(s[i])
  }

  /** Stripping takes blanks off both ends and stops at what is not blank. */
  lemma {:induction false} StripExactly(s: string) returns (before: string, after: string)
    ensures s == before + Strip(s) + after && Blanks(before) && Blanks(after)
    ensures Strip(s) != "" ==> !Blank(Strip(s)[0]) && !Blank(Strip(s)[|Strip(s)| - 1])
    decreases |s|
  {
    if s == "" {
      before, after := "", "";
    } else if Blank(s[0]) {
      before, after := StripExactly(s[1..]);
      assert s == [s[0]] + before + Strip(s) + after;
      before := [s[0]] + before;
    } else if Blank(s[|s| - 1]) {
      var last := s[|s| - 1];
      before, after := StripExactly(s[..|s| - 1]);
      assert s == before + Strip(s) + (after + [last]);
      after := after + [last];
    } else {
      before, after := "", "";
    }
  }

  /** `part in text`. */
  predicate Contains(text: string, part: string) {
    part <= text || (text != "" && Contains(text[1..], part))
  }

  lemma {:induction false} ContainsExactly(text: string, part: string)
    ensures Contains(text, part) <==> exists i: nat :: OccursAt(text, part, i)
  {
    if part <= text {
      assert OccursAt(text, part, 0);
    } else if text != "" {
      ContainsExactly(text[1..], part);
      if i: nat :| OccursAt(text[1..], part, i) { assert OccursAt(text, part, i + 1); }
      if i: nat :| OccursAt(text, part, i) { assert OccursAt(text[1..], part, i - 1); }
    }
  }

  predicate OccursAt(text: string, part: string, i: nat) {
    i + |part| <= |text| && text[i..i + |part|] == part
  }

  predicate DigitChar(c: char) {
    '0' <= c <= '9'
  }

  /** `str(n)` for a natural number. */
  function Decimal(n: nat): (s: string)
    ensures s != ""
    ensures forall i :: 0 <= i < |s| ==> DigitChar(s[i])
    decreases n
  {
    if n < 10 then [('0' as int + n) as char]
    else Decimal(n / 10) + [('0' as int + n % 10) as char]
  }

  /** Reads the longest run of digits, continuing a number whose leading digits gave `acc`. */
  function ReadDigits(acc: nat, s: string): (nat, string)
    decreases |s|
  {
    if s == "" || !DigitChar(s[0]) then (acc, s)
    else ReadDigits(10 * acc + (s[0] as int - '0' as int), s[1..])
  }

  lemma {:induction false} ReadDecimal(n: nat, rest: string)
    ensures ReadDigits(0, Decimal(n) + rest) == ReadDigits(n, rest)
    decreases n
  {
    if n < 10 {
      assert (Decimal(n) + rest)[1..] == rest;
    } else {
      var d := [('0' as int + n % 10) as char];
      assert Decimal(n) + rest == Decimal(n / 10) + (d + rest);
      ReadDecimal(n / 10, d + rest);
      assert (d + rest)[1..] == rest;
    }
  }

  /** The number read when the digits of `b` stand behind those of `a`. */
  function Glue(a: nat, b: nat): nat {
    if b < 10 then 10 * a + b else 10 * Glue(a, b / 10) + b % 10
  }

  lemma {:induction false} GlueText(a: nat, b: nat)
    requires a > 0
    ensures Glue(a, b) > a && Decimal(Glue(a, b)) == Decimal(a) + Decimal(b)
  {
    if b < 10 {
      assert Glue(a, b) / 10 == a && Glue(a, b) % 10 == b;
    } else {
      GlueText(a, b / 10);
      var g := Glue(a, b);
      assert g / 10 == Glue(a, b / 10) && g % 10 == b % 10;
      Associate(Decimal(a), Decimal(b / 10), [('0' as int + b % 10) as char]);
    }
  }

  lemma {:induction false} LeadingDigit(n: nat)
    requires n > 0
    ensures Decimal(n)[0] != '0'
  {
    if n >= 10 { LeadingDigit(n / 10); }
  }

  lemma Associate<T>(a: seq<T>, b: seq<T>, c: seq<T>)
    ensures a + b + c == a + (b + c)
  {
  }

  /** Left cancellation: equal-length prefixes of equal texts are equal, and so are the remainders. */
  lemma SplitEqual<T>(a: seq<T>, b: seq<T>, c: seq<T>, d: seq<T>)
    requires a + b == c + d && |a| == |c|
    ensures a == c && b == d
  {
    assert a == (a + b)[..|a|] && c == (c + d)[..|c|];
    assert b == (a + b)[|a|..] && d == (c + d)[|c|..];
  }
}
