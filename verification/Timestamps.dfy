/** Client timestamps: RFC 3339 text, possibly with nanoseconds, read as the microsecond instant the chain hash
    formats. */
module Timestamps {
  import opened Text
  import opened Instants
  import opened ForensicChain

  // ---------------------------------------------------------------- the text handed to `datetime.fromisoformat`

  predicate AllDigits(s: string) {
    forall i :: 0 <= i < |s| ==> DigitChar(s[i])
  }

  /** A point, six digits, and a seventh digit at `i`. */
  predicate SeventhAt(s: string, i: nat) {
    7 <= i < |s| && s[i - 7] == '.' && AllDigits(s[i - 6..i]) && DigitChar(s[i])
  }

  /** The greedy match takes the last such place before `n`. */
  function LastSeventh(s: string, n: nat): (r: Option<nat>)
    requires n <= |s|
    ensures r.Some? ==> r.value < n && SeventhAt(s, r.value)
    ensures r.None? ==> forall i :: 0 <= i < n ==> !SeventhAt(s, i)
  {
    if n == 0 then None
    else if SeventhAt(s, n - 1) then Some(n - 1)
    else LastSeventh(s, n - 1)
  }

  function SkipDigits(s: string, i: nat): (j: nat)
    requires i <= |s|
    ensures i <= j <= |s| && AllDigits(s[i..j]) && (j < |s| ==> !DigitChar(s[j]))
    decreases |s| - i
  {
    if i < |s| && DigitChar(s[i]) then
      var j := SkipDigits(s, i + 1);
      assert s[i..j] == [s[i]] + s[i + 1..j];
      j
    else i
  }

  /** Drops what follows the sixth fractional digit. */
  function Truncate(s: string): string {
    var i := LastSeventh(s, |s|);
    if i.None? || '\n' in s then s else s[..i.value] + s[SkipDigits(s, i.value)..]
  }

  function Normalise(value: string): string {
    var s := Strip(value);
    Truncate(if s != "" && (s[|s| - 1] == 'Z' || s[|s| - 1] == 'z') then s[..|s| - 1] + "+00:00" else s)
  }

  // ---------------------------------------------------------------- its full UTC form

  function NumberOf(s: string): nat
    requires AllDigits(s)
  {
    if s == "" then 0 else 10 * NumberOf(s[..|s| - 1]) + (s[|s| - 1] as int - '0' as int)
  }

  /** `YYYY-MM-DDTHH:MM:SS.ffffff+00:00`, digits in the right places. */
  predicate FullForm(s: string) {
    && |s| == 32
    && AllDigits(s[..4]) && s[4] == '-' && AllDigits(s[5..7]) && s[7] == '-' && AllDigits(s[8..10])
    && s[10] == 'T' && AllDigits(s[11..13]) && s[13] == ':' && AllDigits(s[14..16]) && s[16] == ':'
    && AllDigits(s[17..19]) && s[19] == '.' && AllDigits(s[20..26]) && s[26..] == "+00:00"
  }

  function Fields(s: string): Instant
    requires FullForm(s)
  {
    Instant(NumberOf(s[..4]), NumberOf(s[5..7]), NumberOf(s[8..10]), NumberOf(s[11..13]), NumberOf(s[14..16]),
            NumberOf(s[17..19]), NumberOf(s[20..26]))
  }

  const ZEROS := "000000"

  /** Fills up a fraction that is absent or has fewer than six digits. */
  function Complete(s: string): string {
    if |s| == 25 then s[..19] + "." + ZEROS + s[19..]
    else if 26 < |s| < 32 then s[..|s| - 6] + ZEROS[..32 - |s|] + s[|s| - 6..]
    else s
  }

  /** The instant, when the text has a UTC form with the usual separators; other forms of the standard are not read
      here. */
  function FromIso(s: string): (r: Option<Instant>)
    ensures r.Some? ==> r.value.Valid()
  {
    var full := Complete(s);
    if FullForm(full) && Fields(full).Valid() then Some(Fields(full)) else None
  }

  function ParseIsoTimestamp(value: string): Option<Instant> {
    FromIso(Normalise(value))
  }

  // ---------------------------------------------------------------- reading back what emitters write

  /** The instant without its zone: the 26 characters before the `Z` of the chain's own format. */
  function Stem(t: Instant): (s: string)
    ensures |s| == 26
  {
    Pad(t.year, 4) + "-" + Pad(t.month, 2) + "-" + Pad(t.day, 2) + "T" + Pad(t.hour, 2) + ":" + Pad(t.minute, 2) + ":"
    + Pad(t.second, 2) + "." + Pad(t.micro, 6)
  }

  lemma {:induction false} PadReads(n: nat, width: nat)
    requires Fits(n, width)
    ensures AllDigits(Pad(n, width)) && NumberOf(Pad(n, width)) == n
    decreases width
  {
    if width > 0 {
      PadReads(n / 10, width - 1);
      var s := Pad(n, width);
      assert s[..|s| - 1] == Pad(n / 10, width - 1);
      assert s[|s| - 1] == ('0' as int + n % 10) as char;
    }
  }

  lemma FieldsFit(t: Instant)
    requires t.Valid()
    ensures Fits(t.year, 4) && Fits(t.month, 2) && Fits(t.day, 2) && Fits(t.hour, 2) && Fits(t.minute, 2)
    ensures Fits(t.second, 2) && Fits(t.micro, 6)
  {
  }

  lemma StemParts(t: Instant, tail: string)
    ensures var s := Stem(t) + tail;
            && s[..4] == Pad(t.year, 4) && s[4] == '-' && s[5..7] == Pad(t.month, 2) && s[7] == '-'
            && s[8..10] == Pad(t.day, 2) && s[10] == 'T' && s[11..13] == Pad(t.hour, 2) && s[13] == ':'
            && s[14..16] == Pad(t.minute, 2) && s[16] == ':' && s[17..19] == Pad(t.second, 2) && s[19] == '.'
            && s[20..26] == Pad(t.micro, 6) && s[26..] == tail
  {
  }

  lemma FullFormReads(t: Instant)
    requires t.Valid()
    ensures FullForm(Stem(t) + "+00:00") && Fields(Stem(t) + "+00:00") == t
    ensures FromIso(Stem(t) + "+00:00") == Some(t)
  {
    FieldsFit(t);
    StemParts(t, "+00:00");
    PadReads(t.year, 4);
    PadReads(t.month, 2);
    PadReads(t.day, 2);
    PadReads(t.hour, 2);
    PadReads(t.minute, 2);
    PadReads(t.second, 2);
    PadReads(t.micro, 6);
  }

  /** The text of `t` with any further fractional digits. */
  function Long(t: Instant, extra: string): string {
    Stem(t) + extra + "+00:00"
  }

  lemma LongAt(t: Instant, extra: string, k: nat)
    requires AllDigits(extra) && k < |Long(t, extra)|
    ensures Long(t, extra)[k] == '.' <==> k == 19
    ensures Long(t, extra)[k] != '\n'
    ensures 26 <= k < 26 + |extra| ==> DigitChar(Long(t, extra)[k])
    ensures k == 26 + |extra| ==> Long(t, extra)[k] == '+'
  {
  }

  lemma {:induction false} SkipsExtra(s: string, i: nat, j: nat)
    requires i <= j < |s| && AllDigits(s[i..j]) && !DigitChar(s[j])
    ensures SkipDigits(s, i) == j
    decreases j - i
  {
    if i < j {
      assert s[i] == s[i..j][0] && s[i..j][1..] == s[i + 1..j];
      SkipsExtra(s, i + 1, j);
    }
  }

  lemma {:induction false} LastSeventhIs(s: string, n: nat, k: nat)
    requires k < n <= |s| && SeventhAt(s, k) && forall i :: k < i < n ==> !SeventhAt(s, i)
    ensures LastSeventh(s, n) == Some(k)
    decreases n
  {
    if k < n - 1 { LastSeventhIs(s, n - 1, k); }
  }

  lemma NoOtherSeventh(t: Instant, extra: string, i: nat)
    requires AllDigits(extra) && SeventhAt(Long(t, extra), i)
    ensures i == 26 && extra != ""
  {
  }

  lemma TruncateLong(t: Instant, extra: string)
    requires AllDigits(extra)
    ensures Truncate(Long(t, extra)) == Stem(t) + "+00:00"
  {
    var s := Long(t, extra);
    forall k | 0 <= k < |s| ensures s[k] != '\n' { LongAt(t, extra, k); }
    if extra == "" {
      if LastSeventh(s, |s|).Some? { NoOtherSeventh(t, extra, LastSeventh(s, |s|).value); }
      assert Stem(t) + "" == Stem(t);
    } else {
      StemParts(t, extra + "+00:00");
      Associate(Stem(t), extra, "+00:00");
      assert s[26] == extra[0];
      assert SeventhAt(s, 26);
      forall i | 26 < i < |s| ensures !SeventhAt(s, i) { if SeventhAt(s, i) { NoOtherSeventh(t, extra, i); } }
      LastSeventhIs(s, |s|, 26);
      assert s[26..26 + |extra|] == extra;
      LongAt(t, extra, 26 + |extra|);
      SkipsExtra(s, 26, 26 + |extra|);
      assert s[..26] == Stem(t) && s[26 + |extra|..] == "+00:00";
    }
  }

  predicate AllBlank(s: string) {
    forall i :: 0 <= i < |s| ==> Blank(s[i])
  }

  lemma {:induction false} StripRight(core: string, right: string)
    requires core != "" && !Blank(core[0]) && !Blank(core[|core| - 1]) && AllBlank(right)
    ensures Strip(core + right) == core
    decreases right
  {
    if right == "" {
      assert core + right == core;
    } else {
      var s := core + right;
      assert s[0] == core[0] && s[|s| - 1] == right[|right| - 1];
      assert s[..|s| - 1] == core + right[..|right| - 1];
      StripRight(core, right[..|right| - 1]);
    }
  }

  lemma {:induction false} StripBoth(left: string, core: string, right: string)
    requires core != "" && !Blank(core[0]) && !Blank(core[|core| - 1]) && AllBlank(left) && AllBlank(right)
    ensures Strip(left + (core + right)) == core
    decreases left
  {
    if left == "" {
      assert left + (core + right) == core + right;
      StripRight(core, right);
    } else {
      var s := left + (core + right);
      assert s[0] == left[0] && s[1..] == left[1..] + (core + right);
      StripBoth(left[1..], core, right);
    }
  }

  lemma ZoneEnds(t: Instant, extra: string, zone: string)
    requires AllDigits(extra) && zone in {"Z", "z", "+00:00"}
    ensures var core := Stem(t) + extra + zone;
            && core != "" && !Blank(core[0]) && !Blank(core[|core| - 1])
            && (if core[|core| - 1] == 'Z' || core[|core| - 1] == 'z' then core[..|core| - 1] + "+00:00" else core)
               == Long(t, extra)
  {
  }

  predicate InZulu(core: string) {
    core != "" && (core[|core| - 1] == 'Z' || core[|core| - 1] == 'z')
  }

  lemma ParseSteps(value: string, core: string, t: Option<Instant>)
    requires Strip(value) == core
    requires FromIso(Truncate(if InZulu(core) then core[..|core| - 1] + "+00:00" else core)) == t
    ensures ParseIsoTimestamp(value) == t
  {
  }

  /** Whatever precision beyond microseconds a client writes, in whichever spelling of UTC and with blanks around it,
      the instant read is the one truncated to microseconds. */
  lemma ParseTruncates(t: Instant, extra: string, zone: string, left: string, right: string)
    requires t.Valid() && AllDigits(extra) && zone in {"Z", "z", "+00:00"} && AllBlank(left) && AllBlank(right)
    ensures ParseIsoTimestamp(left + (Stem(t) + extra + zone + right)) == Some(t)
  {
    ZoneEnds(t, extra, zone);
    StripBoth(left, Stem(t) + extra + zone, right);
    TruncateLong(t, extra);
    FullFormReads(t);
    ParseSteps(left + (Stem(t) + extra + zone + right), Stem(t) + extra + zone, Some(t));
  }

  /** The text of an instant with only its first `k` fractional digits. */
  function Short(t: Instant, k: nat): string
    requires k <= 6
  {
    if k == 0 then Stem(t)[..19] else Stem(t)[..20 + k]
  }

  lemma ShortParts(t: Instant, k: nat)
    requires k < 6 && forall i :: k <= i < 6 ==> Pad(t.micro, 6)[i] == '0'
    ensures Complete(Short(t, k) + "+00:00") == Stem(t) + "+00:00"
  {
    var s := Stem(t);
    StemParts(t, "");
    assert s + "" == s;
    assert s[20..] == Pad(t.micro, 6);
    assert s[20 + k..] == ZEROS[..6 - k];
    if k == 0 {
      assert s == s[..19] + "." + ZEROS;
      Associate(s[..19] + ".", ZEROS, "+00:00");
    } else {
      assert s == s[..20 + k] + ZEROS[..6 - k];
    }
  }

  lemma ShortAt(t: Instant, k: nat, i: nat)
    requires k <= 6 && i < |Short(t, k) + "+00:00"|
    ensures (Short(t, k) + "+00:00")[i] == '.' ==> i == 19
    ensures (Short(t, k) + "+00:00")[i] != '\n'
    ensures i == |Short(t, k)| ==> (Short(t, k) + "+00:00")[i] == '+'
  {
    if i < |Short(t, k)| {
      LongAt(t, "", i);
      assert Stem(t) + "" == Stem(t);
      assert Long(t, "")[i] == Stem(t)[i];
    }
  }

  lemma NoSeventhInShort(t: Instant, k: nat, i: nat)
    requires k < 6
    ensures !SeventhAt(Short(t, k) + "+00:00", i)
  {
    var s := Short(t, k) + "+00:00";
    if 7 <= i < |s| {
      ShortAt(t, k, i - 7);
      if i == 26 {
        ShortAt(t, k, |Short(t, k)|);
        if k > 0 { assert s[20..26][k] == s[20 + k]; }
      }
    }
  }

  lemma TruncateShort(t: Instant, k: nat)
    requires k < 6
    ensures Truncate(Short(t, k) + "+00:00") == Short(t, k) + "+00:00"
  {
    var s := Short(t, k) + "+00:00";
    if LastSeventh(s, |s|).Some? { NoSeventhInShort(t, k, LastSeventh(s, |s|).value); }
  }

  lemma ShortEnds(t: Instant, k: nat, zone: string)
    requires k < 6 && zone in {"Z", "z", "+00:00"}
    ensures var core := Short(t, k) + zone;
            && core != "" && !Blank(core[0]) && !Blank(core[|core| - 1])
            && (if InZulu(core) then core[..|core| - 1] + "+00:00" else core) == Short(t, k) + "+00:00"
  {
    var core := Short(t, k) + zone;
    StemParts(t, "");
    assert Stem(t) + "" == Stem(t);
    assert core[0] == Stem(t)[..4][0];
    assert core[|core| - 1] == zone[|zone| - 1];
    if zone != "+00:00" { assert core[..|core| - 1] == Short(t, k); }
  }

  lemma ShortReads(t: Instant, k: nat)
    requires t.Valid() && k < 6 && forall i :: k <= i < 6 ==> Pad(t.micro, 6)[i] == '0'
    ensures FromIso(Short(t, k) + "+00:00") == Some(t)
  {
    ShortParts(t, k);
    FullFormReads(t);
  }

  /** Fewer fractional digits than six, or none, are read as well, the missing ones as zeros. */
  lemma ParseCompletes(t: Instant, k: nat, zone: string, left: string, right: string)
    requires t.Valid() && k < 6 && forall i :: k <= i < 6 ==> Pad(t.micro, 6)[i] == '0'
    requires zone in {"Z", "z", "+00:00"} && AllBlank(left) && AllBlank(right)
    ensures ParseIsoTimestamp(left + (Short(t, k) + zone + right)) == Some(t)
  {
    ShortEnds(t, k, zone);
    StripBoth(left, Short(t, k) + zone, right);
    TruncateShort(t, k);
    ShortReads(t, k);
    ParseSteps(left + (Short(t, k) + zone + right), Short(t, k) + zone, Some(t));
  }

  lemma FormatIsStem(y: Years, t: Instant)
    requires FullWidth(y, t)
    ensures FormatUtc(y, t) == Stem(t) + "Z"
  {
    if y.Unpadded? { FourDigits(t.year); }
  }

  /** The chain's own timestamp reads back as the instant it was made from, so an emitter with nanoseconds and the
      server with microseconds hash the same link. */
  lemma ChainTimestampReadsBack(y: Years, prev: string, id: string, t: Instant, extra: string)
    requires FullWidth(y, t) && AllDigits(extra)
    ensures ParseIsoTimestamp(FormatUtc(y, t)) == Some(t)
    ensures ParseIsoTimestamp(Stem(t) + extra + "Z").Some?
    ensures ChainPreimage(y, prev, id, ParseIsoTimestamp(Stem(t) + extra + "Z").value) == ChainPreimage(y, prev, id, t)
  {
    FormatIsStem(y, t);
    var core, plain := Stem(t) + extra + "Z", Stem(t) + "" + "Z";
    assert "" + (core + "") == core;
    assert "" + (plain + "") == plain && Stem(t) + "" == Stem(t);
    ParseTruncates(t, extra, "Z", "", "");
    ParseTruncates(t, "", "Z", "", "");
  }
}
