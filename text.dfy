/**
 * The Rust `str` and integer-parsing behaviour the server relies on, stated over
 * `string` (a sequence of Unicode scalar values) and bytes.
 */
module Text {
  import opened Wrappers

  newtype byte = x: int | 0 <= x < 256

  const USIZE_MAX: int := 0xFFFF_FFFF_FFFF_FFFF
  const U16_MAX: int := 0xFFFF
  const I32_MIN: int := -0x8000_0000
  const I32_MAX: int := 0x7FFF_FFFF
  const I64_MIN: int := -0x8000_0000_0000_0000
  const I64_MAX: int := 0x7FFF_FFFF_FFFF_FFFF

  // ---------------------------------------------------------------------------
  // Whitespace and trimming (char::is_whitespace, str::trim_start/trim_end/trim)
  // ---------------------------------------------------------------------------

  /** Unicode White_Space, the set `char::is_whitespace` accepts. */
  predicate IsWhitespace(c: char) {
    c == ' ' || ('\t' <= c <= '\r') || c == '\U{85}' || c == '\U{A0}' || c == '\U{1680}'
    || ('\U{2000}' <= c <= '\U{200A}') || c == '\U{2028}' || c == '\U{2029}' || c == '\U{202F}'
    || c == '\U{205F}' || c == '\U{3000}'
  }

  function TrimStart(s: string): (r: string)
    ensures |r| <= |s| && r == s[|s| - |r|..]
    ensures r != [] ==> !IsWhitespace(r[0])
    decreases |s|
  {
    if s != [] && IsWhitespace(s[0]) then TrimStart(s[1..]) else s
  }

  function TrimEnd(s: string): (r: string)
    ensures |r| <= |s| && r == s[..|r|]
    ensures r != [] ==> !IsWhitespace(r[|r| - 1])
    decreases |s|
  {
    if s != [] && IsWhitespace(s[|s| - 1]) then TrimEnd(s[..|s| - 1]) else s
  }

  function Trim(s: string): (r: string)
    ensures |r| <= |s|
  {
    TrimEnd(TrimStart(s))
  }

  /** str::trim_matches with a set of characters: strips them from both ends. */
  function TrimMatches(s: string, cs: set<char>): (r: string)
    ensures |r| <= |s|
    ensures s != [] && s[0] in cs ==> |r| < |s|
    ensures r != [] ==> r[0] !in cs && r[|r| - 1] !in cs
    decreases |s|
  {
    if s != [] && s[0] in cs then TrimMatches(s[1..], cs)
    else if s != [] && s[|s| - 1] in cs then TrimMatches(s[..|s| - 1], cs)
    else s
  }
  /** A text that neither starts nor ends with a trimmed character is kept. */
  lemma TrimMatchesKeeps(s: string, cs: set<char>)
    requires s == [] || (s[0] !in cs && s[|s| - 1] !in cs)
    ensures TrimMatches(s, cs) == s
  {
  }

  /** A trimmed character at the end is dropped when the start is not trimmed. */
  lemma TrimMatchesDropsLast(s: string, cs: set<char>)
    requires s != [] && s[|s| - 1] in cs && (s[0] !in cs)
    ensures TrimMatches(s, cs) == TrimMatches(s[..|s| - 1], cs)
  {
  }


  // ---------------------------------------------------------------------------
  // Prefixes, substrings and splitting
  // ---------------------------------------------------------------------------

  predicate StartsWith(s: string, p: string) {
    |p| <= |s| && s[..|p|] == p
  }

  predicate EndsWith(s: string, p: string) {
    |p| <= |s| && s[|s| - |p|..] == p
  }

  /** `p` occurs in `s` starting at index `j`. */
  predicate OccursAt(s: string, p: string, j: int) {
    0 <= j && j + |p| <= |s| && s[j..j + |p|] == p
  }

  /** The first index at which `p` occurs in `s` (str::find). */
  function FindSub(s: string, p: string): (r: Option<nat>)
    ensures r.Some? ==> OccursAt(s, p, r.value)
    ensures r.Some? ==> forall j :: 0 <= j < r.value ==> !OccursAt(s, p, j)
    ensures r.None? ==> forall j :: !OccursAt(s, p, j)
    decreases |s|
  {
    if |s| < |p| then None
    else if s[..|p|] == p then Some(0)
    else
      match FindSub(s[1..], p)
      case None =>
        assert forall j :: OccursAt(s, p, j) ==> j == 0 || OccursAt(s[1..], p, j - 1) by {
          forall j | OccursAt(s, p, j) && j != 0 ensures OccursAt(s[1..], p, j - 1) {
            assert s[1..][j - 1..j - 1 + |p|] == s[j..j + |p|];
          }
        }
        None
      case Some(i) =>
        assert OccursAt(s, p, i + 1) by { assert s[1..][i..i + |p|] == s[i + 1..i + 1 + |p|]; }
        assert forall j :: 0 < j < i + 1 ==> !OccursAt(s, p, j) by {
          forall j | 0 < j < i + 1 && OccursAt(s, p, j) ensures false {
            assert s[1..][j - 1..j - 1 + |p|] == s[j..j + |p|];
            assert OccursAt(s[1..], p, j - 1);
          }
        }
        Some(i + 1)
  }

  predicate Contains(s: string, p: string) {
    FindSub(s, p).Some?
  }

  /** str::split_once with a string pattern: around the first occurrence. */
  function SplitOnce(s: string, p: string): (r: Option<(string, string)>)
    ensures r.Some? <==> Contains(s, p)
    ensures r.Some? ==> s == r.value.0 + p + r.value.1
    ensures r.Some? && |p| > 0 ==> !Contains(r.value.0, p)
  {
    match FindSub(s, p)
    case None => None
    case Some(i) =>
      assert s == s[..i] + p + s[i + |p|..];
      if |p| > 0 then
        assert forall j :: !OccursAt(s[..i], p, j) by {
          forall j | OccursAt(s[..i], p, j) ensures false {
            assert s[..i][j..j + |p|] == s[j..j + |p|];
            assert OccursAt(s, p, j);
          }
        }
        Some((s[..i], s[i + |p|..]))
      else Some((s[..i], s[i + |p|..]))
  }

  /** str::split with a non-empty pattern: the pieces between non-overlapping
      occurrences, found left to right. */
  function Split(s: string, p: string): (r: seq<string>)
    requires |p| > 0
    ensures |r| >= 1
    ensures forall k :: 0 <= k < |r| ==> |r[k]| <= |s|
    decreases |s|
  {
    match FindSub(s, p)
    case None => [s]
    case Some(i) => [s[..i]] + Split(s[i + |p|..], p)
  }

  /** The pieces joined with `sep` between them (slice::join). */
  function Join(parts: seq<string>, sep: string): string {
    if |parts| == 0 then ""
    else if |parts| == 1 then parts[0]
    else parts[0] + sep + Join(parts[1..], sep)
  }

  /** str::replace: every occurrence found by a left-to-right scan is replaced. */
  function Replace(s: string, p: string, v: string): string
    requires |p| > 0
  {
    Join(Split(s, p), v)
  }

  /** Splitting on a pattern and joining with the same pattern gives back the string. */
  lemma {:induction false} JoinSplit(s: string, p: string)
    requires |p| > 0
    ensures Join(Split(s, p), p) == s
    decreases |s|
  {
    match FindSub(s, p)
    case None =>
    case Some(i) =>
      var rest := Split(s[i + |p|..], p);
      assert Split(s, p) == [s[..i]] + rest;
      JoinCons(s[..i], rest, p);
      JoinSplit(s[i + |p|..], p);
      assert s == s[..i] + p + s[i + |p|..];
  }

  /** Replacing a pattern by itself changes nothing. */
  lemma ReplaceSelf(s: string, p: string)
    requires |p| > 0
    ensures Replace(s, p, p) == s
  {
    JoinSplit(s, p);
  }

  /** A string in which the pattern does not occur is left as it is. */
  /** Splitting cuts at every occurrence: no piece contains the pattern. */
  lemma {:induction false} SplitPiecesFree(s: string, p: string)
    requires |p| > 0
    ensures forall k :: 0 <= k < |Split(s, p)| ==> !Contains(Split(s, p)[k], p)
    decreases |s|
  {
    match FindSub(s, p)
    case None =>
    case Some(i) =>
      SplitPiecesFree(s[i + |p|..], p);
      var head := s[..i];
      if Contains(head, p) {
        var j := FindSub(head, p).value;
        assert head[j..j + |p|] == s[j..j + |p|];
        assert OccursAt(s, p, j);
        assert false;
      }
  }

  lemma ReplaceAbsent(s: string, p: string, v: string)
    requires |p| > 0 && !Contains(s, p)
    ensures Replace(s, p, v) == s
  {
  }

  /** The text before the first occurrence is kept and the occurrence becomes `v`. */
  lemma ReplaceFirst(s: string, p: string, v: string)
    requires |p| > 0 && Contains(s, p)
    ensures var i := FindSub(s, p).value;
            Replace(s, p, v) == s[..i] + v + Replace(s[i + |p|..], p, v)
  {
    var i := FindSub(s, p).value;
    var rest := Split(s[i + |p|..], p);
    assert Split(s, p) == [s[..i]] + rest;
    JoinCons(s[..i], rest, v);
  }

  lemma JoinCons(a: string, rest: seq<string>, sep: string)
    requires |rest| >= 1
    ensures Join([a] + rest, sep) == a + sep + Join(rest, sep)
  {
    assert ([a] + rest)[1..] == rest;
  }

  /** Any occurrence makes `Contains` true. */
  lemma ContainsAt(s: string, p: string, j: int)
    requires OccursAt(s, p, j)
    ensures Contains(s, p)
  {
  }

  /** Replacing a pattern that occurs puts the replacement text into the result. */
  lemma ReplaceInserts(s: string, p: string, v: string)
    requires |p| > 0 && Contains(s, p)
    ensures Contains(Replace(s, p, v), v)
  {
    var i := FindSub(s, p).value;
    ReplaceFirst(s, p, v);
    var r := Replace(s, p, v);
    assert r[i..i + |v|] == v;
    ContainsAt(r, v, i);
  }

  /** The tokens of str::split_whitespace: maximal runs of non-whitespace. */
  function SplitWhitespace(s: string): (r: seq<string>)
    ensures forall k :: 0 <= k < |r| ==> r[k] != [] && forall c :: c in r[k] ==> !IsWhitespace(c)
    decreases |s|
  {
    if s == [] then []
    else if IsWhitespace(s[0]) then SplitWhitespace(s[1..])
    else
      var n := TokenLength(s);
      [s[..n]] + SplitWhitespace(s[n..])
  }

  function TokenLength(s: string): (n: nat)
    ensures n <= |s|
    ensures forall k :: 0 <= k < n ==> !IsWhitespace(s[k])
    ensures s != [] && !IsWhitespace(s[0]) ==> n > 0
    decreases |s|
  {
    if s == [] || IsWhitespace(s[0]) then 0 else 1 + TokenLength(s[1..])
  }

  /** A word: non-empty and free of whitespace. */
  predicate IsWord(t: string) {
    t != [] && forall k :: 0 <= k < |t| ==> !IsWhitespace(t[k])
  }

  /** A word followed by whitespace or the end is one token of its own. */
  lemma {:induction false} TokenLengthOfWord(t: string, rest: string)
    requires IsWord(t) && (rest == [] || IsWhitespace(rest[0]))
    ensures TokenLength(t + rest) == |t|
    decreases |t|
  {
    if |t| > 1 {
      assert (t + rest)[1..] == t[1..] + rest;
      TokenLengthOfWord(t[1..], rest);
    } else {
      assert (t + rest)[1..] == rest;
    }
  }

  lemma SplitWhitespaceOfWord(t: string, rest: string)
    requires IsWord(t) && (rest == [] || IsWhitespace(rest[0]))
    ensures SplitWhitespace(t + rest) == [t] + SplitWhitespace(rest)
  {
    TokenLengthOfWord(t, rest);
    assert (t + rest)[..|t|] == t && (t + rest)[|t|..] == rest;
  }

  /** A word and a space: the word is the first token of what follows. */
  lemma SplitWordThenSpace(t: string, rest: string)
    requires IsWord(t)
    ensures SplitWhitespace(t + " " + rest) == [t] + SplitWhitespace(rest)
  {
    var tail := " " + rest;
    assert t + " " + rest == t + tail;
    SplitWhitespaceOfWord(t, tail);
    assert tail[1..] == rest;
  }

  /** split_whitespace gives back three words joined by single spaces. */
  lemma SplitThreeWords(a: string, b: string, c: string)
    requires IsWord(a) && IsWord(b) && IsWord(c)
    ensures SplitWhitespace(a + " " + b + " " + c) == [a, b, c]
  {
    assert a + " " + b + " " + c == a + " " + (b + " " + c);
    SplitWordThenSpace(a, b + " " + c);
    SplitWordThenSpace(b, c);
    SplitWhitespaceOfWord(c, []);
    assert c + [] == c;
  }

  /** trim_end keeps a text that does not end in whitespace. */
  lemma TrimEndKeeps(s: string)
    requires s == [] || !IsWhitespace(s[|s| - 1])
    ensures TrimEnd(s) == s
  {
  }

  /** Replacing a pattern by nothing removes it from the front of a text shorter after it
      than the pattern itself. */
  lemma ReplaceLeadingPattern(p: string, rest: string)
    requires |p| > |rest|
    ensures Replace(p + rest, p, "") == rest
  {
    assert (p + rest)[..|p|] == p;
    assert FindSub(p + rest, p) == Some(0);
    assert (p + rest)[|p|..] == rest;
    assert Split(rest, p) == [rest];
    assert Split(p + rest, p) == [[], rest];
    assert [[], rest][1..] == [rest];
    assert Join([[], rest], "") == [] + "" + Join([rest], "");
    assert Join([rest], "") == rest;
    assert [] + "" + rest == rest;
  }

  /** str::lines: split at '\n', drop a '\r' before it, no empty line after a final '\n'. */
  function Lines(s: string): seq<string>
    decreases |s|
  {
    if s == [] then []
    else
      match FindSub(s, "\n")
      case None => [s]
      case Some(i) =>
        var line := s[..i];
        [if line != [] && line[|line| - 1] == '\r' then line[..|line| - 1] else line] + Lines(s[i + 1..])
  }

  // ---------------------------------------------------------------------------
  // Case mapping
  // ---------------------------------------------------------------------------

  /** char::to_lowercase, restricted to the characters whose lower case is an ASCII
      letter (A-Z and the Kelvin sign); every other character is kept. */
  function LowerChar(c: char): char {
    if 'A' <= c <= 'Z' then (c as int + 32) as char
    else if c == '\U{212A}' then 'k'
    else c
  }

  /** char::to_uppercase, restricted to the characters whose upper case is one ASCII
      letter (a-z, dotless i, long s); every other character is kept. */
  function UpperChar(c: char): char {
    if 'a' <= c <= 'z' then (c as int - 32) as char
    else if c == '\U{131}' then 'I'
    else if c == '\U{17F}' then 'S'
    else c
  }

  function ToLower(s: string): (r: string)
    ensures |r| == |s| && forall k :: 0 <= k < |s| ==> r[k] == LowerChar(s[k])
  {
    seq(|s|, k requires 0 <= k < |s| => LowerChar(s[k]))
  }

  function ToUpper(s: string): (r: string)
    ensures |r| == |s| && forall k :: 0 <= k < |s| ==> r[k] == UpperChar(s[k])
  {
    seq(|s|, k requires 0 <= k < |s| => UpperChar(s[k]))
  }

  lemma ToLowerIdempotent(s: string)
    ensures ToLower(ToLower(s)) == ToLower(s)
  {
  }

  // ---------------------------------------------------------------------------
  // Integers: parsing (FromStr / from_str_radix) and decimal formatting
  // ---------------------------------------------------------------------------

  /** char::to_digit for radix 10 and 16. */
  function DigitValue(c: char, radix: nat): (r: Option<nat>)
    requires radix == 10 || radix == 16
    ensures r.Some? ==> r.value < radix
  {
    if '0' <= c <= '9' then Some(c as int - '0' as int)
    else if radix == 16 && 'a' <= c <= 'f' then Some(c as int - 'a' as int + 10)
    else if radix == 16 && 'A' <= c <= 'F' then Some(c as int - 'A' as int + 10)
    else None
  }

  /** The value of a run of digits, most significant first; None if a character is not a digit. */
  function DigitsValue(s: string, radix: nat): Option<nat>
    requires radix == 10 || radix == 16
    decreases |s|
  {
    if s == [] then Some(0)
    else
      match DigitsValue(s[..|s| - 1], radix)
      case None => None
      case Some(hi) =>
        match DigitValue(s[|s| - 1], radix)
        case None => None
        case Some(d) => Some(hi * radix + d)
  }

  /** A character that is not a digit makes the whole run invalid. */
  lemma {:induction false} DigitsValueNone(s: string, radix: nat, j: int)
    requires radix == 10 || radix == 16
    requires 0 <= j < |s| && DigitValue(s[j], radix).None?
    ensures DigitsValue(s, radix).None?
    decreases |s|
  {
    if j < |s| - 1 {
      assert s[..|s| - 1][j] == s[j];
      DigitsValueNone(s[..|s| - 1], radix, j);
    }
  }

  /** Rust's integer parsing: an optional '+' (or '-' for signed types), at least one
      digit, no other character, and the value in [lo, hi]. */
  function ParseInt(s: string, radix: nat, signed: bool, lo: int, hi: int): (r: Option<int>)
    requires radix == 10 || radix == 16
    ensures r.Some? ==> lo <= r.value <= hi
  {
    if s == [] then None
    else if (s[0] == '+' || s[0] == '-') && |s| == 1 then None
    else
      var neg := s[0] == '-' && signed;
      var digits := if s[0] == '+' || neg then s[1..] else s;
      match DigitsValue(digits, radix)
      case None => None
      case Some(v) =>
        var n: int := if neg then -(v as int) else v;
        if lo <= n <= hi then Some(n) else None
  }

  function ParseUsize(s: string): Option<int> { ParseInt(s, 10, false, 0, USIZE_MAX) }
  function ParseU16(s: string): Option<int> { ParseInt(s, 10, false, 0, U16_MAX) }
  function ParseI32(s: string): Option<int> { ParseInt(s, 10, true, I32_MIN, I32_MAX) }
  function ParseI64(s: string): Option<int> { ParseInt(s, 10, true, I64_MIN, I64_MAX) }
  /** u8::from_str_radix(s, 16). */
  function ParseHexU8(s: string): Option<int> { ParseInt(s, 16, false, 0, 255) }

  function DigitChar(d: nat): (c: char)
    requires d < 10
    ensures DigitValue(c, 10) == Some(d) && '0' <= c <= '9'
  {
    ('0' as int + d) as char
  }

  /** The decimal text of a natural number (Display for unsigned integers). */
  function NatToString(n: nat): (r: string)
    ensures r != [] && r[0] != '+' && r[0] != '-'
    ensures forall k :: 0 <= k < |r| ==> '0' <= r[k] <= '9'
    ensures DigitsValue(r, 10) == Some(n)
    decreases n
  {
    if n < 10 then [DigitChar(n)]
    else
      var r := NatToString(n / 10) + [DigitChar(n % 10)];
      assert r[..|r| - 1] == NatToString(n / 10);
      r
  }

  /** Display for signed integers. */
  function IntToString(i: int): string {
    if i < 0 then "-" + NatToString(-i) else NatToString(i)
  }

  /** Formatting an unsigned value and parsing it back gives the value (as long as it fits). */
  lemma ParseNatToString(n: nat, hi: int)
    requires n <= hi
    ensures ParseInt(NatToString(n), 10, false, 0, hi) == Some(n)
  {
  }

  /** Formatting a signed value and parsing it back gives the value (as long as it fits). */
  lemma ParseIntToString(i: int, lo: int, hi: int)
    requires lo <= 0 && lo <= i <= hi
    ensures ParseInt(IntToString(i), 10, true, lo, hi) == Some(i)
  {
    var s := IntToString(i);
    if i < 0 {
      var t := NatToString(-i);
      assert s == "-" + t;
      assert s[0] == '-' && |s| > 1;
      assert s[1..] == t;
      assert DigitsValue(s[1..], 10) == Some(-i);
    } else {
      assert s == NatToString(i);
      assert DigitsValue(s, 10) == Some(i);
    }
  }

  function Repeat(c: char, n: nat): (r: string)
    ensures |r| == n && forall k :: 0 <= k < n ==> r[k] == c
  {
    seq(n, _ => c)
  }

  /** `{:0w}`: zero padding to width `w`; the sign of a negative value counts in the width. */
  function Padded(i: int, w: nat): (r: string)
    ensures |r| >= w
    ensures 0 <= i < TenTo(w) && w > 0 ==> |r| == w
  {
    if i < 0 then
      var digits := NatToString(-i);
      "-" + (if |digits| + 1 < w then Repeat('0', w - 1 - |digits|) else "") + digits
    else
      var digits := NatToString(i);
      DigitsFit(i, w);
      (if |digits| < w then Repeat('0', w - |digits|) else "") + digits
  }

  function TenTo(w: nat): nat {
    if w == 0 then 1 else 10 * TenTo(w - 1)
  }

  /** A value below 10^w has at most w decimal digits. */
  lemma {:induction false} DigitsFit(n: nat, w: nat)
    ensures 0 < w && n < TenTo(w) ==> |NatToString(n)| <= w
    decreases w
  {
    if 0 < w && n < TenTo(w) && n >= 10 {
      assert TenTo(1) == 10;
      assert w > 1;
      assert n / 10 < TenTo(w - 1);
      DigitsFit(n / 10, w - 1);
    }
  }

  // ---------------------------------------------------------------------------
  // UTF-8 (String::as_bytes / into_bytes)
  // ---------------------------------------------------------------------------

  function EncodeChar(c: char): (r: seq<byte>)
    ensures 1 <= |r| <= 4
    ensures |r| == 1 <==> c as int < 0x80
  {
    var n := c as int;
    if n < 0x80 then [n as byte]
    else if n < 0x800 then [(0xC0 + n / 0x40) as byte, (0x80 + n % 0x40) as byte]
    else if n < 0x1_0000 then
      [(0xE0 + n / 0x1000) as byte, (0x80 + (n / 0x40) % 0x40) as byte, (0x80 + n % 0x40) as byte]
    else
      [(0xF0 + n / 0x4_0000) as byte, (0x80 + (n / 0x1000) % 0x40) as byte,
       (0x80 + (n / 0x40) % 0x40) as byte, (0x80 + n % 0x40) as byte]
  }

  /** The UTF-8 encoding of a string. */
  function Utf8(s: string): (r: seq<byte>)
    ensures |r| >= |s|
    decreases |s|
  {
    if s == [] then [] else EncodeChar(s[0]) + Utf8(s[1..])
  }

  predicate IsAscii(s: string) {
    forall k :: 0 <= k < |s| ==> s[k] as int < 0x80
  }

  lemma {:induction false} Utf8Append(a: string, b: string)
    ensures Utf8(a + b) == Utf8(a) + Utf8(b)
    decreases |a|
  {
    if a != [] {
      assert (a + b)[0] == a[0];
      assert (a + b)[1..] == a[1..] + b;
      Utf8Append(a[1..], b);
    } else {
      assert a + b == b;
    }
  }

  /** An ASCII string takes one byte per character. */
  lemma {:induction false} Utf8Ascii(s: string)
    requires IsAscii(s)
    ensures |Utf8(s)| == |s|
    ensures forall k :: 0 <= k < |s| ==> Utf8(s)[k] as int == s[k] as int
    decreases |s|
  {
    if s != [] {
      Utf8Ascii(s[1..]);
    }
  }
}
