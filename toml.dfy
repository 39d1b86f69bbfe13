/**
 * src/core/utils/toml.rs: the line-based TOML subset reader used for the
 * configuration file.  Sections are `[name]` lines, entries are `key = value`
 * lines, and values are typed by trying the parsers in a fixed order.
 */
module Toml {
  import opened Wrappers
  import opened Text

  /** A parsed value. A float keeps its literal text: the binary value the
      source's f64 parser would produce is not modelled. */
  datatype TomlValue =
    | String(text: string)
    | Integer(value: int)
    | Float(literal: string)
    | Boolean(flag: bool)
    | Array(items: seq<TomlValue>)
    | Table(entries: map<string, TomlValue>)

  // ---------------------------------------------------------------------------
  // The syntax `f64::from_str` accepts
  // ---------------------------------------------------------------------------

  predicate IsDigit(c: char) {
    '0' <= c <= '9'
  }

  /** The number of leading decimal digits. */
  function DigitRun(s: string): (n: nat)
    ensures n <= |s|
    ensures forall k :: 0 <= k < n ==> IsDigit(s[k])
    ensures n < |s| ==> !IsDigit(s[n])
    decreases |s|
  {
    if s != [] && IsDigit(s[0]) then 1 + DigitRun(s[1..]) else 0
  }

  /** Nothing, or 'e'/'E', an optional sign and at least one digit. */
  predicate ExponentPart(t: string) {
    t == []
    || ((t[0] == 'e' || t[0] == 'E')
        && var u := if |t| > 1 && (t[1] == '+' || t[1] == '-') then t[2..] else t[1..];
           u != [] && DigitRun(u) == |u|)
  }

  /** Digits, an optional '.' and more digits (at least one digit in all), then an exponent. */
  predicate DecimalFloat(s: string) {
    var a := DigitRun(s);
    var rest := s[a..];
    if rest != [] && rest[0] == '.' then
      var b := DigitRun(rest[1..]);
      a + b > 0 && ExponentPart(rest[1 + b..])
    else a > 0 && ExponentPart(rest)
  }

  /** An optional sign, then "inf", "infinity" or "nan" in any case, or a decimal number. */
  predicate FloatLiteral(s: string) {
    var body := if s != [] && (s[0] == '+' || s[0] == '-') then s[1..] else s;
    ToLower(body) == "inf" || ToLower(body) == "infinity" || ToLower(body) == "nan" || DecimalFloat(body)
  }

  // ---------------------------------------------------------------------------
  // parse_value
  // ---------------------------------------------------------------------------

  predicate IsQuoted(value: string) {
    StartsWith(value, "\"") && EndsWith(value, "\"")
  }

  predicate IsBracketed(value: string) {
    StartsWith(value, "[") && EndsWith(value, "]")
  }

  /** TomlParser::parse_value on an already trimmed value: a quoted string, an i64, a
      float, a boolean, a bracketed comma-separated array (every element trimmed and
      parsed the same way), or else the raw text. */
  function ParseValue(value: string): (r: TomlValue)
    ensures r.Integer? ==> ParseI64(value) == Some(r.value)
    ensures r.Float? ==> r.literal == value && FloatLiteral(value)
    ensures r.Boolean? ==> value == (if r.flag then "true" else "false")
    ensures r.Array? ==> IsBracketed(value) && forall k :: 0 <= k < |r.items| ==> !r.items[k].Table?
    ensures !r.Table?
    decreases |value|
  {
    if IsQuoted(value) then String(TrimMatches(value, {'"'}))
    else if ParseI64(value).Some? then Integer(ParseI64(value).value)
    else if FloatLiteral(value) then Float(value)
    else if value == "true" then Boolean(true)
    else if value == "false" then Boolean(false)
    else if IsBracketed(value) then
      assert value[..1] == "[";
      var inner := TrimMatches(value, {'[', ']'});
      var parts := Split(inner, ",");
      Array(seq(|parts|, k requires 0 <= k < |parts| => ParseValue(Trim(parts[k]))))
    else String(value)
  }

  // ---------------------------------------------------------------------------
  // parse
  // ---------------------------------------------------------------------------

  /** The reader's state between lines: the data so far and the current section name. */
  datatype ReadState = ReadState(data: map<string, TomlValue>, section: string)

  /** The key of an entry line: trimmed, and stripped of quotes when it is quoted. */
  function EntryKey(raw: string): string {
    var key := Trim(raw);
    if IsQuoted(key) then TrimMatches(key, {'"'}) else key
  }

  /** Stores an entry into the current section's table when that name holds a table,
      otherwise at the top level. */
  function StoreEntry(data: map<string, TomlValue>, section: string, key: string, value: TomlValue)
    : map<string, TomlValue>
  {
    if section in data && data[section].Table? then
      data[section := Table(data[section].entries[key := value])]
    else data[key := value]
  }

  /** One iteration of the line loop. */
  function ReadLine(st: ReadState, raw: string): (r: ReadState)
    ensures st.data.Keys <= r.data.Keys
    ensures r.section == st.section || IsBracketed(Trim(raw))
  {
    var line := Trim(raw);
    if line == [] || StartsWith(line, "#") then st
    else if IsBracketed(line) then
      var name := TrimMatches(line, {'[', ']'});
      ReadState(st.data[name := Table(map[])], name)
    else
      match SplitOnce(line, "=")
      case None => st
      case Some((key, value)) =>
        ReadState(StoreEntry(st.data, st.section, EntryKey(key), ParseValue(Trim(value))), st.section)
  }

  /** The line loop over all lines, in order. */
  function ReadLines(st: ReadState, lines: seq<string>): (r: ReadState)
    ensures st.data.Keys <= r.data.Keys
    decreases |lines|
  {
    if lines == [] then st else ReadLines(ReadLine(st, lines[0]), lines[1..])
  }

  /** get_nested_value on a data map. */
  function NestedValue(data: map<string, TomlValue>, section: string, key: string): (r: Option<TomlValue>)
    ensures r.Some? <==> section in data && data[section].Table? && key in data[section].entries
    ensures r.Some? ==> r.value == data[section].entries[key]
  {
    if section in data && data[section].Table? && key in data[section].entries then
      Some(data[section].entries[key])
    else None
  }

  class TomlParser {
    var data: map<string, TomlValue>

    constructor()
      ensures data == map[]
    {
      data := map[];
    }

    /** TomlParser::parse: reads the lines of `input` into `data`, starting outside any section. */
    method Parse(input: string)
      modifies this
      ensures data == ReadLines(ReadState(old(data), ""), Lines(input)).data
    {
      var lines := Lines(input);
      var currentSection := "";
      var i := 0;
      while i < |lines|
        invariant 0 <= i <= |lines|
        invariant ReadLines(ReadState(data, currentSection), lines[i..])
               == ReadLines(ReadState(old(data), ""), lines)
      {
        assert lines[i..][1..] == lines[i + 1..];
        var line := Trim(lines[i]);
        if line == [] || StartsWith(line, "#") {
        } else if IsBracketed(line) {
          currentSection := TrimMatches(line, {'[', ']'});
          data := data[currentSection := Table(map[])];
        } else {
          match SplitOnce(line, "=") {
            case None =>
            case Some((key, value)) =>
              var k := Trim(key);
              if IsQuoted(k) {
                k := TrimMatches(k, {'"'});
              }
              var v := ParseValue(Trim(value));
              if currentSection in data && data[currentSection].Table? {
                data := data[currentSection := Table(data[currentSection].entries[k := v])];
              } else {
                data := data[k := v];
              }
          }
        }
        i := i + 1;
      }
    }

    /** TomlParser::get_value. */
    function GetValue(key: string): (r: Option<TomlValue>)
      reads this
      ensures r.Some? <==> key in data
      ensures r.Some? ==> r.value == data[key]
    {
      if key in data then Some(data[key]) else None
    }

    /** TomlParser::get_nested_value. */
    function GetNestedValue(section: string, key: string): (r: Option<TomlValue>)
      reads this
      ensures r == NestedValue(data, section, key)
    {
      if section in data && data[section].Table? && key in data[section].entries then
        Some(data[section].entries[key])
      else None
    }
  }

  // ---------------------------------------------------------------------------
  // Properties
  // ---------------------------------------------------------------------------

  /** Blank lines and comment lines leave the state as it is. */
  lemma BlankAndCommentLinesSkipped(st: ReadState, raw: string)
    requires Trim(raw) == [] || StartsWith(Trim(raw), "#")
    ensures ReadLine(st, raw) == st
  {
  }

  /** A section line makes its name current and stores a fresh empty table under it,
      whatever that name held before: repeating a section discards its earlier entries. */
  lemma SectionLineStartsEmptyTable(st: ReadState, raw: string)
    requires IsBracketed(Trim(raw))
    ensures var name := TrimMatches(Trim(raw), {'[', ']'});
            ReadLine(st, raw).section == name
            && ReadLine(st, raw).data == st.data[name := Table(map[])]
            && NestedValue(ReadLine(st, raw).data, name, "") == None
  {
    assert "#" != [] && Trim(raw)[0] == '[';
  }

  /** An entry line is split at its first '=': the key part holds none. */
  lemma EntryLineSplitsAtFirstEquals(line: string, key: string, value: string)
    requires SplitOnce(line, "=") == Some((key, value))
    ensures line == key + "=" + value && '=' !in key
  {
    if '=' in key {
      var j :| 0 <= j < |key| && key[j] == '=';
      assert key[j..j + 1] == "=";
      ContainsAt(key, "=", j);
    }
  }

  /** An entry line keeps the current section and stores its value under its key. */
  lemma EntryLineStores(st: ReadState, raw: string, key: string, value: string)
    requires Trim(raw) != [] && !StartsWith(Trim(raw), "#") && !IsBracketed(Trim(raw))
    requires SplitOnce(Trim(raw), "=") == Some((key, value))
    ensures ReadLine(st, raw).section == st.section
    ensures var after := ReadLine(st, raw).data;
            var k, v := EntryKey(key), ParseValue(Trim(value));
            if st.section in st.data && st.data[st.section].Table? then NestedValue(after, st.section, k) == Some(v)
            else k in after && after[k] == v
  {
    StoreEntryLands(st.data, st.section, EntryKey(key), ParseValue(Trim(value)));
  }

  /** A stored entry lands in the current section's table when that name holds a table,
      otherwise at the top level; every other name and entry is kept. */
  lemma StoreEntryLands(data: map<string, TomlValue>, section: string, k: string, v: TomlValue)
    ensures var after := StoreEntry(data, section, k, v);
            (if section in data && data[section].Table? then
               NestedValue(after, section, k) == Some(v)
               && (forall other :: other != k && other in data[section].entries ==>
                     NestedValue(after, section, other) == Some(data[section].entries[other]))
             else k in after && after[k] == v)
            && forall name :: name in data && name != section && name != k ==>
                 name in after && after[name] == data[name]
  {
  }

  /** Every key of a quoted-key line is unquoted; a plain key is only trimmed. */
  lemma EntryKeyUnquotes(raw: string)
    ensures !IsQuoted(Trim(raw)) ==> EntryKey(raw) == Trim(raw)
    ensures IsQuoted(Trim(raw)) ==> |EntryKey(raw)| < |Trim(raw)|
  {
  }

  /** A quoted value is a string even when its text would parse as a number. */
  lemma QuotedWinsOverNumber(s: string)
    requires s == [] || (s[0] != '"' && s[|s| - 1] != '"')
    ensures ParseValue("\"" + s + "\"") == String(s)
  {
    var q := "\"" + s + "\"";
    assert q[..1] == "\"" && q[|q| - 1..] == "\"";
    QuotesStripped(s);
  }

  lemma QuotesStripped(s: string)
    requires s == [] || (s[0] != '"' && s[|s| - 1] != '"')
    ensures TrimMatches("\"" + s + "\"", {'"'}) == s
  {
    var q, t := "\"" + s + "\"", s + "\"";
    assert q[0] == '"' && q[1..] == t;
    if s == [] {
      assert t[1..] == [];
    } else {
      assert t[..|t| - 1] == s;
      TrimMatchesDropsLast(t, {'"'});
      TrimMatchesKeeps(s, {'"'});
    }
  }

  /** Every i64 written in decimal reads back as that integer. */
  lemma IntegerRoundTrip(n: int)
    requires I64_MIN <= n <= I64_MAX
    ensures ParseValue(IntToString(n)) == Integer(n)
  {
    ParseIntToString(n, I64_MIN, I64_MAX);
    var t := IntToString(n);
    assert t[0] != '"' by {
      if n < 0 { assert t[0] == '-'; } else { assert t[0] == NatToString(n)[0]; }
    }
  }

  /** The converse of ParseValue's contract, in the order the tests are made: a quoted
      text is a string; an unquoted i64 text is that integer; an unquoted float literal
      that is no i64 is a float; the two boolean words are booleans. */
  lemma ParseValueDecisions(value: string)
    ensures IsQuoted(value) ==> ParseValue(value).String?
    ensures !IsQuoted(value) && ParseI64(value).Some? ==> ParseValue(value) == Integer(ParseI64(value).value)
    ensures !IsQuoted(value) && ParseI64(value).None? && FloatLiteral(value) ==> ParseValue(value) == Float(value)
    ensures value == "true" ==> ParseValue(value) == Boolean(true)
    ensures value == "false" ==> ParseValue(value) == Boolean(false)
  {
    if value == "true" || value == "false" {
      BooleanRoundTrip(value == "true");
    }
  }

  /** The two boolean words read back as booleans; other spellings are not booleans. */
  lemma BooleanRoundTrip(b: bool)
    ensures ParseValue(if b then "true" else "false") == Boolean(b)
  {
    var t := if b then "true" else "false";
    WordIsNoNumber(t);
  }

  lemma CapitalisedBooleanIsString()
    ensures ParseValue("True") == String("True")
  {
    var t := "True";
    WordIsNoNumber(t);
    assert !IsBracketed(t);
  }

  /** A word that starts with a letter and is not three or eight characters long (the
      lengths of "inf", "nan" and "infinity") is no quoted string and no number. */
  lemma WordIsNoNumber(t: string)
    requires t != [] && ('a' <= t[0] <= 'z' || 'A' <= t[0] <= 'Z')
    requires |t| != 3 && |t| != 8
    ensures !IsQuoted(t) && ParseI64(t).None? && !FloatLiteral(t)
  {
    DigitsValueNone(t, 10, 0);
    assert DigitRun(t) == 0;
  }

  /** A decimal fraction is a float, and so is "nan". */
  lemma FractionIsFloat()
    ensures ParseValue("1.5") == Float("1.5")
  {
    var v := "1.5";
    assert v[0] == '1' && v[1] == '.' && v[2] == '5';
    DigitsValueNone(v, 10, 1);
    assert DigitRun(v[1..]) == 0;
    assert DigitRun(v) == 1;
    assert v[1..][1..] == "5";
    assert DigitRun("5") == 1;
    assert DecimalFloat(v);
  }

  lemma NanIsFloat()
    ensures ParseValue("nan") == Float("nan")
  {
    var v := "nan";
    assert v[0] == 'n';
    DigitsValueNone(v, 10, 0);
    assert ToLower(v) == "nan";
  }

  /** A bracketed list is an array of its trimmed, comma-separated parts; "[]" holds one
      empty string, because splitting an empty text yields one empty part. */
  lemma EmptyBracketsHoldEmptyString(v: string)
    requires |v| == 2 && v[0] == '[' && v[1] == ']'
    ensures ParseValue(v) == Array([String("")])
  {
    EmptyBracketsIsNoScalar(v);
    EmptyBracketsInner(v);
    BracketedItems(v);
    EmptyIsString();
    var items := ParseValue(v).items;
    assert |items| == 1 && items[0] == String("");
    assert items == [String("")];
  }

  /** A value that is no scalar but is bracketed parses to an array with one item per
      comma-separated part, each trimmed and parsed in turn. */
  lemma BracketedItems(v: string)
    requires !IsQuoted(v) && ParseI64(v).None? && !FloatLiteral(v) && v != "true" && v != "false"
    requires IsBracketed(v)
    ensures var parts := Split(TrimMatches(v, {'[', ']'}), ",");
      ParseValue(v).Array? && |ParseValue(v).items| == |parts| &&
      forall k :: 0 <= k < |parts| ==> ParseValue(v).items[k] == ParseValue(Trim(parts[k]))
  {
  }

  lemma EmptyBracketsIsNoScalar(v: string)
    requires |v| == 2 && v[0] == '[' && v[1] == ']'
    ensures !IsQuoted(v) && ParseI64(v).None? && !FloatLiteral(v) && IsBracketed(v)
    ensures v != "true" && v != "false"
  {
    DigitsValueNone(v, 10, 0);
    assert DigitRun(v) == 0;
    assert ToLower(v) == v;
  }

  lemma EmptyBracketsInner(v: string)
    requires |v| == 2 && v[0] == '[' && v[1] == ']'
    ensures TrimMatches(v, {'[', ']'}) == "" && Split("", ",") == [""] && Trim("") == ""
  {
    assert v[1..][1..] == "";
  }

  lemma EmptyIsString()
    ensures ParseValue("") == String("")
  {
  }
}
