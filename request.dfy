/**
 * The methods the server answers, shared by the request reader (which reads a
 * body only for them) and the method policy (src/core/server/server.rs:18-25).
 */
module ServerConstants {
  import opened Http

  const SERVER_NAME := "Katana"
  const SERVER_VERSION := "0.1.0"

  function SupportedHttpMethods(): seq<HttpMethod> {
    [GET, HEAD, OPTIONS, TRACE]
  }

  /** Server::version: the name and version separated by one space. */
  function Version(): (r: string)
    ensures r == "Katana 0.1.0"
  {
    SERVER_NAME + " " + SERVER_VERSION
  }
}

/**
 * src/request.rs: reading a request from the connection.
 *
 * The connection is given as the lines `read_line` would return, in order,
 * and the bytes that follow the blank line that ends the header block.  Read
 * errors of the connection and the UTF-8 check of `read_line` are not part
 * of this model; the body is kept as bytes (the lossy UTF-8 decoding of the
 * source is not modelled).
 */
module Requests {
  import opened Wrappers
  import opened Text
  import opened Http
  import opened ServerConstants

  datatype Request = Request(
    version: HttpVersion,
    domain: string,
    path: string,
    verb: HttpMethod,
    queries: seq<(string, string)>,
    headers: seq<(string, string)>,
    cookies: seq<(string, string)>,
    body: seq<byte>)

  /** What the connection offers: the lines, and the bytes after the header block. */
  datatype Input = Input(lines: seq<string>, rest: seq<byte>)

  /** from_stream returns a request, returns None, or panics on an `unwrap`. */
  datatype ParseOutcome = NoRequest | Parsed(request: Request) | Panic

  // ---------------------------------------------------------------------------
  // decode_url
  // ---------------------------------------------------------------------------

  /** The decoder's result: `%` with two hex digits becomes the character with that code
      (0..255); a `%` whose two following characters do not parse is emitted with them,
      and they are not scanned again; a `%` with fewer than two characters after it is
      emitted as it stands; `+` becomes a space; anything else is kept. */
  function Decode(s: string): string
    decreases |s|
  {
    if s == [] then []
    else if s[0] == '%' then
      if |s| >= 3 then
        match ParseHexU8(s[1..3])
        case Some(b) => [b as char] + Decode(s[3..])
        case None => s[..3] + Decode(s[3..])
      else s
    else if s[0] == '+' then [' '] + Decode(s[1..])
    else [s[0]] + Decode(s[1..])
  }

  /** One step of the decoder: the text for the head of `s` and the length it consumes. */
  lemma DecodeHead(s: string, piece: string, n: nat)
    requires 0 < n <= |s|
    requires s[0] == '%' && |s| >= 3 && ParseHexU8(s[1..3]).Some? ==>
               piece == [ParseHexU8(s[1..3]).value as char] && n == 3
    requires s[0] == '%' && |s| >= 3 && ParseHexU8(s[1..3]).None? ==> piece == s[..3] && n == 3
    requires s[0] == '%' && |s| < 3 ==> piece == s && n == |s|
    requires s[0] == '+' ==> piece == " " && n == 1
    requires s[0] != '%' && s[0] != '+' ==> piece == [s[0]] && n == 1
    ensures Decode(s) == piece + Decode(s[n..])
  {
    if s[0] == '%' && |s| < 3 {
      assert s[n..] == [];
    }
  }

  /** One turn of decode_url's loop at index `i`: the text emitted and the next index. */
  method DecodeStep(url: string, i: nat) returns (piece: string, next: nat)
    requires i < |url|
    ensures i < next <= |url|
    ensures Decode(url[i..]) == piece + Decode(url[next..])
  {
    ghost var rest := url[i..];
    var c := url[i];
    if c == '%' {
      if i + 2 < |url| {
        var hex := url[i + 1..i + 3];
        assert rest[1..3] == hex;
        match ParseHexU8(hex) {
          case Some(b) =>
            piece := [b as char];
          case None =>
            piece := ['%'] + hex;
            assert rest[..3] == piece;
        }
        next := i + 3;
      } else {
        piece := url[i..];
        next := |url|;
      }
    } else {
      piece := if c == '+' then [' '] else [c];
      next := i + 1;
    }
    DecodeHead(rest, piece, next - i);
    assert rest[next - i..] == url[next..];
  }

  /** Request::decode_url. */
  method DecodeUrl(url: string) returns (result: string)
    ensures result == Decode(url)
  {
    result := [];
    var i := 0;
    while i < |url|
      invariant 0 <= i <= |url|
      invariant result + Decode(url[i..]) == Decode(url)
    {
      var piece, next := DecodeStep(url, i);
      result := result + piece;
      i := next;
    }
  }

  /** The decoded text is never longer than the input. */
  lemma {:induction false} DecodeNeverLonger(s: string)
    ensures |Decode(s)| <= |s|
    decreases |s|
  {
    if s != [] {
      if s[0] == '%' {
        if |s| >= 3 {
          DecodeNeverLonger(s[3..]);
        }
      } else {
        DecodeNeverLonger(s[1..]);
      }
    }
  }

  /** A text with no '%' and no '+' passes through unchanged. */
  lemma {:induction false} DecodePlainText(s: string)
    requires '%' !in s && '+' !in s
    ensures Decode(s) == s
    decreases |s|
  {
    if s != [] {
      assert s[0] in s;
      assert forall c :: c in s[1..] ==> c in s;
      DecodePlainText(s[1..]);
    }
  }

  /** The upper-case hex digit of a value below 16. */
  function HexDigit(d: nat): (c: char)
    requires d < 16
    ensures DigitValue(c, 16) == Some(d)
  {
    if d < 10 then ('0' as int + d) as char else ('A' as int + d - 10) as char
  }

  /** Percent-encoding of every character: the inverse partner of the decoder for texts
      whose characters are all below U+0100. */
  function PercentEncode(s: string): (r: string)
    requires forall k :: 0 <= k < |s| ==> s[k] as int < 256
    ensures |r| == 3 * |s|
  {
    if s == [] then []
    else ['%', HexDigit(s[0] as int / 16), HexDigit(s[0] as int % 16)] + PercentEncode(s[1..])
  }

  lemma HexPair(v: int)
    requires 0 <= v < 256
    ensures ParseHexU8([HexDigit(v / 16), HexDigit(v % 16)]) == Some(v)
  {
    var t := [HexDigit(v / 16), HexDigit(v % 16)];
    assert t[..1] == [HexDigit(v / 16)];
    assert t[..1][..0] == [];
    assert DigitsValue(t[..1], 16) == Some(v / 16);
    assert DigitsValue(t, 16) == Some(v / 16 * 16 + v % 16);
  }

  /** Decoding a percent-encoded text gives the text back. */
  lemma {:induction false} DecodeEncode(s: string)
    requires forall k :: 0 <= k < |s| ==> s[k] as int < 256
    ensures Decode(PercentEncode(s)) == s
    decreases |s|
  {
    if s != [] {
      var e := PercentEncode(s);
      HexPair(s[0] as int);
      assert e[1..3] == [HexDigit(s[0] as int / 16), HexDigit(s[0] as int % 16)];
      assert e[3..] == PercentEncode(s[1..]);
      DecodeEncode(s[1..]);
      assert ((s[0] as int) as char) == s[0];
    }
  }

  /** The decoder on the inputs that show its rules. */
  lemma DecodeSpace()
    ensures Decode("%20") == " "
  {
    HexPair(32);
    assert "%20"[1..3] == [HexDigit(32 / 16), HexDigit(32 % 16)];
    assert "%20"[3..] == [];
  }

  lemma DecodePlus()
    ensures Decode("a+b") == "a b"
  {
    assert "a+b"[1..] == "+b" && "+b"[1..] == "b";
  }

  lemma DecodeBadHexKept()
    ensures Decode("%zz") == "%zz"
  {
    DigitsValueNone("zz", 16, 1);
  }

  /** The two characters after a '%' are consumed even when they do not parse: in "%%41"
      the second '%' is not the start of an escape. */
  lemma DecodeNoRescan()
    ensures Decode("%%41") == "%%41"
  {
    var s := "%%41";
    DigitsValueNone("%4", 16, 0);
    assert s[1..3] == "%4" && s[3..] == "1" && s[..3] == "%%4";
  }

  lemma DecodeTrailingPercent()
    ensures Decode("%") == "%" && Decode("a%4") == "a%4"
  {
    assert "a%4"[1..] == "%4";
  }

  /** `u8::from_str_radix` takes a leading '+', so "%+5" is the character U+0005. */
  lemma DecodeSignedEscape()
    ensures Decode("%+5") == "\U{5}"
  {
    assert "%+5"[1..3] == "+5";
    assert "+5"[1..] == "5";
    assert "5"[..0] == [];
    assert DigitsValue("5", 16) == Some(5);
    assert "%+5"[3..] == [];
  }

  /** Each escape gives one character: the two UTF-8 bytes of 'é' stay two characters. */
  lemma DecodeBytesNotUtf8()
    ensures Decode("%C3%A9") == "\U{C3}\U{A9}"
  {
    HexPair(0xC3);
    HexPair(0xA9);
    assert "%C3%A9"[1..3] == [HexDigit(0xC3 / 16), HexDigit(0xC3 % 16)];
    assert "%C3%A9"[3..] == "%A9";
    assert "%A9"[1..3] == [HexDigit(0xA9 / 16), HexDigit(0xA9 % 16)];
  }

  // ---------------------------------------------------------------------------
  // Query, header and cookie splitting
  // ---------------------------------------------------------------------------

  /** The pairs of the parts that hold a '=', split at the first one; parts without one
      are dropped. */
  function Pairs(parts: seq<string>): (r: seq<(string, string)>)
    ensures |r| <= |parts|
    ensures forall k :: 0 <= k < |r| ==> '=' !in r[k].0
  {
    if parts == [] then []
    else
      match SplitOnce(parts[0], "=")
      case None => Pairs(parts[1..])
      case Some((k, v)) =>
        EqualsNotInKey(parts[0], k, v);
        [(k, v)] + Pairs(parts[1..])
  }

  lemma EqualsNotInKey(s: string, k: string, v: string)
    requires SplitOnce(s, "=") == Some((k, v))
    ensures '=' !in k
  {
    CharAbsent(k, '=');
  }

  /** The query part split on '&', each piece split at its first '='. */
  function QueryPairs(query: string): seq<(string, string)> {
    Pairs(Split(query, "&"))
  }

  /** The cookie header value split on "; ", each piece split at its first '='. */
  function CookiePairs(value: string): seq<(string, string)> {
    Pairs(Split(value, "; "))
  }

  /** A character that does not occur as a one-character pattern is not in the text. */
  lemma CharAbsent(s: string, c: char)
    requires !Contains(s, [c])
    ensures c !in s
  {
    if c in s {
      var j :| 0 <= j < |s| && s[j] == c;
      assert s[j..j + 1] == [c];
      ContainsAt(s, [c], j);
    }
  }

  /** The path is cut at the first '?' of the decoded text; the rest is the query. */
  function SplitPathQuery(decoded: string): (r: (string, seq<(string, string)>))
    ensures '?' !in r.0
    ensures '?' !in decoded ==> r == (decoded, [])
  {
    match SplitOnce(decoded, "?")
    case None =>
      CharAbsent(decoded, '?');
      (decoded, [])
    case Some((p, q)) =>
      CharAbsent(p, '?');
      assert '?' in decoded by { assert decoded[|p|] == '?'; }
      (p, QueryPairs(q))
  }

  /** A header line, without its line end, split at the first ": ". */
  function HeaderOf(line: string): Option<(string, string)> {
    SplitOnce(TrimEnd(line), ": ")
  }

  /** A line that is empty once its line end and trailing white space are trimmed. */
  predicate Blank(line: string) {
    TrimEnd(line) == []
  }

  /** The index of the first line that is blank once its end is trimmed, or the number of
      lines: the header block is the lines before it. */
  function BlockEnd(lines: seq<string>): (n: nat)
    ensures n <= |lines|
    ensures forall j :: 0 <= j < n ==> !Blank(lines[j])
    ensures n < |lines| ==> Blank(lines[n])
    decreases |lines|
  {
    if lines == [] || Blank(lines[0]) then 0 else 1 + BlockEnd(lines[1..])
  }

  /** The headers of the lines, in line order; lines without ": " are skipped. */
  function HeadersOf(lines: seq<string>): (r: seq<(string, string)>)
    ensures |r| <= |lines|
    decreases |lines|
  {
    if lines == [] then []
    else
      HeadersOf(lines[..|lines| - 1])
      + match HeaderOf(lines[|lines| - 1]) case Some(h) => [h] case None => []
  }

  /** The value of the last header whose name, lower-cased, is `name`. */
  function LastValue(headers: seq<(string, string)>, name: string): Option<string>
    decreases |headers|
  {
    if headers == [] then None
    else if ToLower(headers[|headers| - 1].0) == name then Some(headers[|headers| - 1].1)
    else LastValue(headers[..|headers| - 1], name)
  }

  /** The value of the first header whose name, lower-cased, is `name`. */
  function FirstValue(headers: seq<(string, string)>, name: string): Option<string>
    decreases |headers|
  {
    if headers == [] then None
    else if ToLower(headers[0].0) == name then Some(headers[0].1)
    else FirstValue(headers[1..], name)
  }

  /** `LastValue` finds a value exactly when some header matches. */
  lemma {:induction false} LastValueFound(headers: seq<(string, string)>, name: string)
    ensures LastValue(headers, name).Some? <==> exists k :: 0 <= k < |headers| && ToLower(headers[k].0) == name
    decreases |headers|
  {
    if headers != [] {
      var n := |headers| - 1;
      var init := headers[..n];
      if ToLower(headers[n].0) != name {
        LastValueFound(init, name);
        if exists k :: 0 <= k < |headers| && ToLower(headers[k].0) == name {
          var k :| 0 <= k < |headers| && ToLower(headers[k].0) == name;
          assert init[k] == headers[k];
        }
      }
    }
  }

  /** `LastValue` is the value of a matching header after which no header matches. */
  lemma {:induction false} LastValueIsLast(headers: seq<(string, string)>, name: string)
    ensures LastValue(headers, name).Some? ==>
              exists k :: 0 <= k < |headers| && ToLower(headers[k].0) == name
                && headers[k].1 == LastValue(headers, name).value
                && forall j :: k < j < |headers| ==> ToLower(headers[j].0) != name
    decreases |headers|
  {
    if headers != [] {
      var n := |headers| - 1;
      var init := headers[..n];
      if ToLower(headers[n].0) == name {
        assert LastValue(headers, name) == Some(headers[n].1);
      } else {
        assert LastValue(headers, name) == LastValue(init, name);
        LastValueIsLast(init, name);
        if LastValue(init, name).Some? {
          var k :| 0 <= k < |init| && ToLower(init[k].0) == name
                && init[k].1 == LastValue(init, name).value
                && forall j :: k < j < |init| ==> ToLower(init[j].0) != name;
          assert headers[k] == init[k];
          assert forall j :: k < j < |headers| ==> ToLower(headers[j].0) != name by {
            forall j | k < j < |headers|
              ensures ToLower(headers[j].0) != name
            {
              if j < n {
                assert headers[j] == init[j];
              }
            }
          }
        }
      }
    }
  }

  /** `FirstValue` is the value of a matching header before which no header matches. */
  lemma {:induction false} FirstValueIsFirst(headers: seq<(string, string)>, name: string)
    ensures FirstValue(headers, name).Some? <==> exists k :: 0 <= k < |headers| && ToLower(headers[k].0) == name
    ensures FirstValue(headers, name).Some? ==>
              exists k :: 0 <= k < |headers| && ToLower(headers[k].0) == name
                && headers[k].1 == FirstValue(headers, name).value
                && forall j :: 0 <= j < k ==> ToLower(headers[j].0) != name
    decreases |headers|
  {
    if headers != [] && ToLower(headers[0].0) != name {
      var rest := headers[1..];
      FirstValueIsFirst(rest, name);
      if exists k :: 0 <= k < |headers| && ToLower(headers[k].0) == name {
        var k :| 0 <= k < |headers| && ToLower(headers[k].0) == name;
        assert rest[k - 1] == headers[k];
      }
      if FirstValue(rest, name).Some? {
        var k :| 0 <= k < |rest| && ToLower(rest[k].0) == name
              && rest[k].1 == FirstValue(rest, name).value
              && forall j :: 0 <= j < k ==> ToLower(rest[j].0) != name;
        assert headers[k + 1] == rest[k];
        forall j | 0 <= j < k + 1 ensures ToLower(headers[j].0) != name {
          if j > 0 { assert headers[j] == rest[j - 1]; }
        }
      }
    }
  }

  /** A header written as "name: value" reads back as that pair, as long as the name holds
      no ": " and the value is neither empty nor ends in white space. */
  lemma HeaderRoundTrip(name: string, value: string)
    requires !Contains(name, ": ")
    requires value != [] && !IsWhitespace(value[|value| - 1])
    ensures HeaderOf(name + ": " + value) == Some((name, value))
  {
    var line := name + ": " + value;
    assert TrimEnd(line) == line;
    assert line[|name|..|name| + 2] == ": ";
    ContainsAt(line, ": ", |name|);
    assert line[|name|] == ':';
    forall j | 0 <= j < |name| && OccursAt(line, ": ", j) ensures j + 2 <= |name| && OccursAt(name, ": ", j) {
      assert line[j + 1] == ' ' by { assert line[j..j + 2][1] == line[j + 1]; }
      assert name[j..j + 2] == line[j..j + 2];
    }
    forall j | 0 <= j < |name| && j + 2 <= |name| && OccursAt(name, ": ", j) ensures false {
      ContainsAt(name, ": ", j);
    }
    var i := FindSub(line, ": ").value;
    assert OccursAt(line, ": ", i);
    assert i <= |name|;
    assert i == |name|;
    assert line[..i] == name && line[i + 2..] == value;
  }

  // ---------------------------------------------------------------------------
  // from_stream
  // ---------------------------------------------------------------------------

  /** The domain: the value of the last Host header, or empty. */
  function DomainOf(headers: seq<(string, string)>): string {
    LastValue(headers, "host").GetOr("")
  }

  /** The cookies: the pairs of the last Cookie header, or none. */
  function CookiesOf(headers: seq<(string, string)>): seq<(string, string)> {
    match LastValue(headers, "cookie")
    case Some(v) => CookiePairs(v)
    case None => []
  }

  /** The body read: for a served method with a content-length that parses, exactly that
      many bytes, or no request at all when fewer are available. */
  function BodyOf(verb: HttpMethod, headers: seq<(string, string)>, available: seq<byte>): Option<seq<byte>> {
    if verb in SupportedHttpMethods() then
      match FirstValue(headers, "content-length")
      case None => Some([])
      case Some(v) =>
        match ParseUsize(Trim(v))
        case None => Some([])
        case Some(n) => if n <= |available| then Some(available[..n]) else None
    else Some([])
  }

  /** Request::from_stream over the given input. */
  function ParseRequest(input: Input): ParseOutcome {
    if input.lines == [] then NoRequest
    else
      var parts := SplitWhitespace(TrimEnd(input.lines[0]));
      if |parts| < 3 then NoRequest
      else
        match MethodFromStr(parts[0])
        case None => Panic
        case Some(verb) =>
          match VersionFromStr(Replace(parts[2], "HTTP/", ""))
          case None => Panic
          case Some(version) =>
            var (path, queries) := SplitPathQuery(Decode(parts[1]));
            var lines := input.lines[1..];
            var end := BlockEnd(lines);
            var headers := HeadersOf(lines[..end]);
            var available := if end < |lines| then input.rest else [];
            match BodyOf(verb, headers, available)
            case None => NoRequest
            case Some(body) =>
              Parsed(Request(version, DomainOf(headers), path, verb, queries, headers, CookiesOf(headers), body))
  }

  lemma HeadersStep(lines: seq<string>, i: nat)
    requires i < |lines|
    ensures HeadersOf(lines[..i + 1])
            == HeadersOf(lines[..i]) + match HeaderOf(lines[i]) case Some(h) => [h] case None => []
  {
    assert lines[..i + 1][..i] == lines[..i];
  }

  lemma LastValueAppend(headers: seq<(string, string)>, h: (string, string), name: string)
    ensures LastValue(headers + [h], name)
            == if ToLower(h.0) == name then Some(h.1) else LastValue(headers, name)
  {
    assert (headers + [h])[..|headers|] == headers;
  }

  /** One turn of the header loop for a line that is not blank. */
  method AddHeaderLine(raw: string, headers: seq<(string, string)>, domain: string, cookies: seq<(string, string)>)
    returns (headers': seq<(string, string)>, domain': string, cookies': seq<(string, string)>)
    requires domain == DomainOf(headers) && cookies == CookiesOf(headers)
    ensures headers' == headers + match HeaderOf(raw) case Some(h) => [h] case None => []
    ensures domain' == DomainOf(headers') && cookies' == CookiesOf(headers')
  {
    headers', domain', cookies' := headers, domain, cookies;
    match SplitOnce(TrimEnd(raw), ": ") {
      case Some((key, value)) =>
        LastValueAppend(headers, (key, value), "host");
        LastValueAppend(headers, (key, value), "cookie");
        headers' := headers + [(key, value)];
        if ToLower(key) == "host" {
          domain' := value;
        } else if ToLower(key) == "cookie" {
          cookies' := CookiePairs(value);
        }
      case None =>
    }
  }

  /** The header loop of from_stream: reads lines up to the first blank one, keeping every
      "name: value" line, the last Host value and the cookies of the last Cookie line. */
  method ReadHeaders(lines: seq<string>)
    returns (headers: seq<(string, string)>, domain: string, cookies: seq<(string, string)>, blankSeen: bool)
    ensures headers == HeadersOf(lines[..BlockEnd(lines)])
    ensures domain == DomainOf(headers) && cookies == CookiesOf(headers)
    ensures blankSeen <==> BlockEnd(lines) < |lines|
  {
    domain, headers, cookies := "", [], [];
    var i := 0;
    blankSeen := false;
    while i < |lines| && !blankSeen
      invariant 0 <= i <= |lines|
      invariant i <= BlockEnd(lines)
      invariant blankSeen ==> i == BlockEnd(lines) < |lines|
      invariant headers == HeadersOf(lines[..i])
      invariant domain == DomainOf(headers)
      invariant cookies == CookiesOf(headers)
      decreases |lines| - i, if blankSeen then 0 else 1
    {
      if Blank(lines[i]) {
        blankSeen := true;
      } else {
        HeadersStep(lines, i);
        headers, domain, cookies := AddHeaderLine(lines[i], headers, domain, cookies);
        i := i + 1;
      }
    }
  }

  /** The body step of from_stream. */
  method ReadBody(verb: HttpMethod, headers: seq<(string, string)>, available: seq<byte>)
    returns (body: Option<seq<byte>>)
    ensures body == BodyOf(verb, headers, available)
  {
    body := Some([]);
    if verb in SupportedHttpMethods() {
      var contentLength := FirstValue(headers, "content-length");
      if contentLength.Some? {
        var n := ParseUsize(Trim(contentLength.value));
        if n.Some? {
          if n.value > |available| {
            body := None;
          } else {
            body := Some(available[..n.value]);
          }
        }
      }
    }
  }

  /** Request::from_stream: the request line, then the header loop, then the body. */
  method FromStream(input: Input) returns (outcome: ParseOutcome)
    ensures outcome == ParseRequest(input)
  {
    if input.lines == [] {
      return NoRequest;
    }
    var parts := SplitWhitespace(TrimEnd(input.lines[0]));
    if |parts| < 3 {
      return NoRequest;
    }
    var m := MethodFromStr(parts[0]);
    if m.None? {
      return Panic;
    }
    var verb := m.value;
    var decoded := DecodeUrl(parts[1]);
    var v := VersionFromStr(Replace(parts[2], "HTTP/", ""));
    if v.None? {
      return Panic;
    }
    var version := v.value;
    var path, queries := decoded, [];
    match SplitOnce(decoded, "?") {
      case Some((p, q)) =>
        path, queries := p, QueryPairs(q);
      case None =>
    }
    assert (path, queries) == SplitPathQuery(decoded);

    var headers, domain, cookies, blankSeen := ReadHeaders(input.lines[1..]);
    var body := ReadBody(verb, headers, if blankSeen then input.rest else []);
    if body.None? {
      return NoRequest;
    }
    outcome := Parsed(Request(version, domain, path, verb, queries, headers, cookies, body.value));
  }

  // ---------------------------------------------------------------------------
  // Properties of from_stream
  // ---------------------------------------------------------------------------

  /** An empty connection, or a request line with fewer than three tokens, gives None. */
  lemma ShortRequestLineIsNone(input: Input)
    requires input.lines == [] || |SplitWhitespace(TrimEnd(input.lines[0]))| < 3
    ensures ParseRequest(input) == NoRequest
  {
  }

  /** The headers of a request: the lines after the request line, up to the blank one. */
  function HeaderBlock(input: Input): seq<(string, string)>
    requires input.lines != []
  {
    var lines := input.lines[1..];
    HeadersOf(lines[..BlockEnd(lines)])
  }

  /** What the body is read from: the bytes after the header block, once a blank line
      has closed it. */
  function BodySource(input: Input): seq<byte>
    requires input.lines != []
  {
    var lines := input.lines[1..];
    if BlockEnd(lines) < |lines| then input.rest else []
  }

  /** A well-formed request line is read back: the method and the version as written, and
      the decoded target split into path and query pairs. The request is then parsed
      exactly when its body can be read, and it never panics. */
  lemma RequestLineRecovered(input: Input, m: HttpMethod, target: string, v: HttpVersion)
    requires input.lines != [] && input.lines[0] == MethodAsStr(m) + " " + target + " " + VersionAsStr(v)
    requires IsWord(target)
    ensures ParseRequest(input) != Panic
    ensures ParseRequest(input).Parsed? <==> BodyOf(m, HeaderBlock(input), BodySource(input)).Some?
    ensures ParseRequest(input).Parsed? ==>
              var r := ParseRequest(input).request;
              && r.verb == m && r.version == v
              && r.path == SplitPathQuery(Decode(target)).0
              && r.queries == SplitPathQuery(Decode(target)).1
              && r.headers == HeaderBlock(input)
              && r.body == BodyOf(m, HeaderBlock(input), BodySource(input)).value
  {
    RequestLineTokens(m, target, v);
  }

  /** The three fields of a well-formed request line, as the reader splits and parses them. */
  lemma RequestLineTokens(m: HttpMethod, target: string, v: HttpVersion)
    requires IsWord(target)
    ensures var line := MethodAsStr(m) + " " + target + " " + VersionAsStr(v);
            && SplitWhitespace(TrimEnd(line)) == [MethodAsStr(m), target, VersionAsStr(v)]
            && MethodFromStr(MethodAsStr(m)) == Some(m)
            && VersionFromStr(Replace(VersionAsStr(v), "HTTP/", "")) == Some(v)
  {
    var ms, vs := MethodAsStr(m), VersionAsStr(v);
    assert IsWord(vs) && !IsWhitespace(vs[7]) by {
      match v
      case Http10 =>
      case Http11 =>
      case Http20 =>
      case Http30 =>
    }
    var line := ms + " " + target + " " + vs;
    assert line[|line| - 1] == vs[7];
    TrimEndKeeps(line);
    SplitThreeWords(ms, target, vs);
    MethodRoundTrip(m);
    VersionRoundTrip(v);
    assert vs == "HTTP/" + vs[5..];
    ReplaceLeadingPattern("HTTP/", vs[5..]);
  }

  /** An unknown method or an unknown version makes the reader panic. */
  lemma UnknownMethodOrVersionPanics(input: Input)
    requires input.lines != []
    requires var parts := SplitWhitespace(TrimEnd(input.lines[0]));
             |parts| >= 3
             && (MethodFromStr(parts[0]).None? || VersionFromStr(Replace(parts[2], "HTTP/", "")).None?)
    ensures ParseRequest(input) == Panic
  {
  }

  /** Header `k` is named `name` (ignoring case) and no later header is. */
  predicate IsLastNamed(headers: seq<(string, string)>, k: int, name: string) {
    && 0 <= k < |headers| && ToLower(headers[k].0) == name
    && forall j :: k < j < |headers| ==> ToLower(headers[j].0) != name
  }

  /** The last header of a name holds the value `LastValue` finds. */
  lemma LastNamedValue(headers: seq<(string, string)>, k: int, name: string)
    requires IsLastNamed(headers, k, name)
    ensures LastValue(headers, name) == Some(headers[k].1)
  {
    LastValueFound(headers, name);
    LastValueIsLast(headers, name);
    var k' :| 0 <= k' < |headers| && ToLower(headers[k'].0) == name
              && headers[k'].1 == LastValue(headers, name).value
              && forall j :: k' < j < |headers| ==> ToLower(headers[j].0) != name;
    assert !(k < k') && !(k' < k);
  }

  /** A parsed request's domain is the value of its last Host header, its cookies are the
      pairs of its last Cookie header, and its path holds no '?'. */
  lemma ParsedFieldsFromHeaders(input: Input)
    requires ParseRequest(input).Parsed?
    ensures var r := ParseRequest(input).request;
            '?' !in r.path
            && (r.domain != "" ==> exists k :: IsLastNamed(r.headers, k, "host") && r.headers[k].1 == r.domain)
            && (forall k :: IsLastNamed(r.headers, k, "host") ==> r.domain == r.headers[k].1)
            && ((forall k :: 0 <= k < |r.headers| ==> ToLower(r.headers[k].0) != "host") ==> r.domain == "")
            && (forall k :: IsLastNamed(r.headers, k, "cookie") ==> r.cookies == CookiePairs(r.headers[k].1))
            && ((forall k :: 0 <= k < |r.headers| ==> ToLower(r.headers[k].0) != "cookie") ==> r.cookies == [])
  {
    var r := ParseRequest(input).request;
    LastValueFound(r.headers, "host");
    LastValueIsLast(r.headers, "host");
    LastValueFound(r.headers, "cookie");
    forall k | IsLastNamed(r.headers, k, "host") ensures r.domain == r.headers[k].1 {
      LastNamedValue(r.headers, k, "host");
    }
    forall k | IsLastNamed(r.headers, k, "cookie") ensures r.cookies == CookiePairs(r.headers[k].1) {
      LastNamedValue(r.headers, k, "cookie");
    }
  }

  /** Only served methods carry a body, and a served method's body has exactly the length
      its first Content-Length header states, when that parses. */
  lemma BodyGatedOnMethodAndLength(verb: HttpMethod, headers: seq<(string, string)>, available: seq<byte>)
    ensures verb !in SupportedHttpMethods() ==> BodyOf(verb, headers, available) == Some([])
    ensures FirstValue(headers, "content-length").None? ==> BodyOf(verb, headers, available) == Some([])
    ensures verb in SupportedHttpMethods() && FirstValue(headers, "content-length").Some?
            && ParseUsize(Trim(FirstValue(headers, "content-length").value)).Some? ==>
              var n := ParseUsize(Trim(FirstValue(headers, "content-length").value)).value;
              (n <= |available| ==> BodyOf(verb, headers, available) == Some(available[..n]))
              && (n > |available| ==> BodyOf(verb, headers, available).None?)
  {
  }

  // ---------------------------------------------------------------------------
  // http_description
  // ---------------------------------------------------------------------------

  /** The query pairs, trimmed, as "k=v" joined by '&'. */
  function QueryString(queries: seq<(string, string)>): string {
    Join(seq(|queries|, k requires 0 <= k < |queries| => Trim(queries[k].0) + "=" + Trim(queries[k].1)), "&")
  }

  /** One header of the echo: name and value trimmed, separated by ": ", ended by CRLF. */
  function HeaderLine(h: (string, string)): string {
    Trim(h.0) + ": " + Trim(h.1) + "\r\n"
  }

  function HeaderLines(headers: seq<(string, string)>): string
    decreases |headers|
  {
    if headers == [] then "" else HeaderLines(headers[..|headers| - 1]) + HeaderLine(headers[|headers| - 1])
  }

  lemma HeaderLinesStep(headers: seq<(string, string)>, i: nat)
    requires i < |headers|
    ensures HeaderLines(headers[..i + 1]) == HeaderLines(headers[..i]) + HeaderLine(headers[i])
  {
    assert headers[..i + 1][..i] == headers[..i];
  }

  function RequestLine(r: Request): string {
    MethodAsStr(r.verb) + " " + r.path + " " + VersionAsStr(r.version)
  }

  /** The echo of the request: the request line, the path with its query when there is
      one, then every header as "name: value", each line ended by CRLF. */
  function Description(r: Request): string {
    RequestLine(r) + "\r\n"
    + (if r.queries == [] then "" else r.path + "?" + QueryString(r.queries) + "\r\n")
    + HeaderLines(r.headers)
  }

  /** The header loop of http_description. */
  method EchoHeaders(headers: seq<(string, string)>) returns (text: string)
    ensures text == HeaderLines(headers)
  {
    text := "";
    var i := 0;
    while i < |headers|
      invariant 0 <= i <= |headers|
      invariant text == HeaderLines(headers[..i])
    {
      HeaderLinesStep(headers, i);
      text := text + HeaderLine(headers[i]);
      i := i + 1;
    }
    assert headers[..|headers|] == headers;
  }

  /** Request::http_description. */
  method HttpDescription(r: Request) returns (result: string)
    ensures result == Description(r)
  {
    result := RequestLine(r) + "\r\n";
    var queryLine := "";
    if r.queries != [] {
      queryLine := r.path + "?" + QueryString(r.queries) + "\r\n";
    }
    result := result + queryLine;
    var headerText := EchoHeaders(r.headers);
    result := result + headerText;
  }

  /** The first of the lines of `a + CRLF + b` is `a` when `a` holds no line break. */
  lemma FirstLineOf(a: string, b: string)
    requires '\n' !in a
    ensures Lines(a + "\r\n" + b) != [] && Lines(a + "\r\n" + b)[0] == a
  {
    var d := a + "\r\n" + b;
    assert d[|a|] == '\r';
    assert d[|a| + 1..|a| + 2] == "\n";
    ContainsAt(d, "\n", |a| + 1);
    forall j | OccursAt(d, "\n", j) ensures d[j] == '\n' {
      assert d[j..j + 1][0] == d[j];
    }
    assert forall j :: 0 <= j < |a| ==> d[j] == a[j];
    assert forall j :: 0 <= j < |a| + 1 ==> !OccursAt(d, "\n", j);
    var i := FindSub(d, "\n").value;
    assert OccursAt(d, "\n", i) && OccursAt(d, "\n", |a| + 1);
    assert i <= |a| + 1;
    assert i == |a| + 1;
    assert d[..i] == a + "\r";
    assert (a + "\r")[..|a|] == a;
  }

  /** The first line of the echo is the request line whenever the path holds no line
      break (the decoder can produce one from "%0A"). */
  lemma DescriptionFirstLine(r: Request)
    requires '\n' !in r.path
    ensures Lines(Description(r)) != [] && Lines(Description(r))[0] == RequestLine(r)
  {
    NoNewlineInRequestLine(r);
    var rest := (if r.queries == [] then "" else r.path + "?" + QueryString(r.queries) + "\r\n")
                + HeaderLines(r.headers);
    assert Description(r) == RequestLine(r) + "\r\n" + rest;
    FirstLineOf(RequestLine(r), rest);
  }

  /** A request without queries and headers echoes as its request line alone. */
  lemma DescriptionOfBareRequest(r: Request)
    requires r.queries == [] && r.headers == []
    ensures Description(r) == RequestLine(r) + "\r\n"
  {
  }

  lemma NoNewlineInRequestLine(r: Request)
    requires '\n' !in r.path
    ensures '\n' !in RequestLine(r)
  {
    var m := MethodAsStr(r.verb);
    var v := VersionAsStr(r.version);
    assert '\n' !in m by { match r.verb { case _ => } }
    assert '\n' !in v by { match r.version { case _ => } }
    assert RequestLine(r) == m + " " + r.path + " " + v;
  }
}
