/**
 * What the two generations of the response engine (src/core/server/response.rs
 * and src/response.rs) share: the dotfile policy, the error and listing pages,
 * the serialisation of a response, the single-range logic, the connection the
 * bytes are written to, and the enumeration of a HashMap in its (unspecified)
 * iteration order.
 */
module Serving {
  import opened Wrappers
  import opened Text
  import opened Http
  import opened Paths
  import opened Templating
  import Requests
  import Utils

  const CHUNK_SIZE: nat := 1024
  const MAX_SIZE_ALL_AT_ONCE: nat := 1048576

  // ---------------------------------------------------------------------------
  // The dotfile policy (section 3 of RFC 8615 reserves "/.well-known/")
  // ---------------------------------------------------------------------------

  /** The served path relative to the document root; "/" when it is not below the
      root (the fallback of strip_prefix's error arm). */
  function RelativeTo(path: string, root: string): (r: string)
    ensures StripPrefix(path, root).Some? ==> r == StripPrefix(path, root).value
    ensures StripPrefix(path, root).None? ==> r == "/"
  {
    match StripPrefix(path, root)
    case Some(rel) => rel
    case None => "/"
  }

  /** A relative path that starts with "." or "/." and nowhere mentions ".well-known". */
  predicate HiddenPath(rel: string) {
    (StartsWith(rel, "/.") || StartsWith(rel, ".")) && !Contains(rel, ".well-known")
  }

  /** A file name that starts with '.' and is not exactly ".well-known". */
  predicate HiddenName(name: string) {
    StartsWith(name, ".") && name != ".well-known"
  }

  /** serve_file answers 403 for a hidden relative path or a hidden file name. */
  predicate FileForbidden(rel: string, name: string) {
    HiddenPath(rel) || HiddenName(name)
  }

  /** A file below ".well-known/" is served unless its own name is hidden. */
  lemma WellKnownServed(name: string)
    ensures FileForbidden(".well-known/" + name, name) <==> HiddenName(name)
  {
    var rel := ".well-known/" + name;
    assert rel[0..|".well-known"|] == ".well-known";
    ContainsAt(rel, ".well-known", 0);
  }

  /** A file in a hidden directory is refused whatever its name, unless the path
      mentions ".well-known". */
  lemma HiddenDirectoryRefused(dir: string, name: string)
    requires StartsWith(dir, ".") && !Contains(dir + "/" + name, ".well-known")
    ensures FileForbidden(dir + "/" + name, name)
  {
    assert (dir + "/" + name)[..1] == dir[..1];
  }

  /** A visible name (is_valid_entry) under a visible relative path is never refused. */
  lemma VisibleFileServed(rel: string, name: string)
    requires rel != [] && rel[0] != '.' && rel[0] != '/'
    requires Utils.IsValidEntry(name)
    ensures !FileForbidden(rel, name)
  {
    assert rel[..1] != ".";
    assert |rel| >= 2 ==> rel[..2][0] == rel[0];
  }

  /** serve cuts the leading character with `path[1..]`, which needs a first character that is one byte long. */
  predicate ServablePath(p: string) {
    p != [] && p[0] as int < 128
  }

  /** The index page looked for in a directory. */
  function IndexOf(dir: string): string {
    JoinPath(dir, "index.html")
  }

  /** The relative path serve_directory checks: a '/' in front of the stripped path. */
  function ListingPath(dir: string, root: string): string {
    "/" + RelativeTo(dir, root)
  }

  /** serve_directory answers 403 when the listing path starts with "/." or "." (no
      ".well-known" exception). */
  predicate DirectoryForbidden(listingPath: string) {
    StartsWith(listingPath, "/.") || StartsWith(listingPath, ".")
  }

  /** Because of the leading '/', a listing is refused exactly when the stripped path
      starts with '.', and the "." test of the source never decides anything. */
  lemma DirectoryForbiddenIff(rel: string)
    ensures DirectoryForbidden("/" + rel) <==> StartsWith(rel, ".")
    ensures !StartsWith("/" + rel, ".")
  {
    var l := "/" + rel;
    assert l[0] == '/';
    if |rel| >= 1 {
      assert StartsWith(l, "/.") <==> l[1] == '.' by { assert l[..2] == [l[0], l[1]]; }
      assert StartsWith(rel, ".") <==> rel[0] == '.' by { assert rel[..1] == [rel[0]]; }
    }
  }

  // ---------------------------------------------------------------------------
  // Error and listing pages
  // ---------------------------------------------------------------------------

  const ERROR_MESSAGE := "Something went wrong !"

  /** The parameters of the error page, in the order they are inserted. */
  function ErrorParams(status: HttpStatus): (r: seq<(string, string)>)
    ensures forall i, j :: 0 <= i < j < |r| ==> r[i].0 != r[j].0
    ensures forall i :: 0 <= i < |r| ==> r[i].1 != ""
  {
    [("status_code", NatToString(ToCode(status))), ("status_text", ToMessage(status)),
     ("error_message", ERROR_MESSAGE)]
  }

  /** The bytes of the rendered error page for `status`; an error template holding none
      of the three placeholders is sent as it is. */
  function ErrorPage(pages: Templates, status: HttpStatus): (r: seq<byte>)
    ensures (!Contains(pages.error, Placeholder("status_code"))
             && !Contains(pages.error, Placeholder("status_text"))
             && !Contains(pages.error, Placeholder("error_message"))) ==> r == Utf8(pages.error)
  {
    var params := ErrorParams(status);
    if !Contains(pages.error, Placeholder("status_code"))
       && !Contains(pages.error, Placeholder("status_text"))
       && !Contains(pages.error, Placeholder("error_message")) then
      assert forall i :: 0 <= i < |params| ==> params[i].0 in ["status_code", "status_text", "error_message"];
      SubstituteKeepsUnmatched(pages.error, params);
      Utf8(Substitute(FromEnum(pages, Error).value, params))
    else
      Utf8(Substitute(FromEnum(pages, Error).value, params))
  }

  /** One entry of the directory walk: whether it is a directory, its name, and its
      path with '/' separators (and a trailing '/' for a directory). */
  datatype Entry = Entry(isDir: bool, name: string, path: string)

  const UP_ITEM := "<li><a href='../'>..</a></li>"
  const EMPTY_ITEM := "<li><b>Empty Folder</b></li>"

  function ListItem(href: string, name: string): string {
    "<li><a href='" + href + "'>" + name + "</a></li>"
  }

  /** The root as the listing compares entry paths with it: '\\' turned into '/', trimmed. */
  function RootNormalized(root: string): string {
    Trim(BackslashToSlash(root))
  }

  /** str::strip_prefix on the entry path; the source unwraps it (None is a panic). */
  function Href(entryPath: string, rootNorm: string): (r: Option<string>)
    ensures r.Some? <==> StartsWith(entryPath, rootNorm)
    ensures r.Some? ==> entryPath == rootNorm + r.value
  {
    if StartsWith(entryPath, rootNorm) then
      assert entryPath == entryPath[..|rootNorm|] + entryPath[|rootNorm|..];
      Some(entryPath[|rootNorm|..])
    else None
  }

  /** The list items of (name, path) pairs in order; None when some path is not under
      the root. */
  function Items(pairs: seq<(string, string)>, rootNorm: string): Option<string>
    decreases |pairs|
  {
    if pairs == [] then Some("")
    else
      var last := pairs[|pairs| - 1];
      match Items(pairs[..|pairs| - 1], rootNorm)
      case None => None
      case Some(front) =>
        match Href(last.1, rootNorm)
        case None => None
        case Some(h) => Some(front + ListItem(h, last.0))
  }

  /** Every item can be written exactly when every path lies under the root. */
  lemma {:induction false} ItemsDefinedIff(pairs: seq<(string, string)>, rootNorm: string)
    ensures Items(pairs, rootNorm).Some? <==> forall i :: 0 <= i < |pairs| ==> StartsWith(pairs[i].1, rootNorm)
    decreases |pairs|
  {
    if pairs != [] {
      var n := |pairs| - 1;
      ItemsDefinedIff(pairs[..n], rootNorm);
      assert forall i :: 0 <= i < n ==> pairs[..n][i] == pairs[i];
    }
  }

  /** The listing: the parent link unless at the top, the empty-folder item when the walk
      found nothing, then the folder items, then the file items. */
  function ListingHtml(listingPath: string, noEntries: bool, folders: seq<(string, string)>,
                       files: seq<(string, string)>, rootNorm: string): Option<string>
  {
    match (Items(folders, rootNorm), Items(files, rootNorm))
    case (Some(a), Some(b)) =>
      Some((if listingPath != "/" then UP_ITEM else "") + (if noEntries then EMPTY_ITEM else "") + a + b)
    case _ => None
  }

  /** The loop that pushes one list item per pair (the `for` loops of serve_directory);
      `ok` is false where the source's `unwrap` panics. */
  method PushItems(html: string, pairs: seq<(string, string)>, rootNorm: string)
    returns (ok: bool, result: string)
    ensures ok <==> Items(pairs, rootNorm).Some?
    ensures ok ==> result == html + Items(pairs, rootNorm).value
  {
    result := html;
    var i := 0;
    while i < |pairs|
      invariant 0 <= i <= |pairs|
      invariant Items(pairs[..i], rootNorm).Some?
      invariant result == html + Items(pairs[..i], rootNorm).value
    {
      assert pairs[..i + 1][..i] == pairs[..i];
      var (name, path) := pairs[i];
      if !StartsWith(path, rootNorm) {
        assert Items(pairs[..i + 1], rootNorm).None?;
        ItemsPrefixNone(pairs, i + 1, rootNorm);
        return false, result;
      }
      result := result + ListItem(path[|rootNorm|..], name);
      i := i + 1;
    }
    assert pairs[..i] == pairs;
    ok := true;
  }

  /** The html of serve_directory: the fixed items, then the pushes of both loops. */
  method BuildListing(listingPath: string, noEntries: bool, folders: seq<(string, string)>,
                      files: seq<(string, string)>, rootNorm: string)
    returns (listing: Option<string>)
    ensures listing == ListingHtml(listingPath, noEntries, folders, files, rootNorm)
  {
    var html := "";
    if listingPath != "/" {
      html := html + UP_ITEM;
    }
    if noEntries {
      html := html + EMPTY_ITEM;
    }
    assert html == (if listingPath != "/" then UP_ITEM else "") + (if noEntries then EMPTY_ITEM else "");
    var pushed;
    pushed, html := PushItems(html, folders, rootNorm);
    if !pushed {
      return None;
    }
    pushed, html := PushItems(html, files, rootNorm);
    if !pushed {
      return None;
    }
    listing := Some(html);
  }

  /** Once a prefix of the pairs fails, so do the pairs. */
  lemma {:induction false} ItemsPrefixNone(pairs: seq<(string, string)>, k: nat, rootNorm: string)
    requires k <= |pairs| && Items(pairs[..k], rootNorm).None?
    ensures Items(pairs, rootNorm).None?
    decreases |pairs| - k
  {
    if k < |pairs| {
      assert pairs[..k + 1][..k] == pairs[..k];
      ItemsPrefixNone(pairs, k + 1, rootNorm);
    } else {
      assert pairs[..k] == pairs;
    }
  }

  /** The bytes of the rendered listing page. */
  function DirectoryPage(pages: Templates, listingPath: string, listing: string): (r: seq<byte>)
    ensures (!Contains(pages.directory, Placeholder("folder"))
             && !Contains(pages.directory, Placeholder("directory_content"))) ==> r == Utf8(pages.directory)
  {
    var params := [("folder", listingPath), ("directory_content", listing)];
    if !Contains(pages.directory, Placeholder("folder"))
       && !Contains(pages.directory, Placeholder("directory_content")) then
      SubstituteKeepsUnmatched(pages.directory, params);
      Utf8(Substitute(FromEnum(pages, Directory).value, params))
    else
      Utf8(Substitute(FromEnum(pages, Directory).value, params))
  }

  // ---------------------------------------------------------------------------
  // Serialisation (status line and fields, sections 3.1.2 and 3.2 of RFC 7230)
  // ---------------------------------------------------------------------------

  function StatusLine(v: HttpVersion, s: HttpStatus): string {
    VersionAsStr(v) + " " + NatToString(ToCode(s)) + " " + ToMessage(s) + "\r\n"
  }

  function CookieLine(c: (string, string)): string {
    "Set-Cookie: " + Trim(c.0) + "=" + Trim(c.1) + "\r\n"
  }

  function CookieLines(cookies: seq<(string, string)>): string
    decreases |cookies|
  {
    if cookies == [] then "" else CookieLines(cookies[..|cookies| - 1]) + CookieLine(cookies[|cookies| - 1])
  }

  lemma CookieLinesStep(cookies: seq<(string, string)>, i: nat)
    requires i < |cookies|
    ensures CookieLines(cookies[..i + 1]) == CookieLines(cookies[..i]) + CookieLine(cookies[i])
  {
    assert cookies[..i + 1][..i] == cookies[..i];
  }

  /** http_description: the status line, one "name: value" line per header and one
      Set-Cookie line per cookie, in the given orders. */
  function DescriptionText(v: HttpVersion, s: HttpStatus, headers: seq<(string, string)>,
                           cookies: seq<(string, string)>): string
  {
    StatusLine(v, s) + Requests.HeaderLines(headers) + CookieLines(cookies)
  }

  /** to_bytes: the description, a blank line, then the body. */
  function WireBytes(description: string, body: seq<byte>): seq<byte> {
    Utf8(description) + Utf8("\r\n") + body
  }

  /** The body follows the description and the blank line unchanged. */
  lemma WireBodyAfterBlankLine(description: string, body: seq<byte>)
    ensures var w := WireBytes(description, body);
            |w| == |Utf8(description)| + 2 + |body|
            && w[..|Utf8(description)|] == Utf8(description)
            && w[|Utf8(description)|..|Utf8(description)| + 2] == [13, 10]
            && w[|Utf8(description)| + 2..] == body
  {
    var crlf := Utf8("\r\n");
    assert crlf == [13 as byte, 10 as byte] by {
      assert "\r\n"[1..] == "\n";
      assert Utf8("\n") == EncodeChar('\n') + Utf8([]);
    }
  }

  /** The three digits after the version in the status line are the code, and they
      read back as the status. */
  lemma StatusLineCode(v: HttpVersion, s: HttpStatus)
    ensures |StatusLine(v, s)| >= |VersionAsStr(v)| + 4
    ensures var field := StatusLine(v, s)[|VersionAsStr(v)| + 1..|VersionAsStr(v)| + 4];
            field == NatToString(ToCode(s)) && ParseUsize(field) == Some(ToCode(s))
            && FromCode(ToCode(s)) == Some(s)
  {
    CodeAfterVersion(StatusLine(v, s), VersionAsStr(v), ToCode(s), ToMessage(s));
    CodeRoundTrip(s);
  }

  lemma CodeAfterVersion(line: string, version: string, code: nat, message: string)
    requires 100 <= code <= 599
    requires line == version + " " + NatToString(code) + " " + message + "\r\n"
    ensures |line| >= |version| + 4
    ensures var field := line[|version| + 1..|version| + 4];
            field == NatToString(code) && ParseUsize(field) == Some(code)
  {
    CodeText(code);
    FieldAfterVersion(version, NatToString(code), message);
  }

  lemma FieldAfterVersion(version: string, code: string, message: string)
    ensures var line := version + " " + code + " " + message + "\r\n";
            line[|version| + 1..|version| + 1 + |code|] == code
  {
  }

  lemma CodeText(code: nat)
    requires 100 <= code <= 599
    ensures |NatToString(code)| == 3 && ParseUsize(NatToString(code)) == Some(code)
  {
    ThreeDigits(code);
    ParseNatToString(code, USIZE_MAX);
  }

  /** Every status code is written with three digits. */
  lemma ThreeDigits(n: nat)
    requires 100 <= n < 1000
    ensures |NatToString(n)| == 3
  {
    assert |NatToString(n / 10)| == 2 by {
      assert |NatToString(n / 10 / 10)| == 1;
    }
  }

  /** Dropping the last element of a + b drops the last element of b. */
  lemma DropLastOfAppend<T>(a: seq<T>, b: seq<T>)
    requires b != []
    ensures (a + b)[..|a + b| - 1] == a + b[..|b| - 1]
    ensures (a + b)[|a + b| - 1] == b[|b| - 1]
    ensures (a + b)[..|a + b|] == a + b && b[..|b|] == b
  {
  }

  /** Appending one more piece to the second of two texts appends it to the whole. */
  lemma RegroupLast(whole: string, first: string, rest: string, last: string, second: string)
    requires whole == (first + rest) + last && second == rest + last
    ensures whole == first + second
  {
  }

  /** The header lines of two runs of headers are those of the runs in order. */
  lemma {:induction false} HeaderLinesAppend(a: seq<(string, string)>, b: seq<(string, string)>)
    ensures Requests.HeaderLines(a + b) == Requests.HeaderLines(a) + Requests.HeaderLines(b)
    decreases |b|
  {
    if b == [] {
      assert a + b == a;
    } else {
      var n := |b| - 1;
      var ab := a + b;
      DropLastOfAppend(a, b);
      HeaderLinesAppend(a, b[..n]);
      Requests.HeaderLinesStep(ab, |ab| - 1);
      Requests.HeaderLinesStep(b, n);
      RegroupLast(Requests.HeaderLines(ab), Requests.HeaderLines(a), Requests.HeaderLines(b[..n]),
                  Requests.HeaderLine(b[n]), Requests.HeaderLines(b));
    }
  }

  /** Whatever the iteration order, every header of the map has its line in the
      description. */
  lemma EnumeratedHeaderListed(m: map<string, string>, hs: seq<(string, string)>, key: string)
    requires Enumerates(m, hs) && key in m
    ensures Contains(Requests.HeaderLines(hs), Requests.HeaderLine((key, m[key])))
  {
    var i :| 0 <= i < |hs| && hs[i].0 == key;
    HeaderLinesAround(hs, i);
    InMiddle(Requests.HeaderLines(hs), Requests.HeaderLines(hs[..i]), Requests.HeaderLine(hs[i]),
             Requests.HeaderLines(hs[i + 1..]));
  }

  /** The header lines of a run are those before a header, its own line, and those after. */
  lemma HeaderLinesAround(hs: seq<(string, string)>, i: nat)
    requires i < |hs|
    ensures Requests.HeaderLines(hs)
            == Requests.HeaderLines(hs[..i]) + Requests.HeaderLine(hs[i]) + Requests.HeaderLines(hs[i + 1..])
  {
    SplitAt(hs, i + 1);
    HeaderLinesAppend(hs[..i + 1], hs[i + 1..]);
    Requests.HeaderLinesStep(hs, i);
  }

  lemma SplitAt<T>(s: seq<T>, k: nat)
    requires k <= |s|
    ensures s[..k] + s[k..] == s
  {
  }

  /** A text made of three pieces contains its middle piece. */
  lemma InMiddle(text: string, before: string, middle: string, after: string)
    requires text == before + middle + after
    ensures Contains(text, middle)
  {
    assert text[|before|..|before| + |middle|] == middle;
    ContainsAt(text, middle, |before|);
  }

  // ---------------------------------------------------------------------------
  // HashMap iteration
  // ---------------------------------------------------------------------------

  /** `pairs` lists every entry of `m` exactly once, in some order. */
  ghost predicate Enumerates(m: map<string, string>, pairs: seq<(string, string)>) {
    && (forall i :: 0 <= i < |pairs| ==> pairs[i].0 in m && pairs[i].1 == m[pairs[i].0])
    && (forall i, j :: 0 <= i < j < |pairs| ==> pairs[i].0 != pairs[j].0)
    && (forall k :: k in m ==> exists i :: 0 <= i < |pairs| && pairs[i].0 == k)
  }

  /** HashMap::iter: the entries in an order the model does not fix. */
  method EnumerateMap(m: map<string, string>) returns (pairs: seq<(string, string)>)
    ensures Enumerates(m, pairs)
  {
    pairs := [];
    var left := m.Keys;
    while left != {}
      invariant left <= m.Keys
      invariant forall i :: 0 <= i < |pairs| ==> pairs[i].0 in m && pairs[i].0 !in left && pairs[i].1 == m[pairs[i].0]
      invariant forall i, j :: 0 <= i < j < |pairs| ==> pairs[i].0 != pairs[j].0
      invariant forall k :: k in m && k !in left ==> exists i :: 0 <= i < |pairs| && pairs[i].0 == k
      decreases left
    {
      var k :| k in left;
      ghost var before := pairs;
      pairs := pairs + [(k, m[k])];
      forall key | key in m && key !in left - {k}
        ensures exists i :: 0 <= i < |pairs| && pairs[i].0 == key
      {
        if key == k {
          assert pairs[|pairs| - 1].0 == key;
        } else {
          var i :| 0 <= i < |before| && before[i].0 == key;
          assert pairs[i] == before[i];
        }
      }
      left := left - {k};
    }
  }

  /** An enumeration has one pair per key. */
  lemma EnumerationLength(m: map<string, string>, pairs: seq<(string, string)>)
    requires Enumerates(m, pairs)
    ensures |pairs| == |m|
  {
    var keys := set i | 0 <= i < |pairs| :: pairs[i].0;
    assert keys == m.Keys;
    DistinctKeysCount(pairs);
  }

  lemma {:induction false} DistinctKeysCount(pairs: seq<(string, string)>)
    requires forall i, j :: 0 <= i < j < |pairs| ==> pairs[i].0 != pairs[j].0
    ensures |set i | 0 <= i < |pairs| :: pairs[i].0| == |pairs|
    decreases |pairs|
  {
    if pairs != [] {
      var n := |pairs| - 1;
      var front := pairs[..n];
      DistinctKeysCount(front);
      var s := set i | 0 <= i < |pairs| :: pairs[i].0;
      var t := set i | 0 <= i < n :: front[i].0;
      assert s == t + {pairs[n].0} by {
        forall x | x in s ensures x in t + {pairs[n].0} {
          var i :| 0 <= i < |pairs| && pairs[i].0 == x;
          if i < n { assert front[i] == pairs[i]; }
        }
        forall x | x in t ensures x in s {
          var i :| 0 <= i < n && front[i].0 == x;
          assert pairs[i] == front[i];
        }
      }
      assert pairs[n].0 !in t by {
        forall i | 0 <= i < n ensures front[i].0 != pairs[n].0 {
          assert front[i] == pairs[i];
        }
      }
    }
  }

  /** The description of a response whose header and cookie maps are iterated in some
      order. */
  ghost predicate IsDescriptionOf(d: string, v: HttpVersion, s: HttpStatus,
                                  headers: map<string, string>, cookies: map<string, string>)
  {
    exists hs, cs :: Enumerates(headers, hs) && Enumerates(cookies, cs) && d == DescriptionText(v, s, hs, cs)
  }

  // ---------------------------------------------------------------------------
  // The connection
  // ---------------------------------------------------------------------------

  /** The bytes of a run of writes, in order. */
  function Flatten(chunks: seq<seq<byte>>): seq<byte>
    decreases |chunks|
  {
    if chunks == [] then [] else Flatten(chunks[..|chunks| - 1]) + chunks[|chunks| - 1]
  }

  lemma FlattenAppend(chunks: seq<seq<byte>>, c: seq<byte>)
    ensures Flatten(chunks + [c]) == Flatten(chunks) + c
  {
    assert (chunks + [c])[..|chunks|] == chunks;
  }

  /** The client connection: every `write_all` appends one run of bytes. Write
      failures are not modelled. */
  class Connection {
    var writes: seq<seq<byte>>

    constructor ()
      ensures writes == []
    {
      writes := [];
    }

    method Write(bytes: seq<byte>)
      modifies this
      ensures writes == old(writes) + [bytes]
      ensures Sent() == old(Sent()) + bytes
    {
      FlattenAppend(writes, bytes);
      writes := writes + [bytes];
    }

    /** Everything sent so far. */
    function Sent(): seq<byte>
      reads this
    {
      Flatten(writes)
    }
  }

  // ---------------------------------------------------------------------------
  // Single byte ranges (sections 2.1 and 4.4 of RFC 7233)
  // ---------------------------------------------------------------------------

  datatype RangeDecision = Malformed | Unsatisfiable | Satisfiable(start: nat, end: nat)

  /** How stream_by_chunk reads a Range value for a file of `size` bytes. A missing or
      unparseable start is 0 and a missing or unparseable end is `size - 1`, which
      wraps to usize::MAX for an empty file (a release build; a debug build panics). */
  function ParseRange(range: string, size: nat): (d: RangeDecision)
    ensures !StartsWith(range, "bytes=") ==> d == Malformed
    ensures StartsWith(range, "bytes=") ==> (d == Malformed <==> |Split(range[6..], "-")| != 2)
    ensures d.Satisfiable? ==> d.start <= d.end < size
  {
    if !StartsWith(range, "bytes=") then Malformed
    else
      var values := Split(range[6..], "-");
      if |values| != 2 then Malformed
      else
        var start := ParseUsize(values[0]).GetOr(0);
        var end := ParseUsize(values[1]).GetOr(if size == 0 then USIZE_MAX else size - 1);
        if start >= size || end >= size || start > end then Unsatisfiable
        else Satisfiable(start, end)
  }

  function ContentRangeUnsatisfied(size: nat): string {
    "bytes */" + NatToString(size)
  }

  function ContentRange(start: nat, end: nat, size: nat): string {
    "bytes " + NatToString(start) + "-" + NatToString(end) + "/" + NatToString(size)
  }

  /** A string without '-' is not split. */
  lemma SplitNoDash(s: string)
    requires '-' !in s
    ensures Split(s, "-") == [s]
  {
    forall j | 0 <= j < |s| ensures !OccursAt(s, "-", j) {
      assert j + 1 <= |s| ==> s[j..j + 1][0] == s[j];
    }
  }

  /** Around a single '-', the split gives the two sides. */
  lemma SplitAtDash(x: string, y: string)
    requires '-' !in x && '-' !in y
    ensures Split(x + "-" + y, "-") == [x, y]
  {
    var s := x + "-" + y;
    assert s[|x|..|x| + 1] == "-";
    assert OccursAt(s, "-", |x|);
    forall j | 0 <= j < |x| ensures !OccursAt(s, "-", j) {
      assert s[j..j + 1][0] == x[j];
    }
    assert FindSub(s, "-") == Some(|x|);
    assert s[..|x|] == x && s[|x| + 1..] == y;
    SplitNoDash(y);
  }

  lemma NoDashInNumber(n: nat)
    ensures '-' !in NatToString(n)
  {
    var t := NatToString(n);
    forall k | 0 <= k < |t| ensures t[k] != '-' {
      assert '0' <= t[k] <= '9';
    }
  }

  /** The two fields of a range value after "bytes=". */
  lemma RangeFields(x: string, y: string)
    requires '-' !in x && '-' !in y
    ensures var r := "bytes=" + x + "-" + y;
            StartsWith(r, "bytes=") && r[6..] == x + "-" + y && Split(r[6..], "-") == [x, y]
  {
    var r := "bytes=" + x + "-" + y;
    assert r[..6] == "bytes=";
    assert r[6..] == x + "-" + y;
    SplitAtDash(x, y);
  }

  /** The decision on a well-split range, in terms of what its two fields parse to. */
  lemma RangeOfFields(range: string, x: string, y: string, size: nat)
    requires '-' !in x && '-' !in y && range == "bytes=" + x + "-" + y
    ensures var start := ParseUsize(x).GetOr(0);
            var end := ParseUsize(y).GetOr(if size == 0 then USIZE_MAX else size - 1);
            ParseRange(range, size)
            == if start >= size || end >= size || start > end then Unsatisfiable else Satisfiable(start, end)
  {
    RangeFields(x, y);
  }

  /** Without a first field the range starts at 0. */
  lemma NoStartField(y: string, size: nat)
    requires '-' !in y
    ensures var end := ParseUsize(y).GetOr(if size == 0 then USIZE_MAX else size - 1);
            ParseRange("bytes=-" + y, size)
            == if end >= size then Unsatisfiable else Satisfiable(0, end)
  {
    assert "bytes=" + "" + "-" + y == "bytes=-" + y;
    RangeOfFields("bytes=-" + y, "", y, size);
    EmptyIsNoNumber();
  }

  /** An empty field is no number. */
  lemma EmptyIsNoNumber()
    ensures ParseUsize("") == None
  {
  }

  /** "bytes=a-b" within the file selects exactly a..b: the Content-Range of a partial
      response, sent back as a Range, selects the same bytes. */
  lemma ClosedRangeSelected(a: nat, b: nat, size: nat)
    requires a <= b < size && size <= USIZE_MAX
    ensures ParseRange("bytes=" + NatToString(a) + "-" + NatToString(b), size) == Satisfiable(a, b)
  {
    NoDashInNumber(a);
    NoDashInNumber(b);
    RangeFields(NatToString(a), NatToString(b));
    ParseNatToString(a, USIZE_MAX);
    ParseNatToString(b, USIZE_MAX);
  }

  /** "bytes=a-" runs to the last byte. */
  lemma OpenEndedRange(a: nat, size: nat)
    requires a < size && size <= USIZE_MAX
    ensures ParseRange("bytes=" + NatToString(a) + "-", size) == Satisfiable(a, size - 1)
  {
    NoDashInNumber(a);
    assert "bytes=" + NatToString(a) + "-" + "" == "bytes=" + NatToString(a) + "-";
    RangeOfFields("bytes=" + NatToString(a) + "-", NatToString(a), "", size);
    ParseNatToString(a, USIZE_MAX);
    EmptyIsNoNumber();
  }

  /** "bytes=-n" is read as the first n + 1 bytes, not as the last n bytes that
      section 2.1 of RFC 7233 gives a suffix range. */
  lemma SuffixRangeReadAsPrefix(n: nat, size: nat)
    requires n < size && size <= USIZE_MAX
    ensures ParseRange("bytes=-" + NatToString(n), size) == Satisfiable(0, n)
  {
    NoDashInNumber(n);
    NoStartField(NatToString(n), size);
    ParseNatToString(n, USIZE_MAX);
  }

  /** An end at or past the size is refused rather than clamped to the last byte. */
  lemma EndPastSizeRefused(a: nat, b: nat, size: nat)
    requires a <= b && size <= b && b <= USIZE_MAX
    ensures ParseRange("bytes=" + NatToString(a) + "-" + NatToString(b), size) == Unsatisfiable
  {
    NoDashInNumber(a);
    NoDashInNumber(b);
    RangeFields(NatToString(a), NatToString(b));
    ParseNatToString(a, USIZE_MAX);
    ParseNatToString(b, USIZE_MAX);
  }

  /** The bytes of a satisfiable range that the file actually holds: reads stop at the
      end of the file. */
  function RangeBytes(content: seq<byte>, start: nat, end: nat): (r: seq<byte>)
    requires start <= end
    ensures |r| <= end - start + 1
  {
    if start >= |content| then []
    else if end < |content| then content[start..end + 1]
    else content[start..]
  }
}
