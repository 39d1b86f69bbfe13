/**
 * The older response engine of src/response.rs. Its headers and cookies are
 * vectors kept in the order they are pushed, a served file is read whole into
 * the body, and there is no size field, no streaming and no range support.
 *
 * As in the newer engine, each method is specified by a function that gives the
 * new state from the old one; where the source panics (an `unwrap` on None) the
 * function gives None.
 */
module LegacyResponses {
  import opened Wrappers
  import opened Text
  import opened Http
  import opened Paths
  import opened Templating
  import opened FileSystem
  import opened Serving
  import FileTypes
  import Requests
  import Responses

  /** The fields of a response at one moment. */
  datatype State = State(
    version: HttpVersion,
    status: HttpStatus,
    headers: seq<(string, string)>,
    cookies: seq<(string, string)>,
    body: seq<byte>)

  // ---------------------------------------------------------------------------
  // The state each operation leaves
  // ---------------------------------------------------------------------------

  /** The headers of an html page: its type, then its length. */
  function HtmlHeaders(page: seq<byte>): seq<(string, string)> {
    [("Content-Type", "text/html"), ("Content-Length", NatToString(|page|))]
  }

  /** `page` as the html body of a response with `status`. */
  function PageState(st: State, status: HttpStatus, page: seq<byte>): State {
    st.(status := status, body := page, headers := HtmlHeaders(page))
  }

  /** serve_error_response: the rendered error page of `status`. */
  function ErrorState(st: State, pages: Templates, status: HttpStatus): State {
    PageState(st, status, ErrorPage(pages, status))
  }

  /** The headers of a file that was read: type, length, disposition. */
  function FileHeaders(ft: FileTypes.FileType, content: seq<byte>): seq<(string, string)> {
    [("Content-Type", ft.contentType), ("Content-Length", NatToString(|content|)),
     ("Content-Disposition", FileTypes.ContentDisposition(ft))]
  }

  /** The file type of an extension, application/octet-stream when it is unknown. */
  function TypeOf(extension: string): FileTypes.FileType {
    FileTypes.FromExtension(extension).GetOr(FileTypes.Fallback)
  }

  /** A file read whole: 200, its content as the body, the headers of its type. */
  function ReadState(st: State, ft: FileTypes.FileType, content: seq<byte>): State {
    st.(status := Ok, body := content, headers := FileHeaders(ft, content))
  }

  /** serve_file on a path that names a file; `readFails` says whether read_to_end
      returns an I/O error. */
  function FileState(st: State, pages: Templates, fs: Fs, root: string, file: string, readFails: bool): Option<State>
    requires IsFile(fs, file)
  {
    if FileForbidden(RelativeTo(file, root), FileName(file).GetOr("")) then Some(ErrorState(st, pages, Forbidden))
    else OpenedState(st, pages, Open(fs, file), Extension(file), readFails)
  }

  /** serve_file once the dotfile checks have passed: 404 when the file does not
      open; a panic when it opens and has no extension (`extension().unwrap()`);
      500 when reading fails. */
  function OpenedState(st: State, pages: Templates, handle: Option<Node>, extension: Option<string>,
                       readFails: bool): Option<State>
    requires handle.Some? ==> handle.value.File?
  {
    match handle
    case None => Some(ErrorState(st, pages, NotFound))
    case Some(node) =>
      if extension.None? then None
      else if readFails then Some(ErrorState(st, pages, InternalServerError))
      else Some(ReadState(st, TypeOf(extension.value), node.content))
  }

  /** The (name, path) pairs the walk pushes onto `folders` (`wantDir`) or `files`,
      in walk order. */
  function WalkPairs(entries: seq<Entry>, wantDir: bool): seq<(string, string)>
    decreases |entries|
  {
    if entries == [] then []
    else
      var e := entries[|entries| - 1];
      WalkPairs(entries[..|entries| - 1], wantDir) + (if e.isDir == wantDir then [(e.name, e.path)] else [])
  }

  /** serve_directory: 403 for a hidden listing path, otherwise the listing page with
      folders before files, each in walk order; None where an entry path is not under
      the normalised root (`strip_prefix(..).unwrap()`). */
  function ListingState(st: State, pages: Templates, root: string, dir: string, entries: seq<Entry>): Option<State> {
    var listingPath := ListingPath(dir, root);
    if DirectoryForbidden(listingPath) then Some(ErrorState(st, pages, Forbidden))
    else
      match ListingHtml(listingPath, entries == [], WalkPairs(entries, true), WalkPairs(entries, false), RootNormalized(root))
      case None => None
      case Some(listing) => Some(PageState(st, Ok, DirectoryPage(pages, listingPath, listing)))
  }

  /** serve: a directory with an index.html serves that file, one without it gets a
      listing, a file is served, anything else is 404. `entries` is what the walk
      returns for the target directory. */
  function ServeState(st: State, pages: Templates, fs: Fs, root: string, path: string, entries: seq<Entry>,
                      readFails: bool): Option<State>
  {
    if !ServablePath(path) then None
    else
      var target := JoinPath(root, path[1..]);
      if IsDir(fs, target) then
        if IsFile(fs, IndexOf(target)) then FileState(st, pages, fs, root, IndexOf(target), readFails)
        else ListingState(st, pages, root, target, entries)
      else if IsFile(fs, target) then FileState(st, pages, fs, root, target, readFails)
      else Some(ErrorState(st, pages, NotFound))
  }

  /** http_description: the status line, the header lines in vector order, then the
      Set-Cookie lines. */
  function Description(st: State): string {
    DescriptionText(st.version, st.status, st.headers, st.cookies)
  }

  /** to_bytes: the description, a blank line, the body. */
  function Bytes(st: State): seq<byte> {
    WireBytes(Description(st), st.body)
  }

  // ---------------------------------------------------------------------------
  // The response object
  // ---------------------------------------------------------------------------

  class Response {
    const request: Requests.Request
    /** The templates the response was built with; render does not read them. */
    const templates: Templates
    /** The built-in page texts that render reads. */
    const pages: Templates
    var httpVersion: HttpVersion
    var statusCode: HttpStatus
    var headers: seq<(string, string)>
    var cookies: seq<(string, string)>
    var body: seq<byte>

    function St(): State
      reads this
    {
      State(httpVersion, statusCode, headers, cookies, body)
    }

    /** Response::new: HTTP/1.1, 200, no headers or cookies, an empty body. */
    constructor (request: Requests.Request, templates: Templates, pages: Templates)
      ensures this.request == request && this.templates == templates && this.pages == pages
      ensures St() == State(Http11, Ok, [], [], [])
    {
      this.request := request;
      this.templates := templates;
      this.pages := pages;
      httpVersion := Http11;
      statusCode := Ok;
      headers := [];
      cookies := [];
      body := [];
    }

    /** Response::serve; `ok` is false where the source panics. */
    method Serve(fs: Fs, root: string, entries: seq<Entry>, readFails: bool) returns (ok: bool)
      requires WellFormed(fs)
      modifies this
      ensures var r := ServeState(old(St()), pages, fs, root, request.path, entries, readFails);
              ok == r.Some? && (ok ==> St() == r.value)
    {
      if !ServablePath(request.path) {
        return false;
      }
      var target := JoinPath(root, request.path[1..]);
      if IsDir(fs, target) {
        var index := IndexOf(target);
        if IsFile(fs, index) {
          ok := ServeFile(fs, root, index, readFails);
        } else {
          ok := ServeDirectory(root, target, entries);
        }
      } else if IsFile(fs, target) {
        ok := ServeFile(fs, root, target, readFails);
      } else {
        ServeErrorResponse(NotFound);
        ok := true;
      }
    }

    method ServeFile(fs: Fs, root: string, file: string, readFails: bool) returns (ok: bool)
      requires WellFormed(fs) && IsFile(fs, file)
      modifies this
      ensures var r := FileState(old(St()), pages, fs, root, file, readFails);
              ok == r.Some? && (ok ==> St() == r.value)
    {
      FileHasName(fs, file);
      var name := FileName(file).value;
      var relative := RelativeTo(file, root);
      var forbidden := Responses.IsForbidden(relative, name);
      if forbidden {
        ServeErrorResponse(Forbidden);
        return true;
      }
      ok := ServeOpened(Open(fs, file), Extension(file), readFails);
    }

    /** The match on File::open and what follows it. */
    method ServeOpened(handle: Option<Node>, extension: Option<string>, readFails: bool) returns (ok: bool)
      requires handle.Some? ==> handle.value.File?
      modifies this
      ensures var r := OpenedState(old(St()), pages, handle, extension, readFails);
              ok == r.Some? && (ok ==> St() == r.value)
    {
      if handle.None? {
        ServeErrorResponse(NotFound);
        return true;
      }
      if extension.None? {
        return false;
      }
      if readFails {
        ServeErrorResponse(InternalServerError);
        return true;
      }
      ServeRead(TypeOf(extension.value), handle.value.content);
      ok := true;
    }

    /** The branch of a successful read_to_end. */
    method ServeRead(fileType: FileTypes.FileType, content: seq<byte>)
      modifies this
      ensures St() == ReadState(old(St()), fileType, content)
    {
      var disposition := FileTypes.ContentDisposition(fileType);
      body := content;
      statusCode := Ok;
      headers := [];
      headers := headers + [("Content-Type", fileType.contentType)];
      headers := headers + [("Content-Length", NatToString(|body|))];
      headers := headers + [("Content-Disposition", disposition)];
    }

    /** `entries` is what the directory walk returns for `dir`; `ok` is false where an
        `unwrap` of the source panics. */
    method ServeDirectory(root: string, dir: string, entries: seq<Entry>) returns (ok: bool)
      modifies this
      ensures var r := ListingState(old(St()), pages, root, dir, entries);
              ok == r.Some? && (ok ==> St() == r.value)
    {
      var listingPath := "/" + RelativeTo(dir, root);
      if StartsWith(listingPath, "/.") || StartsWith(listingPath, ".") {
        ServeErrorResponse(Forbidden);
        return true;
      }
      var folders, files := SplitWalk(entries);
      var listing := BuildListing(listingPath, entries == [], folders, files, RootNormalized(root));
      if listing.None? {
        return false;
      }
      var content := Render(templates, pages, Directory, [("folder", listingPath), ("directory_content", listing.value)]);
      ServePage(Ok, Utf8(content));
      ok := true;
    }

    method ServeErrorResponse(status: HttpStatus)
      modifies this
      ensures St() == ErrorState(old(St()), pages, status)
    {
      var content := Render(templates, pages, Error, ErrorParams(status));
      ServePage(status, Utf8(content));
    }

    /** Sets the status and the body, clears the headers and pushes the html type and
        the body length. */
    method ServePage(status: HttpStatus, page: seq<byte>)
      modifies this
      ensures St() == PageState(old(St()), status, page)
    {
      statusCode := status;
      body := page;
      headers := [];
      headers := headers + [("Content-Type", "text/html")];
      headers := headers + [("Content-Length", NatToString(|body|))];
    }

    method HttpDescription() returns (d: string)
      ensures d == Description(St())
    {
      var headerText := Requests.EchoHeaders(headers);
      var cookieText := "";
      var i := 0;
      while i < |cookies|
        invariant 0 <= i <= |cookies|
        invariant cookieText == CookieLines(cookies[..i])
      {
        CookieLinesStep(cookies, i);
        cookieText := cookieText + CookieLine(cookies[i]);
        i := i + 1;
      }
      assert cookies[..i] == cookies;
      assert cookieText == CookieLines(cookies);
      d := StatusLine(httpVersion, statusCode) + headerText + cookieText;
    }

    method ToBytes() returns (bytes: seq<byte>)
      ensures bytes == Bytes(St())
    {
      var d := HttpDescription();
      bytes := Utf8(d) + Utf8("\r\n") + body;
    }
  }

  /** The loop of serve_directory that sorts the walk's entries into folders and
      files. */
  method SplitWalk(entries: seq<Entry>) returns (folders: seq<(string, string)>, files: seq<(string, string)>)
    ensures folders == WalkPairs(entries, true) && files == WalkPairs(entries, false)
  {
    folders, files := [], [];
    var i := 0;
    while i < |entries|
      invariant 0 <= i <= |entries|
      invariant folders == WalkPairs(entries[..i], true) && files == WalkPairs(entries[..i], false)
    {
      assert entries[..i + 1][..i] == entries[..i];
      var e := entries[i];
      if e.isDir {
        folders := folders + [(e.name, e.path)];
      } else {
        files := files + [(e.name, e.path)];
      }
      i := i + 1;
    }
    assert entries[..i] == entries;
  }
  // ---------------------------------------------------------------------------
  // Properties
  // ---------------------------------------------------------------------------

  /** The response announces the length of its own body, as its second header right
      after the Content-Type, and in no other header. */
  predicate AnnouncesLength(s: State) {
    && |s.headers| >= 2
    && s.headers[0].0 == "Content-Type"
    && s.headers[1] == ("Content-Length", NatToString(|s.body|))
    && forall i :: 0 <= i < |s.headers| && i != 1 ==> s.headers[i].0 != "Content-Length"
  }

  lemma PageAnnounces(st: State, status: HttpStatus, page: seq<byte>)
    ensures AnnouncesLength(PageState(st, status, page))
  {
  }

  lemma OpenedAnnounces(st: State, pages: Templates, handle: Option<Node>, extension: Option<string>, readFails: bool)
    requires handle.Some? ==> handle.value.File?
    requires OpenedState(st, pages, handle, extension, readFails).Some?
    ensures AnnouncesLength(OpenedState(st, pages, handle, extension, readFails).value)
  {
    if handle.None? {
      PageAnnounces(st, NotFound, ErrorPage(pages, NotFound));
    } else if readFails {
      PageAnnounces(st, InternalServerError, ErrorPage(pages, InternalServerError));
    } else if extension.Some? {
      ReadAnnounces(st, TypeOf(extension.value), handle.value.content);
    }
  }

  lemma ReadAnnounces(st: State, ft: FileTypes.FileType, content: seq<byte>)
    ensures AnnouncesLength(ReadState(st, ft, content))
  {
  }

  lemma FileAnnounces(st: State, pages: Templates, fs: Fs, root: string, file: string, readFails: bool)
    requires IsFile(fs, file) && FileState(st, pages, fs, root, file, readFails).Some?
    ensures AnnouncesLength(FileState(st, pages, fs, root, file, readFails).value)
  {
    if FileForbidden(RelativeTo(file, root), FileName(file).GetOr("")) {
      PageAnnounces(st, Forbidden, ErrorPage(pages, Forbidden));
    } else {
      OpenedAnnounces(st, pages, Open(fs, file), Extension(file), readFails);
    }
  }

  lemma ListingAnnounces(st: State, pages: Templates, root: string, dir: string, entries: seq<Entry>)
    requires ListingState(st, pages, root, dir, entries).Some?
    ensures AnnouncesLength(ListingState(st, pages, root, dir, entries).value)
  {
    var listingPath := ListingPath(dir, root);
    if DirectoryForbidden(listingPath) {
      PageAnnounces(st, Forbidden, ErrorPage(pages, Forbidden));
    } else {
      var listing := ListingHtml(listingPath, entries == [], WalkPairs(entries, true), WalkPairs(entries, false),
                                 RootNormalized(root)).value;
      PageAnnounces(st, Ok, DirectoryPage(pages, listingPath, listing));
    }
  }

  /** Whatever serve answers, and unlike the newer engine's announced size, the
      Content-Length it sends is the length of the body it sends. */
  lemma ServeAnnouncesLength(st: State, pages: Templates, fs: Fs, root: string, path: string, entries: seq<Entry>,
                             readFails: bool)
    requires ServeState(st, pages, fs, root, path, entries, readFails).Some?
    ensures AnnouncesLength(ServeState(st, pages, fs, root, path, entries, readFails).value)
  {
    var target := JoinPath(root, path[1..]);
    if IsDir(fs, target) {
      if IsFile(fs, IndexOf(target)) {
        FileAnnounces(st, pages, fs, root, IndexOf(target), readFails);
      } else {
        ListingAnnounces(st, pages, root, target, entries);
      }
    } else if IsFile(fs, target) {
      FileAnnounces(st, pages, fs, root, target, readFails);
    } else {
      PageAnnounces(st, NotFound, ErrorPage(pages, NotFound));
    }
  }

  /** Past the dotfile checks, 200 comes exactly from a read of an opened file with
      an extension, and no branch answers 403. */
  lemma OpenedStatus(st: State, pages: Templates, handle: Option<Node>, extension: Option<string>, readFails: bool)
    requires handle.Some? ==> handle.value.File?
    ensures var r := OpenedState(st, pages, handle, extension, readFails);
            (r.Some? && r.value.status == Ok) <==> (handle.Some? && extension.Some? && !readFails)
    ensures var r := OpenedState(st, pages, handle, extension, readFails);
            r.Some? ==> r.value.status != Forbidden
  {
  }

  /** serve_file answers 200 exactly when the file is not hidden, opens, has an
      extension and is read; the body is then the whole file, with the headers of its
      type in the order type, length, disposition. */
  lemma FileOkIff(st: State, pages: Templates, fs: Fs, root: string, file: string, readFails: bool)
    requires IsFile(fs, file)
    ensures var r := FileState(st, pages, fs, root, file, readFails);
            (r.Some? && r.value.status == Ok)
            <==> (!FileForbidden(RelativeTo(file, root), FileName(file).GetOr("")) && Open(fs, file).Some?
                  && Extension(file).Some? && !readFails)
    ensures var r := FileState(st, pages, fs, root, file, readFails);
            r.Some? && r.value.status == Ok ==>
              r.value.body == Open(fs, file).value.content
              && r.value.headers == FileHeaders(TypeOf(Extension(file).value), r.value.body)
  {
    OpenedStatus(st, pages, Open(fs, file), Extension(file), readFails);
  }

  /** The newer engine's serve_file past its dotfile checks never answers 403. */
  lemma CoreOpenedNotForbidden(core: Responses.State, pages: Templates, file: string, handle: Option<Node>,
                               extension: string)
    requires handle.Some? ==> handle.value.File?
    ensures Responses.OpenedState(core, pages, file, handle, extension).status != Forbidden
  {
    match handle
    case None =>
      assert Responses.OpenedState(core, pages, file, handle, extension).status == NotFound;
    case Some(node) =>
      var st1 := if Utils.IsReadableFromMode(node.mode) then core.(path := file)
                 else Responses.ErrorState(core.(path := file), pages, InternalServerError);
      assert Responses.OpenedState(core, pages, file, handle, extension)
             == Responses.FoundState(st1, node, extension);
  }

  /** Both generations refuse the same files with 403. */
  lemma DotfilePolicyShared(st: State, core: Responses.State, pages: Templates, fs: Fs, root: string, file: string,
                            readFails: bool)
    requires IsFile(fs, file)
    ensures var r := FileState(st, pages, fs, root, file, readFails);
            (r.Some? && r.value.status == Forbidden) <==> FileForbidden(RelativeTo(file, root), FileName(file).GetOr(""))
    ensures Responses.FileState(core, pages, fs, root, file).status == Forbidden
            <==> FileForbidden(RelativeTo(file, root), FileName(file).GetOr(""))
  {
    OpenedStatus(st, pages, Open(fs, file), Extension(file), readFails);
    CoreOpenedNotForbidden(core, pages, file, Open(fs, file), Extension(file).GetOr(""));
  }

  /** A visible file that opens but has no extension panics here, while the newer
      engine serves it with 200 and no Content-Type. */
  lemma ExtensionlessFilePanics(st: State, core: Responses.State, pages: Templates, fs: Fs, root: string,
                                file: string, readFails: bool)
    requires IsFile(fs, file) && Open(fs, file).Some? && Extension(file).None?
    requires !FileForbidden(RelativeTo(file, root), FileName(file).GetOr(""))
    ensures FileState(st, pages, fs, root, file, readFails).None?
    ensures var served := Responses.FileState(core, pages, fs, root, file);
            served.status == Ok && "Content-Type" !in served.headers
  {
  }

  /** The walk's pairs of a concatenation are those of the parts, in order. */
  lemma {:induction false} WalkPairsAppend(a: seq<Entry>, b: seq<Entry>, wantDir: bool)
    ensures WalkPairs(a + b, wantDir) == WalkPairs(a, wantDir) + WalkPairs(b, wantDir)
    decreases |b|
  {
    if b == [] {
      assert a + b == a;
    } else {
      var n := |b| - 1;
      DropLastOfAppend(a, b);
      WalkPairsAppend(a, b[..n], wantDir);
    }
  }

  /** Every entry goes to exactly one of the two vectors. */
  lemma {:induction false} WalkPairsCount(entries: seq<Entry>)
    ensures |WalkPairs(entries, true)| + |WalkPairs(entries, false)| == |entries|
    decreases |entries|
  {
    if entries != [] {
      WalkPairsCount(entries[..|entries| - 1]);
    }
  }

  predicate DistinctNames(pairs: seq<(string, string)>) {
    forall i, j :: 0 <= i < j < |pairs| ==> pairs[i].0 != pairs[j].0
  }

  /** When no two walked entries of a kind share a name, the vector of that kind is one
      iteration order of the newer engine's map of that kind. */
  lemma {:induction false} WalkPairsEnumerate(entries: seq<Entry>, wantDir: bool)
    requires DistinctNames(WalkPairs(entries, wantDir))
    ensures Enumerates(Responses.DirMap(entries, wantDir), WalkPairs(entries, wantDir))
    decreases |entries|
  {
    if entries != [] {
      var n := |entries| - 1;
      var e := entries[n];
      var all := WalkPairs(entries, wantDir);
      var p := WalkPairs(entries[..n], wantDir);
      assert all == p + (if e.isDir == wantDir then [(e.name, e.path)] else []);
      assert DistinctNames(p) by {
        forall i, j | 0 <= i < j < |p| ensures p[i].0 != p[j].0 {
          assert p[i] == all[i] && p[j] == all[j];
        }
      }
      WalkPairsEnumerate(entries[..n], wantDir);
      if e.isDir == wantDir {
        var m := Responses.DirMap(entries[..n], wantDir);
        assert all[|p|] == (e.name, e.path);
        forall i | 0 <= i < |p| ensures p[i].0 != e.name {
          assert all[i] == p[i];
        }
        Responses.EnumerationSnoc(m, p, e.name, e.path);
      } else {
        assert all == p;
      }
    }
  }

  /** With distinct names, the listing page here is one the newer engine may serve for
      the same walk. */
  lemma SameListingAsCore(st: State, core: Responses.State, pages: Templates, root: string, dir: string,
                          entries: seq<Entry>)
    requires DistinctNames(WalkPairs(entries, true)) && DistinctNames(WalkPairs(entries, false))
    requires !DirectoryForbidden(ListingPath(dir, root)) && ListingState(st, pages, root, dir, entries).Some?
    ensures var page := ListingState(st, pages, root, dir, entries).value.body;
            Responses.ListingServed(core, core.(isCompiled := true, path := dir, status := Ok,
                                                headers := Responses.HTML_ONLY, body := page, size := |page|),
                                    pages, root, dir, entries, true)
  {
    WalkPairsEnumerate(entries, true);
    WalkPairsEnumerate(entries, false);
    Responses.ListingRendered(core, core.(isCompiled := true, path := dir), pages, root, dir, entries,
                              WalkPairs(entries, true), WalkPairs(entries, false));
  }

  /** to_bytes: the status line, the header lines, the cookie lines, a blank line,
      then the body. */
  lemma BytesLayout(st: State)
    ensures Bytes(st) == Utf8(StatusLine(st.version, st.status)) + Utf8(Requests.HeaderLines(st.headers))
                         + Utf8(CookieLines(st.cookies)) + [13, 10] + st.body
  {
    var a, b, c := StatusLine(st.version, st.status), Requests.HeaderLines(st.headers), CookieLines(st.cookies);
    Utf8Append(a + b, c);
    Utf8Append(a, b);
    assert Utf8("\r\n") == [13, 10] by {
      assert "\r\n"[1..] == "\n";
      assert Utf8("\n") == EncodeChar('\n') + Utf8([]);
    }
  }

  /** Each header has its line after the lines of the headers pushed before it and
      before those pushed after it. */
  lemma HeaderLineInPlace(st: State, i: nat)
    requires i < |st.headers|
    ensures Description(st) == StatusLine(st.version, st.status) + Requests.HeaderLines(st.headers[..i])
                               + Requests.HeaderLine(st.headers[i]) + Requests.HeaderLines(st.headers[i + 1..])
                               + CookieLines(st.cookies)
  {
    HeaderLinesAround(st.headers, i);
    Splice(Description(st), StatusLine(st.version, st.status), Requests.HeaderLines(st.headers),
           CookieLines(st.cookies), Requests.HeaderLines(st.headers[..i]), Requests.HeaderLine(st.headers[i]),
           Requests.HeaderLines(st.headers[i + 1..]));
  }

  lemma Splice(whole: string, a: string, mid: string, c: string, p1: string, p2: string, p3: string)
    requires whole == a + mid + c && mid == p1 + p2 + p3
    ensures whole == a + p1 + p2 + p3 + c
  {
  }
}
