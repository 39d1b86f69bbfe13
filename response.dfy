/**
 * The response engine of src/core/server/response.rs. A `Response` object holds
 * the request it answers, its status, two KeyVal maps (headers and cookies), the
 * body, the size announced as Content-Length, the path of the file to send and
 * two flags: `needStream` (send the file in chunks) and `isCompiled` (the body is
 * already complete, as for a listing).
 *
 * Each method is specified by a function that gives the whole new state from the
 * old one (ErrorState, FileState, ListingState, ChunkState, StreamState); the
 * bytes it writes to the connection are tied to the final state by `Wire`, up to
 * the iteration order of the header and cookie maps.
 */
module Responses {
  import opened Wrappers
  import opened Text
  import opened Http
  import opened Paths
  import opened Templating
  import opened FileSystem
  import opened Serving
  import FileTypes
  import Requests
  import Utils
  import KeyValStore

  /** The fields of a response at one moment; `headers` and `cookies` are the maps the
      two KeyVal objects hold. */
  datatype State = State(
    version: HttpVersion,
    status: HttpStatus,
    headers: map<string, string>,
    cookies: map<string, string>,
    body: seq<byte>,
    size: nat,
    path: string,
    needStream: bool,
    isCompiled: bool)

  /** Result<(), io::Error>. */
  datatype IoResult = IoOk | IoErr

  const HTML_ONLY: map<string, string> := map["Content-Type" := "text/html"]

  // ---------------------------------------------------------------------------
  // The state each operation leaves
  // ---------------------------------------------------------------------------

  /** serve_error_response: the status, the rendered error page as the body and its
      length as the size, and Content-Type: text/html as the only header. */
  function ErrorState(st: State, pages: Templates, status: HttpStatus): State {
    PageState(st, status, ErrorPage(pages, status))
  }

  /** A rendered page as the whole response: its status, the page as the body and its
      length as the size, and Content-Type: text/html as the only header. */
  function PageState(st: State, status: HttpStatus, page: seq<byte>): State {
    st.(status := status, body := page, headers := HTML_ONLY, size := |page|)
  }

  /** The headers of a served file: none without an extension; otherwise the content
      type of its file type (application/octet-stream for an unknown extension) and
      its Content-Disposition. */
  function FileHeaders(extension: string): map<string, string> {
    if extension == "" then map[]
    else
      var ft := FileTypes.FromExtension(extension).GetOr(FileTypes.Fallback);
      map["Content-Type" := ft.contentType, "Content-Disposition" := FileTypes.ContentDisposition(ft)]
  }

  /** serve_file on a path that names a file. */
  function FileState(st: State, pages: Templates, fs: Fs, root: string, file: string): State
    requires IsFile(fs, file)
  {
    if FileForbidden(RelativeTo(file, root), FileName(file).GetOr("")) then ErrorState(st, pages, Forbidden)
    else OpenedState(st, pages, file, Open(fs, file), Extension(file).GetOr(""))
  }

  /** serve_file once the dotfile checks have passed and `handle` is the result of
      opening `file`. */
  function OpenedState(st: State, pages: Templates, file: string, handle: Option<Node>, extension: string): State
    requires handle.Some? ==> handle.value.File?
  {
    match handle
    case None => ErrorState(st.(path := file), pages, NotFound)
    case Some(node) => NodeState(st.(path := file), pages, node, extension)
  }

  /** serve_file on an opened file. The 500 for an unreadable file is not followed by
      a return: the status is set back to 200 and the headers are replaced, so only
      the 500 page survives, as the body. */
  function NodeState(st: State, pages: Templates, node: Node, extension: string): State
    requires node.File?
  {
    var st1 := if Utils.IsReadableFromMode(node.mode) then st else ErrorState(st, pages, InternalServerError);
    FoundState(st1, node, extension)
  }

  /** A found file: its size, streaming when it is larger than MAX_SIZE_ALL_AT_ONCE,
      200 and the headers of its extension. */
  function FoundState(st: State, node: Node, extension: string): State
    requires node.File?
  {
    st.(size := |node.content|,
        needStream := st.needStream || |node.content| > MAX_SIZE_ALL_AT_ONCE,
        status := Ok,
        headers := FileHeaders(extension))
  }

  /** The (name, path) map of the walk's directories (`wantDir`) or files: a later
      entry with the same name replaces an earlier one. */
  function DirMap(entries: seq<Entry>, wantDir: bool): map<string, string>
    decreases |entries|
  {
    if entries == [] then map[]
    else
      var e := entries[|entries| - 1];
      var m := DirMap(entries[..|entries| - 1], wantDir);
      if e.isDir == wantDir then m[e.name := e.path] else m
  }

  /** serve_directory with the folder and file maps iterated in the given orders; None
      where the source panics (an entry path not under the normalised root). */
  function ListingState(st: State, pages: Templates, root: string, dir: string, noEntries: bool,
                        folders: seq<(string, string)>, files: seq<(string, string)>): Option<State>
  {
    var listingPath := ListingPath(dir, root);
    var st0 := st.(isCompiled := true);
    if DirectoryForbidden(listingPath) then Some(ErrorState(st0, pages, Forbidden))
    else
      match ListingHtml(listingPath, noEntries, folders, files, RootNormalized(root))
      case None => None
      case Some(listing) =>
        var page := DirectoryPage(pages, listingPath, listing);
        Some(st0.(path := dir, status := Ok, headers := HTML_ONLY, body := page, size := |page|))
  }

  /** The listing that serve_directory leaves in some iteration order of its two maps;
      `ok` is false exactly when that order panics. */
  ghost predicate ListingServed(before: State, after: State, pages: Templates, root: string, dir: string,
                                entries: seq<Entry>, ok: bool)
  {
    exists folders, files ::
      && Enumerates(DirMap(entries, true), folders)
      && Enumerates(DirMap(entries, false), files)
      && (if ok then ListingState(before, pages, root, dir, entries == [], folders, files) == Some(after)
          else ListingState(before, pages, root, dir, entries == [], folders, files).None?)
  }

  /** A forbidden listing path gives the 403 page, whatever the maps would hold. */
  lemma ListingForbidden(before: State, pages: Templates, root: string, dir: string, entries: seq<Entry>)
    requires DirectoryForbidden(ListingPath(dir, root))
    ensures ListingServed(before, ErrorState(before.(isCompiled := true), pages, Forbidden), pages, root, dir, entries, true)
  {
    EnumerationExists(DirMap(entries, true));
    EnumerationExists(DirMap(entries, false));
  }

  /** With the maps enumerated, an allowed listing path gives the rendered listing, or
      no result where an item panics. */
  lemma ListingRendered(before: State, current: State, pages: Templates, root: string, dir: string, entries: seq<Entry>,
                        folders: seq<(string, string)>, files: seq<(string, string)>)
    requires !DirectoryForbidden(ListingPath(dir, root)) && current == before.(isCompiled := true, path := dir)
    requires Enumerates(DirMap(entries, true), folders) && Enumerates(DirMap(entries, false), files)
    ensures var listing := ListingHtml(ListingPath(dir, root), entries == [], folders, files, RootNormalized(root));
            if listing.None? then ListingServed(before, current, pages, root, dir, entries, false)
            else
              var page := DirectoryPage(pages, ListingPath(dir, root), listing.value);
              ListingServed(before, current.(status := Ok, headers := HTML_ONLY, body := page, size := |page|),
                            pages, root, dir, entries, true)
  {
  }

  /** `bytes` is some description of the state, a blank line, then `tail`. */
  ghost predicate Wire(st: State, bytes: seq<byte>, tail: seq<byte>) {
    exists d :: IsDescriptionOf(d, st.version, st.status, st.headers, st.cookies) && bytes == WireBytes(d, tail)
  }

  /** The two refusals of serve_file: a hidden relative path, then a hidden name. */
  method IsForbidden(relative: string, name: string) returns (forbidden: bool)
    ensures forbidden == FileForbidden(relative, name)
  {
    if (StartsWith(relative, "/.") || StartsWith(relative, ".")) && !Contains(relative, ".well-known") {
      return true;
    }
    forbidden := StartsWith(name, ".") && name != ".well-known";
  }

  /** stream_by_chunk once the file is open: Content-Length and Accept-Ranges. */
  function AcceptState(st: State): State {
    st.(headers := st.headers["Content-Length" := NatToString(st.size)]["Accept-Ranges" := "bytes"])
  }

  /** stream_by_chunk with a parsed Range value: 400 for a malformed one, 416 with the
      unsatisfied Content-Range for one the file cannot satisfy, otherwise 206 with
      the range and its length. */
  function RangeState(st: State, pages: Templates, decision: RangeDecision): State
    requires decision.Satisfiable? ==> decision.start <= decision.end
  {
    match decision
    case Malformed => ErrorState(st, pages, BadRequest)
    case Unsatisfiable => UnsatisfiedState(st)
    case Satisfiable(start, end) => PartialState(st, start, end)
  }

  /** 416 with the unsatisfied Content-Range. */
  function UnsatisfiedState(st: State): State {
    st.(status := RangeNotSatisfiable,
        headers := st.headers["Content-Range" := ContentRangeUnsatisfied(st.size)])
  }

  /** 206 with the range and its length. */
  function PartialState(st: State, start: nat, end: nat): State
    requires start <= end
  {
    st.(status := PartialContent,
        headers := st.headers["Content-Range" := ContentRange(start, end, st.size)]
                             ["Content-Length" := NatToString(end - start + 1)])
  }

  /** stream_by_chunk once the file is open: with no Range header the headers are
      only announced; otherwise the parsed range decides. */
  function OpenChunkState(st: State, pages: Templates, request: Requests.Request): State {
    match Requests.FirstValue(request.headers, "range")
    case None => AcceptState(st)
    case Some(range) => RangeState(AcceptState(st), pages, ParseRange(range, st.size))
  }

  /** stream_by_chunk: the state it leaves. */
  function ChunkState(st: State, pages: Templates, fs: Fs, request: Requests.Request): State {
    match Open(fs, st.path)
    case None => ErrorState(st, pages, NotFound)
    case Some(_) => OpenChunkState(st, pages, request)
  }

  /** stream_by_chunk fails when it reads from an opened directory: with no range, or
      with a satisfiable one (which always asks for at least one byte). */
  predicate ChunkFails(st: State, fs: Fs, request: Requests.Request) {
    Open(fs, st.path).Some? && OpenChunkFails(st, Open(fs, st.path).value, request)
  }

  /** Reading from an opened node fails for a directory, with no range or with a
      satisfiable one. */
  predicate OpenChunkFails(st: State, node: Node, request: Requests.Request) {
    && node.Dir?
    && match Requests.FirstValue(request.headers, "range")
       case None => true
       case Some(range) => ParseRange(range, st.size).Satisfiable?
  }

  /** What stream_by_chunk writes for a parsed Range value: the whole 400 response, or the
      description and the blank line followed by nothing (416) or the selected bytes
      of the file (206). */
  ghost predicate RangeSent(st: State, pages: Templates, node: Node, decision: RangeDecision, out: seq<byte>)
    requires decision.Satisfiable? ==> decision.start <= decision.end
  {
    var fin := RangeState(st, pages, decision);
    match decision
    case Malformed => Wire(fin, out, fin.body)
    case Unsatisfiable => Wire(fin, out, [])
    case Satisfiable(start, end) => Wire(fin, out, if node.File? then RangeBytes(node.content, start, end) else [])
  }

  /** What stream_by_chunk writes: the whole 404 response when the file does not open;
      with no range, the description and the blank line, then the whole file. */
  ghost predicate ChunkSent(st: State, pages: Templates, fs: Fs, request: Requests.Request, out: seq<byte>) {
    match Open(fs, st.path)
    case None => var fin := ErrorState(st, pages, NotFound); Wire(fin, out, fin.body)
    case Some(node) => OpenChunkSent(st, pages, node, request, out)
  }

  /** What stream_by_chunk writes once `node` is open. */
  ghost predicate OpenChunkSent(st: State, pages: Templates, node: Node, request: Requests.Request, out: seq<byte>) {
    match Requests.FirstValue(request.headers, "range")
    case None => Wire(AcceptState(st), out, if node.File? then node.content else [])
    case Some(range) => RangeSent(AcceptState(st), pages, node, ParseRange(range, st.size), out)
  }

  /** stream first sets Content-Length to the size. */
  function WithLength(st: State): State {
    st.(headers := st.headers["Content-Length" := NatToString(st.size)])
  }

  /** stream on a compiled body: a 500 page when the body is empty. */
  function CompiledState(st: State, pages: Templates): State {
    if st.body == [] then ErrorState(st, pages, InternalServerError) else st
  }

  /** stream without chunks: 404 when the file does not open; otherwise `size` bytes of
      it become the body, whatever the body was (the state is unchanged when they
      cannot be read). */
  function BufferedState(st: State, pages: Templates, handle: Option<Node>): State {
    match handle
    case None => ErrorState(st, pages, NotFound)
    case Some(node) =>
      match ReadExact(node, st.size)
      case None => st
      case Some(content) => st.(body := content)
  }

  /** stream in chunks: a failure of stream_by_chunk is answered with a 500 page. */
  function ChunkedState(st: State, pages: Templates, fs: Fs, request: Requests.Request): State {
    var st1 := ChunkState(st, pages, fs, request);
    if ChunkFails(st, fs, request) then ErrorState(st1, pages, InternalServerError) else st1
  }

  lemma ChunkedSentFailed(st: State, pages: Templates, fs: Fs, request: Requests.Request, first: seq<byte>, more: seq<byte>)
    requires ChunkFails(st, fs, request) && ChunkSent(st, pages, fs, request, first)
    requires Wire(ChunkedState(st, pages, fs, request), more, ChunkedState(st, pages, fs, request).body)
    ensures ChunkedSent(st, pages, fs, request, first + more)
  {
    var out := first + more;
    assert out[..|first|] == first && out[|first|..] == more;
  }

  /** stream: the state it leaves. */
  function StreamState(st: State, pages: Templates, fs: Fs, request: Requests.Request): State {
    var st1 := WithLength(st);
    if st1.isCompiled then CompiledState(st1, pages)
    else if !st1.needStream then BufferedState(st1, pages, Open(fs, st1.path))
    else ChunkedState(st1, pages, fs, request)
  }

  /** The buffered read finds fewer than `size` bytes. */
  predicate ReadFails(handle: Option<Node>, size: nat) {
    handle.Some? && ReadExact(handle.value, size).None?
  }

  /** stream returns an error only when the buffered read fails. */
  predicate StreamFails(st: State, fs: Fs) {
    !st.isCompiled && !st.needStream && ReadFails(Open(fs, st.path), st.size)
  }

  /** What stream writes: the whole response (nothing when it fails), or what
      stream_by_chunk writes, followed by a 500 response when that fails. */
  ghost predicate StreamSent(st: State, pages: Templates, fs: Fs, request: Requests.Request, out: seq<byte>) {
    var st1 := WithLength(st);
    var fin := StreamState(st, pages, fs, request);
    if st1.isCompiled then Wire(fin, out, fin.body)
    else if !st1.needStream then
      if ReadFails(Open(fs, st1.path), st1.size) then out == [] else Wire(fin, out, fin.body)
    else ChunkedSent(st1, pages, fs, request, out)
  }

  /** What stream writes in chunks: what stream_by_chunk writes, followed by a 500
      response when it fails. */
  ghost predicate ChunkedSent(st: State, pages: Templates, fs: Fs, request: Requests.Request, out: seq<byte>) {
    var fin := ChunkedState(st, pages, fs, request);
    if ChunkFails(st, fs, request) then
      exists k :: 0 <= k <= |out| && ChunkSent(st, pages, fs, request, out[..k]) && Wire(fin, out[k..], fin.body)
    else ChunkSent(st, pages, fs, request, out)
  }

  /** A description of the state gives its wire form. */
  lemma WireOf(st: State, d: string, tail: seq<byte>)
    requires IsDescriptionOf(d, st.version, st.status, st.headers, st.cookies)
    ensures Wire(st, WireBytes(d, tail), tail)
  {
  }

  /** Two appends regroup. */
  lemma AppendAssoc<T>(a: seq<T>, b: seq<T>, c: seq<T>)
    ensures (a + b) + c == a + (b + c)
  {
  }

  /** The head alone, then the tail. */
  lemma WireBytesAppend(d: string, tail: seq<byte>)
    ensures WireBytes(d, []) + tail == WireBytes(d, tail)
  {
    assert WireBytes(d, []) == Utf8(d) + Utf8("\r\n");
  }

  // ---------------------------------------------------------------------------
  // Sending bytes in chunks
  // ---------------------------------------------------------------------------

  /** The unranged loop of stream_by_chunk: 1024-byte reads until a read returns 0. */
  method SendAll(conn: Connection, content: seq<byte>)
    modifies conn
    ensures conn.Sent() == old(conn.Sent()) + content
    ensures |old(conn.writes)| <= |conn.writes| && conn.writes[..|old(conn.writes)|] == old(conn.writes)
    ensures forall k :: |old(conn.writes)| <= k < |conn.writes| ==> 0 < |conn.writes[k]| <= CHUNK_SIZE
  {
    var pos := 0;
    while true
      invariant pos <= |content|
      invariant conn.Sent() == old(conn.Sent()) + content[..pos]
      invariant |old(conn.writes)| <= |conn.writes| && conn.writes[..|old(conn.writes)|] == old(conn.writes)
      invariant forall k :: |old(conn.writes)| <= k < |conn.writes| ==> 0 < |conn.writes[k]| <= CHUNK_SIZE
      decreases |content| - pos
    {
      var chunk := ReadAt(content, pos, CHUNK_SIZE);
      if |chunk| == 0 {
        break;
      }
      conn.Write(chunk);
      assert content[..pos + |chunk|] == content[..pos] + chunk;
      pos := pos + |chunk|;
    }
    assert content[..pos] == content;
  }

  /** The ranged loop of stream_by_chunk: from `start`, reads of at most
      min(1024, remaining) bytes while `remaining` (end - start + 1 at first) is
      positive, stopping early at the end of the file. */
  method SendRange(conn: Connection, content: seq<byte>, start: nat, end: nat)
    requires start <= end
    modifies conn
    ensures conn.Sent() == old(conn.Sent()) + RangeBytes(content, start, end)
    ensures |old(conn.writes)| <= |conn.writes| && conn.writes[..|old(conn.writes)|] == old(conn.writes)
    ensures forall k :: |old(conn.writes)| <= k < |conn.writes| ==> 0 < |conn.writes[k]| <= CHUNK_SIZE
  {
    var remaining := end - start + 1;
    var bufferLength := if CHUNK_SIZE < remaining then CHUNK_SIZE else remaining;
    var pos := start;
    while remaining > 0
      invariant start <= pos && 0 <= remaining && (pos - start) + remaining == end - start + 1
      invariant pos == start || pos <= |content|
      invariant conn.Sent() == old(conn.Sent()) + (if pos == start then [] else content[start..pos])
      invariant |old(conn.writes)| <= |conn.writes| && conn.writes[..|old(conn.writes)|] == old(conn.writes)
      invariant forall k :: |old(conn.writes)| <= k < |conn.writes| ==> 0 < |conn.writes[k]| <= CHUNK_SIZE
    {
      var toRead := if bufferLength < remaining then bufferLength else remaining;
      var chunk := ReadAt(content, pos, toRead);
      if |chunk| == 0 {
        break;
      }
      conn.Write(chunk);
      assert content[start..pos + |chunk|] == (if pos == start then [] else content[start..pos]) + chunk;
      remaining := remaining - |chunk|;
      pos := pos + |chunk|;
    }
    if remaining == 0 {
      // every byte of the range was read
      assert pos == end + 1 && end < |content|;
    } else {
      // a read came back empty: the file ends at pos
      assert |content| <= pos <= end;
      assert pos == start || content[start..pos] == content[start..];
    }
  }

  // ---------------------------------------------------------------------------
  // The response object
  // ---------------------------------------------------------------------------

  class Response {
    const request: Requests.Request
    /** The templates the response was built with; render does not read them. */
    const templates: Templates
    /** The built-in page texts that render reads. */
    const pages: Templates
    var httpVersion: HttpVersion
    var statusCode: HttpStatus
    const headers: KeyValStore.KeyVal
    const cookies: KeyValStore.KeyVal
    var body: seq<byte>
    var size: nat
    var path: string
    var needStream: bool
    var isCompiled: bool

    /** The two maps are distinct objects. */
    ghost predicate Valid()
      reads this
    {
      headers != cookies
    }

    function St(): State
      reads this, headers, cookies
    {
      State(httpVersion, statusCode, headers.entries, cookies.entries, body, size, path, needStream, isCompiled)
    }

    /** Response::new: HTTP/1.1, 200, no headers or cookies, an empty body. */
    constructor (request: Requests.Request, templates: Templates, pages: Templates)
      ensures Valid() && fresh(headers) && fresh(cookies)
      ensures this.request == request && this.templates == templates && this.pages == pages
      ensures St() == State(Http11, Ok, map[], map[], [], 0, "", false, false)
    {
      this.request := request;
      this.templates := templates;
      this.pages := pages;
      httpVersion := Http11;
      statusCode := Ok;
      headers := new KeyValStore.KeyVal();
      cookies := new KeyValStore.KeyVal();
      body := [];
      size := 0;
      path := "";
      needStream := false;
      isCompiled := false;
    }

    method ServeErrorResponse(status: HttpStatus)
      requires Valid()
      modifies this, headers
      ensures St() == ErrorState(old(St()), pages, status)
    {
      var page := RenderErrorPage(status);
      ServePage(status, page);
    }

    /** Makes `page` the text/html body of a response with `status`. */
    method ServePage(status: HttpStatus, page: seq<byte>)
      requires Valid()
      modifies this, headers
      ensures St() == PageState(old(St()), status, page)
    {
      body := page;
      statusCode := status;
      SetHtmlOnly();
      size := |body|;
    }

    /** Clears the headers and sets Content-Type: text/html. */
    method SetHtmlOnly()
      modifies headers
      ensures headers.entries == HTML_ONLY
    {
      headers.Clear();
      var _ := headers.Add("Content-Type", "text/html");
    }

    /** The error template rendered with the status code, its reason phrase and the
        fixed message, as bytes. */
    method RenderErrorPage(status: HttpStatus) returns (page: seq<byte>)
      ensures page == ErrorPage(pages, status)
    {
      var content := Render(templates, pages, Error, ErrorParams(status));
      page := Utf8(content);
    }

    method ServeFile(fs: Fs, root: string, file: string)
      requires Valid() && WellFormed(fs) && IsFile(fs, file)
      modifies this, headers
      ensures St() == FileState(old(St()), pages, fs, root, file)
    {
      FileHasName(fs, file);
      var name := FileName(file).value;
      var relative := RelativeTo(file, root);
      var forbidden := IsForbidden(relative, name);
      if forbidden {
        ServeErrorResponse(Forbidden);
        return;
      }
      var handle := Open(fs, file);
      ServeOpened(file, handle, Extension(file).GetOr(""));
    }

    /** The rest of serve_file, from the assignment of the path on. */
    method ServeOpened(file: string, handle: Option<Node>, extension: string)
      requires Valid() && (handle.Some? ==> handle.value.File?)
      modifies this, headers
      ensures St() == OpenedState(old(St()), pages, file, handle, extension)
    {
      path := file;
      if handle.None? {
        ServeErrorResponse(NotFound);
        return;
      }
      ServeNode(handle.value, extension);
    }

    /** The part of serve_file that reads the metadata of the opened file. */
    method ServeNode(node: Node, extension: string)
      requires Valid() && node.File?
      modifies this, headers
      ensures St() == NodeState(old(St()), pages, node, extension)
    {
      if !Utils.IsReadableFromMode(node.mode) {
        ServeErrorResponse(InternalServerError);
      }
      SetFound(node, extension);
    }

    /** The size, the streaming decision, 200 and the file headers. */
    method SetFound(node: Node, extension: string)
      requires Valid() && node.File?
      modifies this, headers
      ensures St() == FoundState(old(St()), node, extension)
    {
      size := |node.content|;
      if size > MAX_SIZE_ALL_AT_ONCE {
        needStream := true;
      }
      statusCode := Ok;
      SetFileHeaders(extension);
    }

    /** The header step of serve_file: the map is cleared, and for a file with an
        extension the content type and the disposition of its file type are added. */
    method SetFileHeaders(extension: string)
      modifies headers
      ensures headers.entries == FileHeaders(extension)
    {
      var fileType := FileTypes.FromExtension(extension).GetOr(FileTypes.Fallback);
      var disposition := FileTypes.ContentDisposition(fileType);
      headers.Clear();
      if extension == "" {
        return;
      }
      var _ := headers.Add("Content-Type", fileType.contentType);
      var _ := headers.Add("Content-Disposition", disposition);
    }

    /** `entries` is what the directory walk returns for `dir`; `ok` is false where an
        `unwrap` of the source panics. */
    method ServeDirectory(root: string, dir: string, entries: seq<Entry>) returns (ok: bool)
      requires Valid()
      modifies this, headers
      ensures ListingServed(old(St()), St(), pages, root, dir, entries, ok)
    {
      ghost var before := St();
      isCompiled := true;
      var listingPath := "/" + RelativeTo(dir, root);
      if StartsWith(listingPath, "/.") || StartsWith(listingPath, ".") {
        ServeErrorResponse(Forbidden);
        ListingForbidden(before, pages, root, dir, entries);
        return true;
      }
      ok := ListDirectory(root, dir, entries, before);
    }

    /** serve_directory past the 403 check: the two maps, the listing, the page. */
    method ListDirectory(root: string, dir: string, entries: seq<Entry>, ghost before: State) returns (ok: bool)
      requires Valid() && !DirectoryForbidden(ListingPath(dir, root)) && St() == before.(isCompiled := true)
      modifies this, headers
      ensures ListingServed(before, St(), pages, root, dir, entries, ok)
    {
      path := dir;
      var folders, files := SplitEntries(entries);
      var folderPairs := EnumerateMap(folders);
      var filePairs := EnumerateMap(files);
      var listingPath := "/" + RelativeTo(dir, root);
      var listing := BuildListing(listingPath, entries == [], folderPairs, filePairs, RootNormalized(root));
      ListingRendered(before, St(), pages, root, dir, entries, folderPairs, filePairs);
      if listing.None? {
        return false;
      }
      ServeListing(listingPath, listing.value);
      ok := true;
    }

    /** The rendered listing page as a 200 text/html response. */
    method ServeListing(listingPath: string, listing: string)
      requires Valid()
      modifies this, headers
      ensures var page := DirectoryPage(pages, listingPath, listing);
              St() == old(St()).(status := Ok, headers := HTML_ONLY, body := page, size := |page|)
    {
      var content := Render(templates, pages, Directory, [("folder", listingPath), ("directory_content", listing)]);
      body := Utf8(content);
      statusCode := Ok;
      SetHtmlOnly();
      size := |body|;
    }

    /** Response::serve. `entries` is what the directory walk returns for the target
        when it is a directory; `ok` is false where the source panics. */
    method Serve(fs: Fs, root: string, entries: seq<Entry>) returns (ok: bool)
      requires Valid() && WellFormed(fs)
      modifies this, headers
      ensures !ServablePath(request.path) ==> !ok
      ensures ServablePath(request.path) ==>
                var target := JoinPath(root, request.path[1..]);
                var st := old(St()).(path := target);
                if IsDir(fs, target) then
                  if IsFile(fs, IndexOf(target)) then ok && St() == FileState(st, pages, fs, root, IndexOf(target))
                  else ListingServed(st, St(), pages, root, target, entries, ok)
                else if IsFile(fs, target) then ok && St() == FileState(st, pages, fs, root, target)
                else ok && St() == ErrorState(st, pages, NotFound)
    {
      if !ServablePath(request.path) {
        return false;
      }
      var target := JoinPath(root, request.path[1..]);
      path := target;
      if IsDir(fs, target) {
        var index := IndexOf(target);
        if IsFile(fs, index) {
          ServeFile(fs, root, index);
          ok := true;
        } else {
          ok := ServeDirectory(root, target, entries);
        }
      } else if IsFile(fs, target) {
        ServeFile(fs, root, target);
        ok := true;
      } else {
        ServeErrorResponse(NotFound);
        ok := true;
      }
    }

    method HttpDescription() returns (d: string)
      requires Valid()
      ensures IsDescriptionOf(d, httpVersion, statusCode, headers.entries, cookies.entries)
    {
      var headerPairs := EnumerateMap(headers.entries);
      var cookiePairs := EnumerateMap(cookies.entries);
      var headerText := Requests.EchoHeaders(headerPairs);
      var cookieText := "";
      var i := 0;
      while i < |cookiePairs|
        invariant 0 <= i <= |cookiePairs|
        invariant cookieText == CookieLines(cookiePairs[..i])
      {
        CookieLinesStep(cookiePairs, i);
        cookieText := cookieText + CookieLine(cookiePairs[i]);
        i := i + 1;
      }
      assert cookiePairs[..i] == cookiePairs;
      d := StatusLine(httpVersion, statusCode) + headerText + cookieText;
      assert d == DescriptionText(httpVersion, statusCode, headerPairs, cookiePairs);
    }

    method ToBytes() returns (bytes: seq<byte>)
      requires Valid()
      ensures Wire(St(), bytes, body)
    {
      var d := HttpDescription();
      bytes := Utf8(d) + Utf8("\r\n") + body;
      WireOf(St(), d, body);
    }

    /** to_bytes followed by one write_all. */
    method SendWhole(conn: Connection) returns (ghost sent: seq<byte>)
      requires Valid()
      modifies conn
      ensures conn.Sent() == old(conn.Sent()) + sent
      ensures Wire(St(), sent, body)
    {
      var bytes := ToBytes();
      conn.Write(bytes);
      sent := bytes;
    }

    /** serve_error_response, then the whole response in one write. */
    method SendError(status: HttpStatus, conn: Connection) returns (ghost sent: seq<byte>)
      requires Valid()
      modifies this, headers, conn
      ensures St() == ErrorState(old(St()), pages, status)
      ensures conn.Sent() == old(conn.Sent()) + sent
      ensures Wire(St(), sent, body)
    {
      ServeErrorResponse(status);
      sent := SendWhole(conn);
    }

    /** Writes the description and the blank line (the two writes before the body). */
    method SendHead(conn: Connection) returns (ghost d: string)
      requires Valid()
      modifies conn
      ensures IsDescriptionOf(d, httpVersion, statusCode, headers.entries, cookies.entries)
      ensures conn.Sent() == old(conn.Sent()) + WireBytes(d, [])
      ensures conn.writes == old(conn.writes) + [Utf8(d), Utf8("\r\n")]
    {
      ghost var before := conn.Sent();
      var description := HttpDescription();
      conn.Write(Utf8(description));
      conn.Write(Utf8("\r\n"));
      d := description;
      AppendAssoc(before, Utf8(d), Utf8("\r\n"));
    }

    /** The range parsing of stream_by_chunk, for the current size. */
    method ParseRangeHeader(range: string) returns (decision: RangeDecision)
      ensures decision == ParseRange(range, size)
    {
      if !StartsWith(range, "bytes=") {
        return Malformed;
      }
      var values := Split(range[6..], "-");
      if |values| != 2 {
        return Malformed;
      }
      var start := ParseUsize(values[0]).GetOr(0);
      var end := ParseUsize(values[1]).GetOr(if size == 0 then USIZE_MAX else size - 1);
      if start >= size || end >= size || start > end {
        return Unsatisfiable;
      }
      return Satisfiable(start, end);
    }

    /** stream_by_chunk without a Range header: the head, then the file in 1024-byte
        reads; reading an opened directory fails after the head. */
    method SendUnranged(node: Node, conn: Connection) returns (r: IoResult, ghost sent: seq<byte>)
      requires Valid()
      modifies conn
      ensures r == if node.Dir? then IoErr else IoOk
      ensures conn.Sent() == old(conn.Sent()) + sent
      ensures Wire(St(), sent, if node.File? then node.content else [])
    {
      ghost var d := SendHead(conn);
      if node.Dir? {
        WireOf(St(), d, []);
        return IoErr, WireBytes(d, []);
      }
      SendAll(conn, node.content);
      AppendAssoc(old(conn.Sent()), WireBytes(d, []), node.content);
      WireBytesAppend(d, node.content);
      WireOf(St(), d, node.content);
      return IoOk, WireBytes(d, node.content);
    }

    /** stream_by_chunk for a satisfiable range: 206, Content-Range and the length of
        the range, the head, then the selected bytes. */
    method SendPartial(node: Node, start: nat, end: nat, conn: Connection) returns (r: IoResult, ghost sent: seq<byte>)
      requires Valid() && start <= end
      modifies this, headers, conn
      ensures St() == PartialState(old(St()), start, end)
      ensures r == if node.Dir? then IoErr else IoOk
      ensures conn.Sent() == old(conn.Sent()) + sent
      ensures Wire(St(), sent, if node.File? then RangeBytes(node.content, start, end) else [])
    {
      SetPartial(start, end);
      ghost var d := SendHead(conn);
      if node.Dir? {
        WireOf(St(), d, []);
        return IoErr, WireBytes(d, []);
      }
      SendRange(conn, node.content, start, end);
      AppendAssoc(old(conn.Sent()), WireBytes(d, []), RangeBytes(node.content, start, end));
      WireBytesAppend(d, RangeBytes(node.content, start, end));
      WireOf(St(), d, RangeBytes(node.content, start, end));
      return IoOk, WireBytes(d, RangeBytes(node.content, start, end));
    }

    /** 206 with the selected range and its length. */
    method SetPartial(start: nat, end: nat)
      requires Valid() && start <= end
      modifies this, headers
      ensures St() == PartialState(old(St()), start, end)
    {
      statusCode := PartialContent;
      var _ := headers.Add("Content-Range", ContentRange(start, end, size));
      var _ := headers.Add("Content-Length", NatToString(end - start + 1));
    }

    /** 416 with the unsatisfied Content-Range. */
    method SetUnsatisfied()
      requires Valid()
      modifies this, headers
      ensures St() == UnsatisfiedState(old(St()))
    {
      statusCode := RangeNotSatisfiable;
      var _ := headers.Add("Content-Range", ContentRangeUnsatisfied(size));
    }

    /** stream_by_chunk for a range the file cannot satisfy: 416, the unsatisfied
        Content-Range, and the head alone. */
    method SendUnsatisfied(conn: Connection) returns (ghost sent: seq<byte>)
      requires Valid()
      modifies this, headers, conn
      ensures St() == UnsatisfiedState(old(St()))
      ensures conn.Sent() == old(conn.Sent()) + sent
      ensures Wire(St(), sent, [])
    {
      SetUnsatisfied();
      ghost var d := SendHead(conn);
      WireOf(St(), d, []);
      sent := WireBytes(d, []);
    }

    /** stream_by_chunk once the Range value is parsed. */
    method SendRanged(node: Node, decision: RangeDecision, conn: Connection) returns (r: IoResult, ghost sent: seq<byte>)
      requires Valid() && (decision.Satisfiable? ==> decision.start <= decision.end)
      modifies this, headers, conn
      ensures St() == RangeState(old(St()), pages, decision)
      ensures r == if node.Dir? && decision.Satisfiable? then IoErr else IoOk
      ensures conn.Sent() == old(conn.Sent()) + sent
      ensures RangeSent(old(St()), pages, node, decision, sent)
    {
      match decision
      case Malformed =>
        sent := SendError(BadRequest, conn);
        r := IoOk;
      case Unsatisfiable =>
        sent := SendUnsatisfied(conn);
        r := IoOk;
      case Satisfiable(start, end) =>
        r, sent := SendPartial(node, start, end, conn);
    }

    method StreamByChunk(fs: Fs, conn: Connection) returns (r: IoResult, ghost sent: seq<byte>)
      requires Valid()
      modifies this, headers, conn
      ensures St() == ChunkState(old(St()), pages, fs, request)
      ensures r == if ChunkFails(old(St()), fs, request) then IoErr else IoOk
      ensures conn.Sent() == old(conn.Sent()) + sent
      ensures ChunkSent(old(St()), pages, fs, request, sent)
    {
      var handle := Open(fs, path);
      if handle.None? {
        sent := SendError(NotFound, conn);
        return IoOk, sent;
      }
      r, sent := SendOpenFile(handle.value, conn);
    }

    /** stream_by_chunk once the file is open. */
    method SendOpenFile(node: Node, conn: Connection) returns (r: IoResult, ghost sent: seq<byte>)
      requires Valid()
      modifies this, headers, conn
      ensures St() == OpenChunkState(old(St()), pages, request)
      ensures r == if OpenChunkFails(old(St()), node, request) then IoErr else IoOk
      ensures conn.Sent() == old(conn.Sent()) + sent
      ensures OpenChunkSent(old(St()), pages, node, request, sent)
    {
      SetAccept();
      var range := Requests.FirstValue(request.headers, "range");
      if range.None? {
        r, sent := SendUnranged(node, conn);
        return;
      }
      var decision := ParseRangeHeader(range.value);
      r, sent := SendRanged(node, decision, conn);
    }

    /** Content-Length for the size and Accept-Ranges: bytes. */
    method SetAccept()
      requires Valid()
      modifies headers
      ensures St() == AcceptState(old(St()))
    {
      var _ := headers.Add("Content-Length", NatToString(size));
      var _ := headers.Add("Accept-Ranges", "bytes");
    }

    /** stream on a compiled body. */
    method SendCompiled(conn: Connection) returns (ghost sent: seq<byte>)
      requires Valid()
      modifies this, headers, conn
      ensures St() == CompiledState(old(St()), pages)
      ensures conn.Sent() == old(conn.Sent()) + sent
      ensures Wire(St(), sent, body)
    {
      if body == [] {
        sent := SendError(InternalServerError, conn);
        return;
      }
      sent := SendWhole(conn);
    }

    /** stream without chunks: the file is read into the body, then sent whole. */
    method SendBuffered(fs: Fs, conn: Connection) returns (r: IoResult, ghost sent: seq<byte>)
      requires Valid()
      modifies this, headers, conn
      ensures St() == BufferedState(old(St()), pages, Open(fs, old(path)))
      ensures r == if ReadFails(Open(fs, old(path)), old(size)) then IoErr else IoOk
      ensures conn.Sent() == old(conn.Sent()) + sent
      ensures if r.IoErr? then sent == [] else Wire(St(), sent, body)
    {
      var handle := Open(fs, path);
      if handle.None? {
        sent := SendError(NotFound, conn);
        return IoOk, sent;
      }
      r, sent := SendRead(handle.value, conn);
    }

    /** Reads `size` bytes of an opened file into the body and sends the response. */
    method SendRead(node: Node, conn: Connection) returns (r: IoResult, ghost sent: seq<byte>)
      requires Valid()
      modifies this, conn
      ensures St() == BufferedState(old(St()), pages, Some(node))
      ensures r == if ReadFails(Some(node), old(size)) then IoErr else IoOk
      ensures conn.Sent() == old(conn.Sent()) + sent
      ensures if r.IoErr? then sent == [] else Wire(St(), sent, body)
    {
      var read := ReadExact(node, size);
      if read.None? {
        return IoErr, [];
      }
      body := read.value;
      sent := SendWhole(conn);
      r := IoOk;
    }

    method Stream(fs: Fs, conn: Connection) returns (r: IoResult, ghost sent: seq<byte>)
      requires Valid()
      modifies this, headers, conn
      ensures St() == StreamState(old(St()), pages, fs, request)
      ensures r == if StreamFails(old(St()), fs) then IoErr else IoOk
      ensures conn.Sent() == old(conn.Sent()) + sent
      ensures StreamSent(old(St()), pages, fs, request, sent)
    {
      SetLength();
      if isCompiled {
        sent := SendCompiled(conn);
        return IoOk, sent;
      }
      if !needStream {
        r, sent := SendBuffered(fs, conn);
        return;
      }
      sent := StreamChunked(fs, conn);
      r := IoOk;
    }

    /** Content-Length for the size. */
    method SetLength()
      requires Valid()
      modifies headers
      ensures St() == WithLength(old(St()))
    {
      var _ := headers.Add("Content-Length", NatToString(size));
    }

    /** The chunked branch of stream: a failure of stream_by_chunk is answered with a
        500 response. */
    method StreamChunked(fs: Fs, conn: Connection) returns (ghost sent: seq<byte>)
      requires Valid()
      modifies this, headers, conn
      ensures St() == ChunkedState(old(St()), pages, fs, request)
      ensures conn.Sent() == old(conn.Sent()) + sent
      ensures ChunkedSent(old(St()), pages, fs, request, sent)
    {
      ghost var st := St();
      ghost var before := conn.Sent();
      var chunked;
      chunked, sent := StreamByChunk(fs, conn);
      if chunked.IoErr? {
        ghost var first := sent;
        ghost var more := SendError(InternalServerError, conn);
        sent := first + more;
        AppendAssoc(before, first, more);
        ChunkedSentFailed(st, pages, fs, request, first, more);
      }
    }
  }

  /** The two HashMaps of serve_directory, name to path: folders and files. */
  method SplitEntries(entries: seq<Entry>) returns (folders: map<string, string>, files: map<string, string>)
    ensures folders == DirMap(entries, true) && files == DirMap(entries, false)
  {
    var folderMap := new KeyValStore.KeyVal();
    var fileMap := new KeyValStore.KeyVal();
    var i := 0;
    while i < |entries|
      invariant 0 <= i <= |entries|
      invariant folderMap != fileMap
      invariant folderMap.entries == DirMap(entries[..i], true)
      invariant fileMap.entries == DirMap(entries[..i], false)
    {
      assert entries[..i + 1][..i] == entries[..i];
      var entry := entries[i];
      if entry.isDir {
        var _ := folderMap.Add(entry.name, entry.path);
      } else {
        var _ := fileMap.Add(entry.name, entry.path);
      }
      i := i + 1;
    }
    assert entries[..i] == entries;
    folders, files := folderMap.entries, fileMap.entries;
  }

  // ---------------------------------------------------------------------------
  // HashMap iteration always has an order
  // ---------------------------------------------------------------------------

  lemma {:induction false} EnumerationExists(m: map<string, string>)
    ensures exists pairs :: Enumerates(m, pairs)
    decreases |m|
  {
    if m == map[] {
      assert Enumerates(m, []);
    } else {
      var k :| k in m;
      var rest := m - {k};
      EnumerationExists(rest);
      var pairs: seq<(string, string)> :| Enumerates(rest, pairs);
      EnumerationSnoc(rest, pairs, k, m[k]);
      assert rest[k := m[k]] == m;
    }
  }

  /** An enumeration extended by an entry for a new key enumerates the extended map. */
  lemma EnumerationSnoc(m: map<string, string>, pairs: seq<(string, string)>, k: string, v: string)
    requires Enumerates(m, pairs) && k !in m
    ensures Enumerates(m[k := v], pairs + [(k, v)])
  {
    var more := pairs + [(k, v)];
    forall key | key == k || key in m ensures exists i :: 0 <= i < |more| && more[i].0 == key {
      if key == k {
        assert more[|pairs|].0 == key;
      } else {
        assert key in m;
        var i :| 0 <= i < |pairs| && pairs[i].0 == key;
        assert more[i] == pairs[i];
      }
    }
  }

}
