/**
 * What the response engine of src/core/server/response.rs does end to end, stated
 * over the state functions of module Responses: a small file is sent whole, a
 * satisfiable range sends exactly its bytes, a streamed file follows its head
 * unchanged, and the behaviours the code has as written (an unreadable file sent
 * anyway under 200, the hidden file read into a 403 response, the listing that
 * panics on an entry outside the root).
 */
module ResponseProperties {
  import opened Wrappers
  import opened Text
  import opened Http
  import opened Templating
  import opened Paths
  import opened FileSystem
  import opened Serving
  import opened Responses
  import Requests
  import Utils

  // ---------------------------------------------------------------------------
  // serve_file and serve_error_response
  // ---------------------------------------------------------------------------

  /** serve_error_response leaves the status asked for, exactly one header
      (Content-Type: text/html), the rendered page as the body and its length as the
      size; the version, the cookies, the path and both flags are kept. */
  lemma ErrorStateShape(st: State, pages: Templates, status: HttpStatus)
    ensures var fin := ErrorState(st, pages, status);
            && fin.status == status
            && fin.headers.Keys == {"Content-Type"} && fin.headers["Content-Type"] == "text/html"
            && fin.body == ErrorPage(pages, status) && fin.size == |fin.body|
            && fin.version == st.version && fin.cookies == st.cookies && fin.path == st.path
            && fin.needStream == st.needStream && fin.isCompiled == st.isCompiled
  {
  }

  /** A file with no permission bit set gets the 500 page as its body, but the status
      is set back to 200 and the headers to those of the file, with the file's size. */
  lemma UnreadableFileServedUnder200(st: State, pages: Templates, node: Node, extension: string)
    requires node.File? && !Utils.IsReadableFromMode(node.mode)
    ensures var fin := NodeState(st, pages, node, extension);
            && fin.status == Ok
            && fin.body == ErrorPage(pages, InternalServerError)
            && fin.headers == FileHeaders(extension)
            && fin.size == |node.content|
  {
    var err := ErrorState(st, pages, InternalServerError);
    assert err.body == ErrorPage(pages, InternalServerError);
    assert NodeState(st, pages, node, extension) == FoundState(err, node, extension);
  }

  /** Only a file larger than MAX_SIZE_ALL_AT_ONCE turns streaming on; serve_file never
      turns it off. */
  lemma StreamingThreshold(st: State, pages: Templates, node: Node, extension: string)
    requires node.File?
    ensures NodeState(st, pages, node, extension).needStream <==> st.needStream || |node.content| > 1048576
  {
  }

  /** serve_file on a file that is not refused and opens: the state of the found file,
      with the path set to it. */
  lemma OpenedFileState(st: State, pages: Templates, fs: Fs, root: string, file: string)
    requires IsFile(fs, file) && Lookup(fs, file).value.openable
    requires !FileForbidden(RelativeTo(file, root), FileName(file).GetOr(""))
    requires Utils.IsReadableFromMode(Lookup(fs, file).value.mode)
    ensures Open(fs, file) == Lookup(fs, file)
    ensures FileState(st, pages, fs, root, file)
            == FoundState(st.(path := file), Lookup(fs, file).value, Extension(file).GetOr(""))
  {
    assert Open(fs, file) == Lookup(fs, file);
  }

  /** stream on a response that is neither compiled nor streamed reads the file at its
      path into the body. */
  lemma BufferedStream(st: State, pages: Templates, fs: Fs, request: Requests.Request)
    requires !st.isCompiled && !st.needStream
    ensures StreamState(st, pages, fs, request) == BufferedState(WithLength(st), pages, Open(fs, st.path))
    ensures StreamFails(st, fs) <==> ReadFails(Open(fs, st.path), st.size)
  {
  }

  /** A readable file of at most 1 MiB that the process can open, served and then
      streamed, is sent with status 200, its bytes as the body and its size as
      Content-Length, and stream does not fail. */
  lemma SmallFileSentWhole(st: State, pages: Templates, fs: Fs, root: string, file: string,
                           request: Requests.Request)
    requires WellFormed(fs) && IsFile(fs, file)
    requires !FileForbidden(RelativeTo(file, root), FileName(file).GetOr(""))
    requires Lookup(fs, file).value.openable && Utils.IsReadableFromMode(Lookup(fs, file).value.mode)
    requires |Lookup(fs, file).value.content| <= MAX_SIZE_ALL_AT_ONCE
    requires !st.isCompiled && !st.needStream
    ensures var served := FileState(st, pages, fs, root, file);
            var fin := StreamState(served, pages, fs, request);
            && !StreamFails(served, fs)
            && fin.status == Ok
            && fin.body == Lookup(fs, file).value.content
            && "Content-Length" in fin.headers && fin.headers["Content-Length"] == NatToString(|fin.body|)
  {
    var node := Lookup(fs, file).value;
    OpenedFileState(st, pages, fs, root, file);
    var served := FileState(st, pages, fs, root, file);
    assert served.path == file && served.size == |node.content| && !served.needStream && !served.isCompiled;
    BufferedStream(served, pages, fs, request);
    assert node.content[..|node.content|] == node.content;
    assert ReadExact(node, |node.content|) == Some(node.content);
  }

  /** serve_file on a file that is not refused and opens but has no read bit: the 500
      page, then the state of the found file, with the path set to it. */
  lemma UnreadableFileState(st: State, pages: Templates, fs: Fs, root: string, file: string)
    requires IsFile(fs, file) && Lookup(fs, file).value.openable
    requires !FileForbidden(RelativeTo(file, root), FileName(file).GetOr(""))
    requires !Utils.IsReadableFromMode(Lookup(fs, file).value.mode)
    ensures Open(fs, file) == Lookup(fs, file)
    ensures FileState(st, pages, fs, root, file)
            == FoundState(ErrorState(st.(path := file), pages, InternalServerError),
                          Lookup(fs, file).value, Extension(file).GetOr(""))
  {
    assert Open(fs, file) == Lookup(fs, file);
  }

  /** The readability check has no effect on what is sent: serve_file leaves the 500
      page in the body of an unreadable file, but also its path and size, so stream
      reads the file itself back into the body and sends it under status 200. */
  lemma UnreadableFileSentWhole(st: State, pages: Templates, fs: Fs, root: string, file: string,
                                request: Requests.Request)
    requires WellFormed(fs) && IsFile(fs, file)
    requires !FileForbidden(RelativeTo(file, root), FileName(file).GetOr(""))
    requires Lookup(fs, file).value.openable && !Utils.IsReadableFromMode(Lookup(fs, file).value.mode)
    requires |Lookup(fs, file).value.content| <= MAX_SIZE_ALL_AT_ONCE
    requires !st.isCompiled && !st.needStream
    ensures var served := FileState(st, pages, fs, root, file);
            var fin := StreamState(served, pages, fs, request);
            && served.body == ErrorPage(pages, InternalServerError)
            && !StreamFails(served, fs)
            && fin.status == Ok
            && fin.body == Lookup(fs, file).value.content
  {
    UnreadableFileState(st, pages, fs, root, file);
    var served := FileState(st, pages, fs, root, file);
    ErrorStateShape(st.(path := file), pages, InternalServerError);
    BufferedReadsWholeFile(served, pages, fs, request);
  }

  /** stream on a buffered response whose size is that of the file at its path puts the
      whole file into the body and keeps the status. */
  lemma BufferedReadsWholeFile(served: State, pages: Templates, fs: Fs, request: Requests.Request)
    requires !served.isCompiled && !served.needStream
    requires Open(fs, served.path).Some? && Open(fs, served.path).value.File?
    requires served.size == |Open(fs, served.path).value.content|
    ensures !StreamFails(served, fs)
    ensures StreamState(served, pages, fs, request).status == served.status
    ensures StreamState(served, pages, fs, request).body == Open(fs, served.path).value.content
  {
    var node := Open(fs, served.path).value;
    BufferedStream(served, pages, fs, request);
    assert node.content[..|node.content|] == node.content;
    assert ReadExact(node, |node.content|) == Some(node.content);
  }

  /** A hidden file is refused with 403, but serve has already set the path to it and
      the 403 page is not compiled, so stream replaces the page by the first
      |page| bytes of the hidden file and sends them under status 403. */
  lemma HiddenFileReadInto403(st: State, pages: Templates, fs: Fs, root: string, file: string,
                              request: Requests.Request)
    requires WellFormed(fs) && IsFile(fs, file)
    requires FileForbidden(RelativeTo(file, root), FileName(file).GetOr(""))
    requires st.path == file && !st.isCompiled && !st.needStream
    requires Lookup(fs, file).value.openable
    requires |ErrorPage(pages, Forbidden)| <= |Lookup(fs, file).value.content|
    ensures var served := FileState(st, pages, fs, root, file);
            var fin := StreamState(served, pages, fs, request);
            && served.status == Forbidden
            && !StreamFails(served, fs)
            && fin.status == Forbidden
            && fin.body == Lookup(fs, file).value.content[..|ErrorPage(pages, Forbidden)|]
  {
    var node := Lookup(fs, file).value;
    assert Open(fs, file) == Some(node);
    var page := ErrorPage(pages, Forbidden);
    var served := FileState(st, pages, fs, root, file);
    assert served == PageState(st, Forbidden, page);
    assert ReadExact(node, |page|) == Some(node.content[..|page|]);
  }

  // ---------------------------------------------------------------------------
  // stream and stream_by_chunk
  // ---------------------------------------------------------------------------

  /** A compiled response with an empty body is replaced by the 500 page. */
  lemma EmptyCompiledBodyIs500(st: State, pages: Templates, fs: Fs, request: Requests.Request)
    requires st.isCompiled && st.body == []
    ensures var fin := StreamState(st, pages, fs, request);
            fin == ErrorState(WithLength(st), pages, InternalServerError) && !StreamFails(st, fs)
  {
  }

  /** A satisfiable range start..end of a file of `size` bytes (ParseRange gives only
      start <= end < size) is answered with 206, Content-Range with the range and the
      size, Content-Length of the range, and exactly the bytes start..end of the file
      after the head. */
  lemma SatisfiableRangeSent(st: State, pages: Templates, node: Node, start: nat, end: nat, out: seq<byte>)
    requires node.File? && st.size == |node.content| && start <= end < st.size
    requires RangeSent(AcceptState(st), pages, node, Satisfiable(start, end), out)
    ensures var fin := RangeState(AcceptState(st), pages, Satisfiable(start, end));
            && fin.status == PartialContent
            && fin.headers["Content-Range"] == ContentRange(start, end, |node.content|)
            && fin.headers["Content-Length"] == NatToString(end - start + 1)
            && fin.headers["Accept-Ranges"] == "bytes"
            && end - start + 1 <= |out|
            && out[|out| - (end - start + 1)..] == node.content[start..end + 1]
  {
    var fin := PartialState(AcceptState(st), start, end);
    PartialHeaders(st, start, end);
    SatisfiableDecision(AcceptState(st), pages, node, start, end, out);
    assert RangeBytes(node.content, start, end) == node.content[start..end + 1];
    WireTail(fin, out, node.content[start..end + 1]);
  }

  /** The 206 state after Accept-Ranges: the status and the three range headers. */
  lemma PartialHeaders(st: State, start: nat, end: nat)
    requires start <= end
    ensures var fin := PartialState(AcceptState(st), start, end);
            && fin.status == PartialContent
            && fin.headers["Content-Range"] == ContentRange(start, end, st.size)
            && fin.headers["Content-Length"] == NatToString(end - start + 1)
            && fin.headers["Accept-Ranges"] == "bytes"
  {
  }

  /** A satisfiable decision leaves the 206 state and writes its head and the bytes. */
  lemma SatisfiableDecision(st: State, pages: Templates, node: Node, start: nat, end: nat, out: seq<byte>)
    requires node.File? && start <= end
    requires RangeSent(st, pages, node, Satisfiable(start, end), out)
    ensures RangeState(st, pages, Satisfiable(start, end)) == PartialState(st, start, end)
    ensures Wire(PartialState(st, start, end), out, RangeBytes(node.content, start, end))
  {
  }

  /** With no Range header, the whole file follows the head unchanged. */
  lemma UnrangedSendsWholeFile(st: State, pages: Templates, node: Node, request: Requests.Request,
                               out: seq<byte>)
    requires node.File? && Requests.FirstValue(request.headers, "range").None?
    requires OpenChunkSent(st, pages, node, request, out)
    ensures |node.content| <= |out| && out[|out| - |node.content|..] == node.content
    ensures OpenChunkState(st, pages, request).headers["Accept-Ranges"] == "bytes"
  {
    WireTail(AcceptState(st), out, node.content);
  }

  /** What is written for a state ends with the tail. */
  lemma WireTail(st: State, out: seq<byte>, tail: seq<byte>)
    requires Wire(st, out, tail)
    ensures |tail| <= |out| && out[|out| - |tail|..] == tail
  {
    var desc :| IsDescriptionOf(desc, st.version, st.status, st.headers, st.cookies) && out == WireBytes(desc, tail);
    WireBodyAfterBlankLine(desc, tail);
  }

  // ---------------------------------------------------------------------------
  // serve_directory
  // ---------------------------------------------------------------------------

  /** Every path the map holds starts with the normalised root. */
  predicate AllUnder(m: map<string, string>, rootNorm: string) {
    forall name :: name in m ==> StartsWith(m[name], rootNorm)
  }

  /** An enumeration can be listed exactly when every path of its map is under the
      root, whatever the order. */
  lemma EnumeratedItemsDefined(m: map<string, string>, pairs: seq<(string, string)>, rootNorm: string)
    requires Enumerates(m, pairs)
    ensures Items(pairs, rootNorm).Some? <==> AllUnder(m, rootNorm)
  {
    ItemsDefinedIff(pairs, rootNorm);
    if Items(pairs, rootNorm).Some? {
      forall name | name in m ensures StartsWith(m[name], rootNorm) {
        var i :| 0 <= i < |pairs| && pairs[i].0 == name;
        assert StartsWith(pairs[i].1, rootNorm);
      }
    } else {
      var i :| 0 <= i < |pairs| && !StartsWith(pairs[i].1, rootNorm);
      assert pairs[i].0 in m && m[pairs[i].0] == pairs[i].1;
    }
  }

  /** In any iteration order, serve_directory panics exactly when the listing path is
      not refused and some folder or file path does not start with the normalised
      root. */
  lemma ListingPanicsIff(st: State, pages: Templates, root: string, dir: string, entries: seq<Entry>,
                         folders: seq<(string, string)>, files: seq<(string, string)>)
    requires Enumerates(DirMap(entries, true), folders) && Enumerates(DirMap(entries, false), files)
    ensures ListingState(st, pages, root, dir, entries == [], folders, files).None?
            <==> !DirectoryForbidden(ListingPath(dir, root))
                 && !(AllUnder(DirMap(entries, true), RootNormalized(root))
                      && AllUnder(DirMap(entries, false), RootNormalized(root)))
  {
    ListingNoneExactlyOnPanic(st, pages, root, dir, entries == [], folders, files);
    EnumeratedItemsDefined(DirMap(entries, true), folders, RootNormalized(root));
    EnumeratedItemsDefined(DirMap(entries, false), files, RootNormalized(root));
  }

  /** The listing state is missing exactly when the path is not refused and the listing
      HTML cannot be built. */
  lemma ListingNoneExactlyOnPanic(st: State, pages: Templates, root: string, dir: string, noEntries: bool,
                                  folders: seq<(string, string)>, files: seq<(string, string)>)
    ensures ListingState(st, pages, root, dir, noEntries, folders, files).None?
            <==> !DirectoryForbidden(ListingPath(dir, root))
                 && ListingHtml(ListingPath(dir, root), noEntries, folders, files, RootNormalized(root)).None?
  {
  }

  /** The folder map holds exactly the names of the walk's directories, the file map
      those of its other entries, each with the path of the last entry of that name. */
  lemma {:induction false} DirMapHolds(entries: seq<Entry>, wantDir: bool, name: string)
    ensures name in DirMap(entries, wantDir) <==>
            exists i :: 0 <= i < |entries| && entries[i].isDir == wantDir && entries[i].name == name
    ensures name in DirMap(entries, wantDir) ==>
            exists i :: 0 <= i < |entries| && entries[i].isDir == wantDir && entries[i].name == name
                        && DirMap(entries, wantDir)[name] == entries[i].path
                        && forall j :: i < j < |entries| ==> !(entries[j].isDir == wantDir && entries[j].name == name)
    decreases |entries|
  {
    if entries != [] {
      var n := |entries| - 1;
      var front := entries[..n];
      DirMapHolds(front, wantDir, name);
      forall i | 0 <= i < n ensures front[i] == entries[i] {
      }
      if entries[n].isDir == wantDir && entries[n].name == name {
        assert DirMap(entries, wantDir)[name] == entries[n].path;
      }
    }
  }
}
