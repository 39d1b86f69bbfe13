/**
 * The method policy of src/core/server/server.rs: what `method_handle` does to a
 * served response for each request method, the Server header of
 * `server_transformation`, and the line `log_response` writes.
 *
 * The listener, the thread per connection and the logger are not part of this
 * model; the clock that `datetime_rfc_1123` reads is the parameter `now`.
 */
module Servers {
  import opened Wrappers
  import opened Text
  import opened Http
  import opened ServerConstants
  import opened FileSystem
  import opened Templating
  import Requests
  import Responses
  import Utils
  import KeyValStore
  import ResponseProperties

  /** The value of Allow and Access-Control-Allow-Methods. */
  function AllowedMethods(): string {
    CommaSeparated(SupportedHttpMethods())
  }

  /** The headers of an OPTIONS answer: Date, Allow and the two CORS headers are set,
      every other header is kept. */
  function OptionsHeaders(headers: map<string, string>, date: string): map<string, string> {
    headers["Date" := date]["Allow" := AllowedMethods()]["Access-Control-Allow-Origin" := "*"]
           ["Access-Control-Allow-Methods" := AllowedMethods()]
  }

  /** The body of a TRACE answer: a blank line, then the echo of the request. */
  function TraceBody(request: Requests.Request): seq<byte> {
    Utf8("\r\n" + Requests.Description(request))
  }

  /** OPTIONS: no body, and the headers of an OPTIONS answer. */
  function OptionsState(st: Responses.State, date: string): Responses.State {
    st.(body := [], headers := OptionsHeaders(st.headers, date))
  }

  /** TRACE: 200, the echo of the request as the body, its type and its length. */
  function TraceState(st: Responses.State, request: Requests.Request): Responses.State {
    var body := TraceBody(request);
    st.(status := Ok, body := body,
        headers := map["Content-Type" := "message/http", "Content-Length" := NatToString(|body|)])
  }

  /** A method outside the supported set: 405, no body, Allow as the only header. */
  function RejectState(st: Responses.State): Responses.State {
    st.(body := [], status := MethodNotAllowed, headers := map["Allow" := AllowedMethods()])
  }

  /** method_handle, one case per method: GET changes nothing and HEAD drops the body.
      `date` is the text of the clock when OPTIONS asks for it. */
  function MethodState(st: Responses.State, request: Requests.Request, date: string): Responses.State {
    match request.verb
    case GET => st
    case HEAD => st.(body := [])
    case OPTIONS => OptionsState(st, date)
    case TRACE => TraceState(st, request)
    case _ => RejectState(st)
  }

  /** server_transformation: the Server header. */
  function WithServer(st: Responses.State): Responses.State {
    st.(headers := st.headers["Server" := Version()])
  }

  /** datetime_rfc_1123 may give `date` at `now`. */
  ghost predicate DateAt(now: nat, date: string) {
    exists year, month, day :: Utils.IsCivil(Utils.DaysAsI32(now), year, month, day) && month < 12
      && date == Utils.Rfc1123Text(year, month, day, Utils.TimeOfDayOf(now))
  }

  /** Server::method_handle: a run of independent `if` blocks, one per method, then
      the block for methods outside the supported set. */
  method MethodHandle(response: Responses.Response, now: nat) returns (ghost date: string)
    requires response.Valid()
    modifies response, response.headers
    ensures response.St() == MethodState(old(response.St()), response.request, date)
    ensures response.request.verb == OPTIONS ==> DateAt(now, date)
  {
    var verb := response.request.verb;
    ghost var st := response.St();
    ghost var want := st;
    date := "";
    if verb == HEAD {
      response.body := [];
      want := st.(body := []);
    }
    if verb == OPTIONS {
      date := AnswerOptions(response, now);
      want := OptionsState(st, date);
    }
    if verb == TRACE {
      AnswerTrace(response);
      want := TraceState(st, response.request);
    }
    if verb !in SupportedHttpMethods() {
      RejectMethod(response);
      want := RejectState(st);
    }
    assert response.St() == want;
    MethodStateByVerb(st, response.request, date);
  }

  /** MethodState read one method at a time, in the order of method_handle's blocks. */
  lemma MethodStateByVerb(st: Responses.State, request: Requests.Request, date: string)
    ensures request.verb == GET ==> MethodState(st, request, date) == st
    ensures request.verb == HEAD ==> MethodState(st, request, date) == st.(body := [])
    ensures request.verb == OPTIONS ==> MethodState(st, request, date) == OptionsState(st, date)
    ensures request.verb == TRACE ==> MethodState(st, request, date) == TraceState(st, request)
    ensures request.verb !in SupportedHttpMethods() ==> MethodState(st, request, date) == RejectState(st)
  {
  }

  method AnswerOptions(response: Responses.Response, now: nat) returns (ghost date: string)
    requires response.Valid()
    modifies response, response.headers
    ensures response.St() == OptionsState(old(response.St()), date)
    ensures DateAt(now, date)
  {
    response.body := [];
    date := SetOptionsHeaders(response.headers, now);
  }

  method AnswerTrace(response: Responses.Response)
    requires response.Valid()
    modifies response, response.headers
    ensures response.St() == TraceState(old(response.St()), response.request)
  {
    response.body := [];
    response.statusCode := Ok;
    var body := TraceHeaders(response.headers, response.request);
    response.body := body;
  }

  method RejectMethod(response: Responses.Response)
    requires response.Valid()
    modifies response, response.headers
    ensures response.St() == RejectState(old(response.St()))
  {
    response.body := [];
    SetAllowOnly(response.headers);
    response.statusCode := MethodNotAllowed;
  }

  /** The four headers of an OPTIONS answer. */
  method SetOptionsHeaders(headers: KeyValStore.KeyVal, now: nat) returns (date: string)
    modifies headers
    ensures headers.entries == OptionsHeaders(old(headers.entries), date)
    ensures DateAt(now, date)
  {
    date := Utils.DatetimeRfc1123(now);
    var allowed := CommaSeparated(SupportedHttpMethods());
    var _ := headers.Add("Date", date);
    var _ := headers.Add("Allow", allowed);
    var _ := headers.Add("Access-Control-Allow-Origin", "*");
    var _ := headers.Add("Access-Control-Allow-Methods", allowed);
  }

  /** The headers of a TRACE answer, and the body whose length they announce. */
  method TraceHeaders(headers: KeyValStore.KeyVal, request: Requests.Request) returns (body: seq<byte>)
    modifies headers
    ensures body == TraceBody(request)
    ensures headers.entries == map["Content-Type" := "message/http", "Content-Length" := NatToString(|body|)]
  {
    headers.Clear();
    var _ := headers.Add("Content-Type", "message/http");
    var description := Requests.HttpDescription(request);
    var text := "\r\n" + description;
    body := Utf8(text);
    var _ := headers.Add("Content-Length", NatToString(|body|));
  }

  /** The headers of a 405 answer. */
  method SetAllowOnly(headers: KeyValStore.KeyVal)
    modifies headers
    ensures headers.entries == map["Allow" := AllowedMethods()]
  {
    headers.Clear();
    var _ := headers.Add("Allow", CommaSeparated(SupportedHttpMethods()));
  }

  /** Server::server_transformation. */
  method ServerTransformation(response: Responses.Response)
    requires response.Valid()
    modifies response.headers
    ensures response.St() == WithServer(old(response.St()))
  {
    var _ := response.headers.Add("Server", Version());
  }

  /** Server::log_response: the first line of the request's echo in quotes, the
      status code and the size. */
  function LogLine(request: Requests.Request, status: HttpStatus, size: nat): (r: string)
    ensures |r| > 0 && r[0] == '"'
    ensures var tail := "\" " + NatToString(ToCode(status)) + " " + NatToString(size);
            |tail| <= |r| && r[|r| - |tail|..] == tail
  {
    EchoHasLines(request);
    var head := "\"" + Lines(Requests.Description(request))[0];
    var tail := "\" " + NatToString(ToCode(status)) + " " + NatToString(size);
    assert (head + tail)[|head + tail| - |tail|..] == tail;
    head + tail
  }

  /** The echo always has a first line (`lines().next().unwrap()` does not panic). */
  lemma EchoHasLines(request: Requests.Request)
    ensures Lines(Requests.Description(request)) != []
  {
    var d := Requests.Description(request);
    assert d[0] == Requests.RequestLine(request)[0];
  }

  // ---------------------------------------------------------------------------
  // Properties
  // ---------------------------------------------------------------------------

  /** Allow lists the supported methods in declaration order. */
  lemma AllowedMethodsText()
    ensures AllowedMethods() == "GET" + ", " + ("HEAD" + ", " + ("OPTIONS" + ", " + "TRACE"))
  {
    CommaSeparatedImmutable();
  }

  /** method_handle changes only the status, the headers and the body. */
  lemma MethodKeepsTheRest(st: Responses.State, request: Requests.Request, date: string)
    ensures var after := MethodState(st, request, date);
            after.(status := st.status, headers := st.headers, body := st.body) == st
  {
    match request.verb
    case GET =>
    case HEAD =>
    case OPTIONS =>
    case TRACE =>
    case _ =>
  }

  /** The status becomes 200 for TRACE and 405 outside the supported set, and is kept
      otherwise. */
  lemma MethodStatus(st: Responses.State, request: Requests.Request, date: string)
    ensures MethodState(st, request, date).status ==
            if request.verb == TRACE then Ok
            else if request.verb in SupportedHttpMethods() then st.status
            else MethodNotAllowed
  {
    match request.verb
    case GET =>
    case HEAD =>
    case OPTIONS =>
    case TRACE =>
    case _ =>
  }

  /** GET leaves the response as served, and HEAD on the same request answers exactly
      as GET does except that no body is sent. */
  lemma GetAndHead(st: Responses.State, request: Requests.Request, date: string)
    requires request.verb == GET
    ensures MethodState(st, request, date) == st
    ensures MethodState(st, request.(verb := HEAD), date) == MethodState(st, request, date).(body := [])
  {
  }

  /** OPTIONS keeps the status, empties the body, sets the date, the allowed methods
      and the CORS headers, and keeps every other header. */
  lemma OptionsAnswer(st: Responses.State, request: Requests.Request, date: string)
    requires request.verb == OPTIONS
    ensures var h := MethodState(st, request, date).headers;
            && MethodState(st, request, date).status == st.status
            && MethodState(st, request, date).body == []
            && h["Date"] == date
            && h["Allow"] == AllowedMethods()
            && h["Access-Control-Allow-Methods"] == AllowedMethods()
            && h["Access-Control-Allow-Origin"] == "*"
            && forall k :: k !in ["Date", "Allow", "Access-Control-Allow-Origin", "Access-Control-Allow-Methods"] ==>
                 (k in h <==> k in st.headers) && (k in h ==> h[k] == st.headers[k])
  {
  }

  /** TRACE answers 200 with exactly a message/http type and the length of its body. */
  lemma TraceAnswer(st: Responses.State, request: Requests.Request, date: string)
    requires request.verb == TRACE
    ensures var after := MethodState(st, request, date);
            && after.status == Ok
            && after.headers.Keys == {"Content-Type", "Content-Length"}
            && after.headers["Content-Type"] == "message/http"
            && after.headers["Content-Length"] == NatToString(|after.body|)
  {
  }

  /** The TRACE body is a blank line followed by the echo of the request, whose first
      line is the request line when the decoded path holds no line break. */
  lemma TraceEcho(request: Requests.Request)
    ensures TraceBody(request) == [13, 10] + Utf8(Requests.Description(request))
    ensures '\n' !in request.path ==> Lines(Requests.Description(request))[0] == Requests.RequestLine(request)
  {
    Utf8Append("\r\n", Requests.Description(request));
    assert Utf8("\r\n") == [13, 10] by {
      assert "\r\n"[1..] == "\n";
      assert Utf8("\n") == EncodeChar('\n') + Utf8([]);
    }
    if '\n' !in request.path {
      Requests.DescriptionFirstLine(request);
    }
  }

  /** The log line quotes the request line when the decoded path holds no line break. */
  lemma LogLineQuotesRequestLine(request: Requests.Request, status: HttpStatus, size: nat)
    requires '\n' !in request.path
    ensures LogLine(request, status, size)
            == "\"" + Requests.RequestLine(request) + "\" " + NatToString(ToCode(status)) + " " + NatToString(size)
  {
    Requests.DescriptionFirstLine(request);
  }

  /** A method outside the supported set gets 405, an empty body and Allow as its only
      header, whatever the response was. */
  lemma RejectedMethod(st: Responses.State, request: Requests.Request, date: string)
    requires request.verb !in SupportedHttpMethods()
    ensures var after := MethodState(st, request, date);
            && after.status == MethodNotAllowed
            && after.body == []
            && after.headers == map["Allow" := AllowedMethods()]
  {
  }

  /** A method outside the supported set is exactly one that may change server state. */
  lemma RejectedIffMutable(m: HttpMethod)
    ensures m !in SupportedHttpMethods() <==> m in Mutable()
  {
    MethodClass(m);
  }

  /** Handling the same request twice answers as handling it once. */
  lemma MethodHandleIdempotent(st: Responses.State, request: Requests.Request, date: string)
    ensures MethodState(MethodState(st, request, date), request, date) == MethodState(st, request, date)
  {
    if request.verb == OPTIONS {
      var h := OptionsHeaders(st.headers, date);
      assert OptionsHeaders(h, date) == h;
    }
  }

  /** The Server header names this server, whatever it held, and no other header
      changes. */
  lemma ServerHeader(st: Responses.State)
    ensures WithServer(st).headers["Server"] == "Katana 0.1.0"
    ensures forall k :: k != "Server" ==> (k in WithServer(st).headers <==> k in st.headers)
    ensures WithServer(st).(headers := st.headers) == st
  {
  }

  /** For a buffered file, stream reads the file back into the body after
      method_handle emptied it for HEAD or for a rejected method: the body sent is the
      first `size` bytes of the file, not the empty body. */
  lemma ClearedBodyReloaded(st: Responses.State, pages: Templates, fs: Fs, request: Requests.Request, date: string)
    requires request.verb == HEAD || request.verb in Mutable()
    requires !st.isCompiled && !st.needStream
    requires Open(fs, st.path).Some? && Open(fs, st.path).value.File?
    requires st.size <= |Open(fs, st.path).value.content|
    ensures MethodState(st, request, date).body == []
    ensures var before := WithServer(MethodState(st, request, date));
            Responses.StreamState(before, pages, fs, request).body == Open(fs, st.path).value.content[..st.size]
  {
    var before := WithServer(MethodState(st, request, date));
    MethodClass(request.verb);
    assert before.path == st.path && before.size == st.size && !before.isCompiled && !before.needStream;
    ResponseProperties.BufferedStream(before, pages, fs, request);
  }
}
