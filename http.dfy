/**
 * The HTTP vocabulary: versions, status codes with their reason phrases
 * (section 15 of RFC 9110) and request methods, with exact string round-trips.
 */
module Http {
  import opened Wrappers
  import opened Text

  // ---------------------------------------------------------------------------
  // Versions
  // ---------------------------------------------------------------------------

  datatype HttpVersion = Http10 | Http11 | Http20 | Http30

  function VersionAsStr(v: HttpVersion): (r: string)
    ensures |r| == 8 && r[..5] == "HTTP/" && r[6] == '.'
  {
    match v
    case Http10 => "HTTP/1.0"
    case Http11 => "HTTP/1.1"
    case Http20 => "HTTP/2.0"
    case Http30 => "HTTP/3.0"
  }

  /** Parses the version number that follows "HTTP/": exactly the text of a known
      version with its prefix removed is accepted. */
  function VersionFromStr(s: string): (r: Option<HttpVersion>)
    ensures r.Some? ==> VersionAsStr(r.value) == "HTTP/" + s
    ensures r.None? ==> forall v :: VersionAsStr(v) != "HTTP/" + s
  {
    if s == "1.0" then Some(Http10)
    else if s == "1.1" then Some(Http11)
    else if s == "2.0" then Some(Http20)
    else if s == "3.0" then Some(Http30)
    else
      assert ("HTTP/" + s)[5..] == s;
      None
  }

  /** Every version survives printing, dropping "HTTP/" and parsing back. */
  lemma VersionRoundTrip(v: HttpVersion)
    ensures StartsWith(VersionAsStr(v), "HTTP/")
    ensures VersionFromStr(VersionAsStr(v)[5..]) == Some(v)
  {
  }

  /** The only version tokens accepted are "1.0", "1.1", "2.0" and "3.0". */
  lemma VersionTokens(s: string)
    ensures VersionFromStr(s).Some? <==> s in {"1.0", "1.1", "2.0", "3.0"}
  {
  }

  // ---------------------------------------------------------------------------
  // Status codes
  // ---------------------------------------------------------------------------

  datatype HttpStatus =
    Continue
    | SwitchingProtocols
    | Processing
    | EarlyHints
    | Ok
    | Created
    | Accepted
    | NonAuthoritativeInformation
    | NoContent
    | ResetContent
    | PartialContent
    | MultiStatus
    | AlreadyReported
    | IMUsed
    | MovedPermanently
    | Found
    | SeeOther
    | NotModified
    | UseProxy
    | TemporaryRedirect
    | PermanentRedirect
    | BadRequest
    | Unauthorized
    | PaymentRequired
    | Forbidden
    | NotFound
    | MethodNotAllowed
    | NotAcceptable
    | ProxyAuthenticationRequired
    | RequestTimeout
    | Conflict
    | Gone
    | LengthRequired
    | PreconditionFailed
    | PayloadTooLarge
    | URITooLong
    | UnsupportedMediaType
    | RangeNotSatisfiable
    | ExpectationFailed
    | ImATeapot
    | MisdirectedRequest
    | UnprocessableEntity
    | Locked
    | FailedDependency
    | TooEarly
    | UpgradeRequired
    | PreconditionRequired
    | TooManyRequests
    | RequestHeaderFieldsTooLarge
    | UnavailableForLegalReasons
    | InternalServerError
    | NotImplemented
    | BadGateway
    | ServiceUnavailable
    | GatewayTimeout
    | HTTPVersionNotSupported
    | VariantAlsoNegotiates
    | InsufficientStorage
    | LoopDetected
    | NotExtended
    | NetworkAuthenticationRequired

  /** The numeric status code, the enum's declared discriminant. */
  function ToCode(s: HttpStatus): (r: nat)
    ensures 100 <= r <= 599
  {
    match s
    case Continue => 100
    case SwitchingProtocols => 101
    case Processing => 102
    case EarlyHints => 103
    case Ok => 200
    case Created => 201
    case Accepted => 202
    case NonAuthoritativeInformation => 203
    case NoContent => 204
    case ResetContent => 205
    case PartialContent => 206
    case MultiStatus => 207
    case AlreadyReported => 208
    case IMUsed => 226
    case MovedPermanently => 301
    case Found => 302
    case SeeOther => 303
    case NotModified => 304
    case UseProxy => 305
    case TemporaryRedirect => 307
    case PermanentRedirect => 308
    case BadRequest => 400
    case Unauthorized => 401
    case PaymentRequired => 402
    case Forbidden => 403
    case NotFound => 404
    case MethodNotAllowed => 405
    case NotAcceptable => 406
    case ProxyAuthenticationRequired => 407
    case RequestTimeout => 408
    case Conflict => 409
    case Gone => 410
    case LengthRequired => 411
    case PreconditionFailed => 412
    case PayloadTooLarge => 413
    case URITooLong => 414
    case UnsupportedMediaType => 415
    case RangeNotSatisfiable => 416
    case ExpectationFailed => 417
    case ImATeapot => 418
    case MisdirectedRequest => 421
    case UnprocessableEntity => 422
    case Locked => 423
    case FailedDependency => 424
    case TooEarly => 425
    case UpgradeRequired => 426
    case PreconditionRequired => 428
    case TooManyRequests => 429
    case RequestHeaderFieldsTooLarge => 431
    case UnavailableForLegalReasons => 451
    case InternalServerError => 500
    case NotImplemented => 501
    case BadGateway => 502
    case ServiceUnavailable => 503
    case GatewayTimeout => 504
    case HTTPVersionNotSupported => 505
    case VariantAlsoNegotiates => 506
    case InsufficientStorage => 507
    case LoopDetected => 508
    case NotExtended => 510
    case NetworkAuthenticationRequired => 511
  }

  /** The reason phrase sent after the code in the status line. */
  function ToMessage(s: HttpStatus): (r: string)
    ensures |r| > 0
  {
    match s
    case Continue => "Continue"
    case SwitchingProtocols => "Switching Protocols"
    case Processing => "Processing"
    case EarlyHints => "Early Hints"
    case Ok => "OK"
    case Created => "Created"
    case Accepted => "Accepted"
    case NonAuthoritativeInformation => "Non-Authoritative Information"
    case NoContent => "No Content"
    case ResetContent => "Reset Content"
    case PartialContent => "Partial Content"
    case MultiStatus => "Multi-Status"
    case AlreadyReported => "Already Reported"
    case IMUsed => "IM Used"
    case MovedPermanently => "Moved Permanently"
    case Found => "Found"
    case SeeOther => "See Other"
    case NotModified => "Not Modified"
    case UseProxy => "Use Proxy"
    case TemporaryRedirect => "Temporary Redirect"
    case PermanentRedirect => "Permanent Redirect"
    case BadRequest => "Bad Request"
    case Unauthorized => "Unauthorized"
    case PaymentRequired => "Payment Required"
    case Forbidden => "Forbidden"
    case NotFound => "Not Found"
    case MethodNotAllowed => "Method Not Allowed"
    case NotAcceptable => "Not Acceptable"
    case ProxyAuthenticationRequired => "Proxy Authentication Required"
    case RequestTimeout => "Request Timeout"
    case Conflict => "Conflict"
    case Gone => "Gone"
    case LengthRequired => "Length Required"
    case PreconditionFailed => "Precondition Failed"
    case PayloadTooLarge => "Payload Too Large"
    case URITooLong => "URI Too Long"
    case UnsupportedMediaType => "Unsupported Media Type"
    case RangeNotSatisfiable => "Range Not Satisfiable"
    case ExpectationFailed => "Expectation Failed"
    case ImATeapot => "I'm a teapot"
    case MisdirectedRequest => "Misdirected Request"
    case UnprocessableEntity => "Unprocessable Entity"
    case Locked => "Locked"
    case FailedDependency => "Failed Dependency"
    case TooEarly => "Too Early"
    case UpgradeRequired => "Upgrade Required"
    case PreconditionRequired => "Precondition Required"
    case TooManyRequests => "Too Many Requests"
    case RequestHeaderFieldsTooLarge => "Request Header Fields Too Large"
    case UnavailableForLegalReasons => "Unavailable For Legal Reasons"
    case InternalServerError => "Internal Server Error"
    case NotImplemented => "Not Implemented"
    case BadGateway => "Bad Gateway"
    case ServiceUnavailable => "Service Unavailable"
    case GatewayTimeout => "Gateway Timeout"
    case HTTPVersionNotSupported => "HTTP Version Not Supported"
    case VariantAlsoNegotiates => "Variant Also Negotiates"
    case InsufficientStorage => "Insufficient Storage"
    case LoopDetected => "Loop Detected"
    case NotExtended => "Not Extended"
    case NetworkAuthenticationRequired => "Network Authentication Required"
  }

  /** The status with a given code, if the catalogue has one: the inverse of ToCode,
      looked up by the code's class (section 15 of RFC 9110). */
  function FromCode(code: nat): (r: Option<HttpStatus>)
  {
    if code < 200 then FromInformational(code)
    else if code < 300 then FromSuccessful(code)
    else if code < 400 then FromRedirection(code)
    else if code < 500 then FromClientError(code)
    else FromServerError(code)
  }

  function FromInformational(code: nat): Option<HttpStatus> {
    if code == 100 then Some(Continue)
    else if code == 101 then Some(SwitchingProtocols)
    else if code == 102 then Some(Processing)
    else if code == 103 then Some(EarlyHints)
    else None
  }

  function FromSuccessful(code: nat): Option<HttpStatus> {
    if code == 200 then Some(Ok)
    else if code == 201 then Some(Created)
    else if code == 202 then Some(Accepted)
    else if code == 203 then Some(NonAuthoritativeInformation)
    else if code == 204 then Some(NoContent)
    else if code == 205 then Some(ResetContent)
    else if code == 206 then Some(PartialContent)
    else if code == 207 then Some(MultiStatus)
    else if code == 208 then Some(AlreadyReported)
    else if code == 226 then Some(IMUsed)
    else None
  }

  function FromRedirection(code: nat): Option<HttpStatus> {
    if code == 301 then Some(MovedPermanently)
    else if code == 302 then Some(Found)
    else if code == 303 then Some(SeeOther)
    else if code == 304 then Some(NotModified)
    else if code == 305 then Some(UseProxy)
    else if code == 307 then Some(TemporaryRedirect)
    else if code == 308 then Some(PermanentRedirect)
    else None
  }

  function FromClientError(code: nat): Option<HttpStatus> {
    if code == 400 then Some(BadRequest)
    else if code == 401 then Some(Unauthorized)
    else if code == 402 then Some(PaymentRequired)
    else if code == 403 then Some(Forbidden)
    else if code == 404 then Some(NotFound)
    else if code == 405 then Some(MethodNotAllowed)
    else if code == 406 then Some(NotAcceptable)
    else if code == 407 then Some(ProxyAuthenticationRequired)
    else if code == 408 then Some(RequestTimeout)
    else if code == 409 then Some(Conflict)
    else if code == 410 then Some(Gone)
    else if code == 411 then Some(LengthRequired)
    else if code == 412 then Some(PreconditionFailed)
    else if code == 413 then Some(PayloadTooLarge)
    else if code == 414 then Some(URITooLong)
    else if code == 415 then Some(UnsupportedMediaType)
    else if code == 416 then Some(RangeNotSatisfiable)
    else if code == 417 then Some(ExpectationFailed)
    else if code == 418 then Some(ImATeapot)
    else if code == 421 then Some(MisdirectedRequest)
    else if code == 422 then Some(UnprocessableEntity)
    else if code == 423 then Some(Locked)
    else if code == 424 then Some(FailedDependency)
    else if code == 425 then Some(TooEarly)
    else if code == 426 then Some(UpgradeRequired)
    else if code == 428 then Some(PreconditionRequired)
    else if code == 429 then Some(TooManyRequests)
    else if code == 431 then Some(RequestHeaderFieldsTooLarge)
    else if code == 451 then Some(UnavailableForLegalReasons)
    else None
  }

  function FromServerError(code: nat): Option<HttpStatus> {
    if code == 500 then Some(InternalServerError)
    else if code == 501 then Some(NotImplemented)
    else if code == 502 then Some(BadGateway)
    else if code == 503 then Some(ServiceUnavailable)
    else if code == 504 then Some(GatewayTimeout)
    else if code == 505 then Some(HTTPVersionNotSupported)
    else if code == 506 then Some(VariantAlsoNegotiates)
    else if code == 507 then Some(InsufficientStorage)
    else if code == 508 then Some(LoopDetected)
    else if code == 510 then Some(NotExtended)
    else if code == 511 then Some(NetworkAuthenticationRequired)
    else None
  }

  /** ToCode is undone by FromCode. */
  lemma CodeRoundTrip(s: HttpStatus)
    ensures FromCode(ToCode(s)) == Some(s)
  {
    var code := ToCode(s);
    if code < 200 {
      InformationalRoundTrip(s);
    } else if code < 300 {
      SuccessfulRoundTrip(s);
    } else if code < 400 {
      RedirectionRoundTrip(s);
    } else if code < 500 {
      ClientErrorRoundTrip(s);
    } else {
      ServerErrorRoundTrip(s);
    }
  }

  lemma InformationalRoundTrip(s: HttpStatus)
    requires 100 <= ToCode(s) < 200
    ensures FromInformational(ToCode(s)) == Some(s)
  {
  }

  lemma SuccessfulRoundTrip(s: HttpStatus)
    requires 200 <= ToCode(s) < 300
    ensures FromSuccessful(ToCode(s)) == Some(s)
  {
  }

  lemma RedirectionRoundTrip(s: HttpStatus)
    requires 300 <= ToCode(s) < 400
    ensures FromRedirection(ToCode(s)) == Some(s)
  {
  }

  lemma ClientErrorRoundTrip(s: HttpStatus)
    requires 400 <= ToCode(s) < 500
    ensures FromClientError(ToCode(s)) == Some(s)
  {
  }

  lemma ServerErrorRoundTrip(s: HttpStatus)
    requires 500 <= ToCode(s) < 600
    ensures FromServerError(ToCode(s)) == Some(s)
  {
  }


  /** Distinct statuses have distinct codes. */
  lemma ToCodeInjective(a: HttpStatus, b: HttpStatus)
    ensures ToCode(a) == ToCode(b) ==> a == b
  {
    CodeRoundTrip(a);
    CodeRoundTrip(b);
  }

  lemma ReasonPhrases()
    ensures ToCode(PartialContent) == 206 && ToMessage(PartialContent) == "Partial Content"
    ensures ToCode(RangeNotSatisfiable) == 416 && ToMessage(RangeNotSatisfiable) == "Range Not Satisfiable"
    ensures ToCode(MethodNotAllowed) == 405 && ToMessage(MethodNotAllowed) == "Method Not Allowed"
    ensures ToCode(Ok) == 200 && ToMessage(Ok) == "OK"
  {
  }

  // ---------------------------------------------------------------------------
  // Methods
  // ---------------------------------------------------------------------------

  datatype HttpMethod = GET | HEAD | POST | PUT | DELETE | CONNECT | OPTIONS | TRACE | PATCH

  function MethodAsStr(m: HttpMethod): (r: string)
    ensures 3 <= |r| <= 7 && forall k :: 0 <= k < |r| ==> 'A' <= r[k] <= 'Z'
  {
    match m
    case GET => "GET"
    case HEAD => "HEAD"
    case POST => "POST"
    case PUT => "PUT"
    case DELETE => "DELETE"
    case CONNECT => "CONNECT"
    case OPTIONS => "OPTIONS"
    case TRACE => "TRACE"
    case PATCH => "PATCH"
  }

  /** Exact, case-sensitive parsing: the inverse of MethodAsStr. */
  function MethodFromStr(s: string): (r: Option<HttpMethod>)
    ensures r.Some? ==> MethodAsStr(r.value) == s
    ensures r.None? ==> forall m :: MethodAsStr(m) != s
  {
    if s == "GET" then Some(GET)
    else if s == "HEAD" then Some(HEAD)
    else if s == "POST" then Some(POST)
    else if s == "PUT" then Some(PUT)
    else if s == "DELETE" then Some(DELETE)
    else if s == "CONNECT" then Some(CONNECT)
    else if s == "OPTIONS" then Some(OPTIONS)
    else if s == "TRACE" then Some(TRACE)
    else if s == "PATCH" then Some(PATCH)
    else None
  }

  lemma MethodRoundTrip(m: HttpMethod)
    ensures MethodFromStr(MethodAsStr(m)) == Some(m)
  {
  }

  /** Lower-case spellings are not methods. */
  lemma MethodParsingIsCaseSensitive()
    ensures MethodFromStr("get") == None && MethodFromStr("Get") == None && MethodFromStr("") == None
  {
  }

  /** Every method, in declaration order (to_vec). */
  function AllMethods(): (r: seq<HttpMethod>)
    ensures |r| == 9
  {
    [GET, HEAD, POST, PUT, DELETE, CONNECT, OPTIONS, TRACE, PATCH]
  }

  /** `to_vec` lists every method. */
  lemma AllMethodsComplete(m: HttpMethod)
    ensures m in AllMethods()
  {
    var r := AllMethods();
    match m
    case GET => assert r[0] == m;
    case HEAD => assert r[1] == m;
    case POST => assert r[2] == m;
    case PUT => assert r[3] == m;
    case DELETE => assert r[4] == m;
    case CONNECT => assert r[5] == m;
    case OPTIONS => assert r[6] == m;
    case TRACE => assert r[7] == m;
    case PATCH => assert r[8] == m;
  }

  /** ... and lists each method once. */
  lemma AllMethodsDistinct()
    ensures forall i, j :: 0 <= i < j < |AllMethods()| ==> AllMethods()[i] != AllMethods()[j]
  {
  }

  /** The methods that do not change server state. */
  function Immutable(): (r: seq<HttpMethod>)
    ensures |r| == 4 && forall i, j :: 0 <= i < j < |r| ==> r[i] != r[j]
  {
    [GET, HEAD, OPTIONS, TRACE]
  }

  /** The methods that would change server state. */
  function Mutable(): (r: seq<HttpMethod>)
    ensures |r| == 5 && forall i, j :: 0 <= i < j < |r| ==> r[i] != r[j]
  {
    [POST, PUT, DELETE, PATCH, CONNECT]
  }

  /** Every method is in exactly one of the two classes. */
  lemma MethodClass(m: HttpMethod)
    ensures m in Immutable() <==> m !in Mutable()
  {
    var i, u := Immutable(), Mutable();
    match m
    case GET => assert i[0] == m;
    case HEAD => assert i[1] == m;
    case POST => assert u[0] == m;
    case PUT => assert u[1] == m;
    case DELETE => assert u[2] == m;
    case CONNECT => assert u[4] == m;
    case OPTIONS => assert i[2] == m;
    case TRACE => assert i[3] == m;
    case PATCH => assert u[3] == m;
  }

  /** The two classes split the nine methods: disjoint, and together exactly `to_vec`. */
  lemma ImmutableMutablePartition()
    ensures forall m :: m in Immutable() <==> m !in Mutable()
    ensures forall m :: m in Immutable() + Mutable() <==> m in AllMethods()
    ensures |Immutable()| + |Mutable()| == |AllMethods()|
  {
    forall m ensures m in Immutable() <==> m !in Mutable() {
      MethodClass(m);
    }
    forall m ensures m in Immutable() + Mutable() <==> m in AllMethods() {
      MethodClass(m);
      AllMethodsComplete(m);
    }
  }

  function MethodNames(methods: seq<HttpMethod>): (r: seq<string>)
    ensures |r| == |methods| && forall k :: 0 <= k < |r| ==> r[k] == MethodAsStr(methods[k])
  {
    seq(|methods|, k requires 0 <= k < |methods| => MethodAsStr(methods[k]))
  }

  /** The methods' names joined by ", " (comma_separated). */
  function CommaSeparated(methods: seq<HttpMethod>): (r: string)
    ensures r == "" <==> methods == []
    ensures methods != [] ==> StartsWith(r, MethodAsStr(methods[0]))
    ensures |methods| == 1 ==> r == MethodAsStr(methods[0])
  {
    Join(MethodNames(methods), ", ")
  }

  /** The names come out in input order, separated by ", ". */
  lemma CommaSeparatedCons(m: HttpMethod, rest: seq<HttpMethod>)
    ensures CommaSeparated([m] + rest) ==
            if rest == [] then MethodAsStr(m) else MethodAsStr(m) + ", " + CommaSeparated(rest)
  {
    assert MethodNames([m] + rest)[1..] == MethodNames(rest);
  }

  lemma CommaSeparatedImmutable()
    ensures CommaSeparated(Immutable()) == "GET" + ", " + ("HEAD" + ", " + ("OPTIONS" + ", " + "TRACE"))
  {
    var t := CommaSeparated([OPTIONS, TRACE]);
    assert t == "OPTIONS" + ", " + "TRACE" by {
      assert [OPTIONS, TRACE] == [OPTIONS] + [TRACE];
      CommaSeparatedCons(OPTIONS, [TRACE]);
    }
    var h := CommaSeparated([HEAD, OPTIONS, TRACE]);
    assert h == "HEAD" + ", " + t by {
      assert [HEAD, OPTIONS, TRACE] == [HEAD] + [OPTIONS, TRACE];
      CommaSeparatedCons(HEAD, [OPTIONS, TRACE]);
    }
    assert CommaSeparated(Immutable()) == "GET" + ", " + h by {
      assert Immutable() == [GET] + [HEAD, OPTIONS, TRACE];
      CommaSeparatedCons(GET, [HEAD, OPTIONS, TRACE]);
    }
  }
}
