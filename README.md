# Katana, modelled in Dafny

Katana is a small static-file HTTP server written in Rust. This project models its
core request/response path in Dafny and proves properties of that model:

- the HTTP vocabulary (methods, versions, status codes and reason phrases);
- request parsing: the request line, the percent-decoder, query, header and cookie
  splitting, the body read and the TRACE echo (`http_description`);
- both generations of the response engine:
  - `src/core/server/response.rs`, over `KeyVal` hash maps, with `stream` and the
    single-range `stream_by_chunk`;
  - the older `src/response.rs`, over ordered header vectors;
- the per-method post-processing of `method_handle`, the `Server` header and the log
  line;
- the supporting logic: the MIME table, both `KeyVal` maps, path normalisation, the
  permission-bit check, the calendar arithmetic of the date formats, template
  rendering, the TOML subset parser, the two command-line parsers and the
  configuration merge.

Sockets, the filesystem and the clock are replaced by plain values:

- The filesystem is a map from component lists to directories and files. A file has
  its bytes, its Unix mode bits and whether the process may open it (`FileSystem`).
- The client connection is a `Connection` object. Each `write_all` appends one run
  of bytes to it.
- The clock is a number of seconds since the epoch, passed as a parameter.
- The directory walk is the sequence of entries it returns, also a parameter.

Each state-changing method of the two `Response` classes is proved against a
function giving its whole new state from the old one. For example, `ServeFile`
ensures `St() == FileState(old(St()), ...)`. The bytes it writes are tied to the
final state by `Wire`. `Wire` holds for any iteration order of the header and
cookie hash maps, because that order is not fixed. Where the source panics (an
`unwrap` on `None`, `path[1..]` on an empty path), the model returns an outcome
that says so, and does not assume a precondition.

The model reproduces several quirks of the source as written. Each is stated by a
lemma:

- The readability check has no effect on what is sent. For a file with no read bit,
  `serve_file` leaves the 500 page as the body under status 200
  (`ResponseProperties.UnreadableFileServedUnder200`). It also leaves the file's path
  and size, so `stream` reads the file itself back into the body and sends it under
  200 (`ResponseProperties.UnreadableFileSentWhole`).
- For a hidden file, the 403 page is replaced on the wire by the first bytes of that
  hidden file (`ResponseProperties.HiddenFileReadInto403`).
- A range whose end is at or past the size gets 416 instead of being clamped
  (`Serving.EndPastSizeRefused`).
- `bytes=-n` is read as the first n + 1 bytes (`Serving.SuffixRangeReadAsPrefix`).
- The HEAD and 405 body clearing is undone by `stream`
  (`Servers.ClearedBodyReloaded`).
- The older engine panics on a file without an extension
  (`LegacyResponses.ExtensionlessFilePanics`).
- The `webp` entry carries `image/webm` (`FileTypes.WebpLookup`).
- `log_datetime` can print month 13 (`Utils.LogMonthThirteen`).

Two behaviours of the code that are easy to miss:

- `render` ignores the `Templates` it is called on and reads the built-in page texts
  through `from_enum` (src/templates.rs:64).
- The dotfile check of a directory listing has no `.well-known` exception
  (src/core/server/response.rs:191-196), unlike the one of a file
  (src/core/server/response.rs:95-106).

## Model

| member | source | states |
|---|---|---|
| Http.VersionAsStr | src/core/server/http.rs:10-17 | every version prints as eight characters "HTTP/d.d" |
| Http.VersionFromStr | src/core/server/http.rs:19-27 | a parsed version prints as "HTTP/" followed by the input; None exactly when no version does |
| Http.VersionRoundTrip | src/core/server/http.rs:10-27 | every version's text starts with "HTTP/", and parsing the rest gives the version back |
| Http.VersionTokens | src/core/server/http.rs:19-27 | the accepted tokens are exactly "1.0", "1.1", "2.0" and "3.0" |
| Http.ToCode | src/core/server/http.rs:31-107 | every status code lies in 100..599 |
| Http.CodeRoundTrip | src/core/server/http.rs:31-107 | the code determines the status: the inverse FromCode gives it back |
| Http.ToCodeInjective | src/core/server/http.rs:31-107 | distinct statuses have distinct codes |
| Http.ToMessage | src/core/server/http.rs:109-182 | every status has a non-empty reason phrase |
| Http.ReasonPhrases | src/core/server/http.rs:109-182 | 206 "Partial Content", 416 "Range Not Satisfiable", 405 "Method Not Allowed", 200 "OK" |
| Http.MethodAsStr | src/core/server/http.rs:199-211 | every name is three to seven upper-case letters |
| Http.MethodFromStr | src/core/server/http.rs:213-226 | a parsed method prints as the input; None exactly when no method prints as it |
| Http.MethodRoundTrip | src/core/server/http.rs:199-226 | from_str(as_str(m)) == Some(m) for all nine methods |
| Http.MethodParsingIsCaseSensitive | src/core/server/http.rs:213-225 | "get", "Get" and "" are not methods |
| Http.AllMethods | src/core/server/http.rs:228-240 | to_vec lists nine methods |
| Http.AllMethodsComplete | src/core/server/http.rs:228-240 | every method is in to_vec |
| Http.AllMethodsDistinct | src/core/server/http.rs:228-240 | to_vec lists each method once |
| Http.Immutable | src/core/server/http.rs:242-244 | four methods, none listed twice |
| Http.Mutable | src/core/server/http.rs:246-254 | five methods, none listed twice |
| Http.MethodClass | src/core/server/http.rs:242-254 | a method is immutable exactly when it is not mutable |
| Http.ImmutableMutablePartition | src/core/server/http.rs:228-254 | immutable and mutable are disjoint, their union is to_vec and their sizes add up to nine |
| Http.MethodNames | src/core/server/http.rs:256-260 | one name per method, in input order |
| Http.CommaSeparated | src/core/server/http.rs:256-262 | empty exactly for no methods; starts with the first method's name; a single method is its name alone |
| Http.CommaSeparatedCons | src/core/server/http.rs:256-262 | the first name, then ", " and the names of the rest |
| Http.CommaSeparatedImmutable | src/core/server/http.rs:242-262 | the immutable set joins as GET, HEAD, OPTIONS, TRACE with ", " between them |
| ServerConstants.Version | src/core/server/server.rs:18-19 | the server's name and version: "Katana 0.1.0" (version() itself is at server.rs:112-114) |
| Requests.DecodeStep | src/request.rs:143-164 | one loop turn consumes at least one character and emits the decoder's text for what it consumed |
| Requests.DecodeHead | src/request.rs:144-164 | the decoder's result is the piece for the head followed by the decoding of the rest |
| Requests.DecodeUrl | src/request.rs:137-170 | the loop computes the decoder Decode |
| Requests.DecodeNeverLonger | src/request.rs:143-165 | the decoded text is never longer than the input |
| Requests.DecodePlainText | src/request.rs:160-164 | a text without '%' and '+' passes through unchanged |
| Requests.HexDigit | src/request.rs:150 | the upper-case hex digit of a value below 16 parses back to it |
| Requests.PercentEncode | src/request.rs:144-153 | the encoder partner: three characters per input character |
| Requests.HexPair | src/request.rs:150 | two hex digits of a byte parse back to the byte |
| Requests.DecodeEncode | src/request.rs:143-165 | decoding a percent-encoded text gives it back |
| Requests.DecodeSpace | src/request.rs:144-153 | "%20" decodes to " " |
| Requests.DecodePlus | src/request.rs:160-161 | "a+b" decodes to "a b" |
| Requests.DecodeBadHexKept | src/request.rs:150-159 | "%zz" stays "%zz" |
| Requests.DecodeNoRescan | src/request.rs:144-159 | the two characters after '%' are consumed and not rescanned: "%%41" stays "%%41" |
| Requests.DecodeTrailingPercent | src/request.rs:146-158 | a trailing "%" or "%X" is emitted literally |
| Requests.DecodeSignedEscape | src/request.rs:150-151 | from_str_radix takes a leading '+': "%+5" is U+0005 |
| Requests.DecodeBytesNotUtf8 | src/request.rs:150-151 | each escape is one character: "%C3%A9" gives two characters |
| Requests.Pairs | src/request.rs:57-61 | at most one pair per part, and no key holds '=' (split at the first '=') |
| Requests.SplitPathQuery | src/request.rs:55-63 | the path holds no '?'; without '?' the path is the whole text and there are no queries |
| Requests.BlockEnd | src/request.rs:67-78 | the header block ends at the first line that is blank after trimming |
| Requests.HeadersOf | src/request.rs:79-83 | at most one header per line |
| Requests.LastValueFound | src/request.rs:85-87 | a Host (or Cookie) value is found exactly when some header name matches, case-insensitively |
| Requests.LastValueIsLast | src/request.rs:85-95 | the value taken is that of the last matching header |
| Requests.FirstValueIsFirst | src/request.rs:101-104 | content-length is the value of the first matching header |
| Requests.HeaderRoundTrip | src/request.rs:79 | "name: value" splits back into (name, value) when the name holds no ": " |
| Requests.AddHeaderLine | src/request.rs:79-95 | a line with ": " appends its header; domain and cookies follow the last Host and Cookie headers |
| Requests.ReadHeaders | src/request.rs:65-97 | the loop keeps the headers of the lines before the first blank one, in order, with domain and cookies from them |
| Requests.ReadBody | src/request.rs:99-122 | the body read computes BodyOf |
| Requests.FromStream | src/request.rs:20-135 | from_stream computes ParseRequest over the given lines and bytes |
| Requests.ShortRequestLineIsNone | src/request.rs:26-38 | an empty connection or fewer than three tokens gives None |
| Requests.RequestLineTokens | src/request.rs:30-43 | a line "METHOD target HTTP/x.y" with a whitespace-free target splits into exactly those three tokens, and the method and the version parse back |
| Requests.RequestLineRecovered | src/request.rs:30-63 | for such a request line the reader never panics, it returns a request exactly when the body can be read, and that request carries the method, the version, the headers, and the decoded target split into path and query pairs |
| Requests.UnknownMethodOrVersionPanics | src/request.rs:40-43 | an unknown method or version makes the reader panic |
| Requests.ParsedFieldsFromHeaders | src/request.rs:79-95 | the domain is the value of the last Host header, and empty when there is none; the cookies are the pairs of the last Cookie header, and none when there is none; the path holds no '?' |
| Requests.LastNamedValue | src/request.rs:85-95 | the header after which no header of that name follows is the one whose value is taken |
| Requests.BodyGatedOnMethodAndLength | src/request.rs:100-115 | only a supported method with a parseable content-length reads a body, of exactly that length; a short read gives None |
| Requests.HeaderLinesStep | src/request.rs:195-197 | each header appends its own trimmed line |
| Requests.EchoHeaders | src/request.rs:195-197 | the header loop of http_description gives the header lines in order |
| Requests.HttpDescription | src/request.rs:172-200 | http_description computes Description |
| Requests.DescriptionFirstLine | src/request.rs:176-181 | the first line of the echo is the request line when the path holds no line break |
| Requests.DescriptionOfBareRequest | src/request.rs:172-200 | with no queries and no headers the echo is the request line and CRLF |
| Requests.NoNewlineInRequestLine | src/request.rs:176-181 | the request line holds no '\n' when the path holds none |
| Utils.IsValidEntry | src/utils.rs:39-41 | valid exactly when the name is empty or its first character is not '.' |
| Utils.IsValidEntrySamples | src/utils.rs:39-41 | ".hidden_file" is not valid; "visible_file" and "" are |
| Utils.NormalizePath | src/utils.rs:43-55 | the loop computes Normalized, and the result holds no '\\' |
| Utils.StepsKeepNamesClean | src/utils.rs:45-53 | the names kept are never empty, "." or ".." |
| Utils.NormalizedNamesClean | src/utils.rs:43-55 | a normalised path has no empty, "." or ".." names |
| Utils.StepsAppend | src/utils.rs:45-53 | the loop over a concatenation is the loop over each part |
| Utils.StepsOfNames | src/utils.rs:45-53 | plain names are all kept, in order |
| Utils.NormalizeDotsAndParents | src/utils.rs:43-55 | "a/.././b/./f" normalises to "b/f" |
| Utils.NormalizeRepeatedSeparators | src/utils.rs:43-55 | "a//b//f" normalises to "a/b/f" |
| Utils.NormalizeCurrentThenParent | src/utils.rs:43-55 | "a/./b/../f" normalises to "a/f" |
| Utils.NormalizeParentAtTop | src/utils.rs:47-49 | ".." with nothing to pop is a no-op: "../a" is "a" |
| Utils.NormalizeParentAtRoot | src/utils.rs:47-49 | "/.." stays "/" |
| Utils.IsReadableFromMode | src/utils.rs:247-253 | readable exactly when the owner, group or other read bit is set |
| Utils.OnlyReadBitsMatter | src/utils.rs:247-253 | two modes with the same three read bits get the same answer: file-type, write and execute bits play no part |
| Utils.IsReadableSamples | src/utils.rs:247-253 | 0o644 and 0o004 are readable, 0o333 is not |
| Utils.MonthLength | src/utils.rs:91-104 | every month has 28 to 31 days |
| Utils.DaysBeforeMonthAll | src/utils.rs:91-104 | the twelve months add up to the year's length |
| Utils.CivilFromDays | src/utils.rs:75-111 | the two loops leave a civil date of the day count: month 0..11, day 1..month length |
| Utils.CivilBounds | src/utils.rs:84-111 | the day count lies inside the found year and the found month |
| Utils.CivilUnique | src/utils.rs:84-111 | the decomposition is unique, so the loops give the calendar date |
| Utils.DaysAsI32 | src/utils.rs:75-77 | `as i32` wraps into the signed range and is exact below 2^31 |
| Utils.TimeOfDayOf | src/utils.rs:114-117 | hours < 24, minutes < 60, seconds < 60, and they add up to the seconds of the day |
| Utils.RemT | src/utils.rs:191-198 | Rust's truncating remainder: strictly between -b and b, non-negative for a non-negative dividend |
| Utils.Weekday | src/utils.rs:183-202 | after the (h + 7) % 7 correction the weekday index is in 0..6 |
| Utils.EpochIsThursday | src/utils.rs:183-202 | 1970-01-01 is a Thursday |
| Utils.DatetimeRfc8601 | src/utils.rs:69-132 | the text of the civil date of `secs`, its time of day and its milliseconds |
| Utils.DatetimeRfc1123 | src/utils.rs:134-218 | the IMF-fixdate text of the civil date and time of `secs`, ending in " GMT" |
| Utils.LogStampOf | src/utils.rs:220-237 | year >= 1970, month 1..13, day 1..30, and the time of day of `secs` |
| Utils.ClockOfSecs | src/utils.rs:225-227 | minutes and seconds read from the whole count agree with the time of day |
| Utils.LogDatetime | src/utils.rs:220-239 | for years below 10000, 19 characters laid out as YYYY-MM-DD HH:MM:SS |
| Utils.LogMonthThirteen | src/utils.rs:231-232 | the log month reads 13 on day 360 |
| FileTypes.AllFileTypes | src/filetype.rs:18-54 | the table has 33 entries |
| FileTypes.Find | src/filetype.rs:57-59 | the entry found is in the table with that extension; None exactly when no entry has it |
| FileTypes.FromExtension | src/filetype.rs:56-60 | a returned type is a table entry whose extension is the lower-cased query; None exactly when none is |
| FileTypes.FromExtensionCaseInsensitive | src/filetype.rs:56-72 | lookup and support ignore case |
| FileTypes.IsSupportedIff | src/filetype.rs:70-72 | supported exactly when some entry carries the lower-cased extension |
| FileTypes.FindAt | src/filetype.rs:57-59 | find returns the first entry carrying the extension |
| FileTypes.JpgLookup | src/filetype.rs:28-29 | "jpg" is image/jpeg |
| FileTypes.JpegLookup | src/filetype.rs:28-29 | "JPEG" is image/jpeg |
| FileTypes.WebpLookup | src/filetype.rs:34 | "webp" gives the table's "image/webm" |
| FileTypes.UnlistedExtensions | src/filetype.rs:18-72 | "htm" and "bin" are not supported |
| FileTypes.UnlistedIsUnsupported | src/filetype.rs:56-72 | a lower-case extension the table does not carry is not supported |
| FileTypes.IsBinaryExtension | src/filetype.rs:74-80 | true exactly when the lower-cased extension is in the listed set |
| FileTypes.IsBinaryExtensionCaseInsensitive | src/filetype.rs:74-80 | the binary check ignores case |
| FileTypes.ContentDisposition | src/filetype.rs:82-90 | "inline" exactly for the listed set, "attachment" otherwise |
| FileTypes.FallbackIsAttachment | src/core/server/response.rs:114-118 | the "bin" fallback is sent as an attachment |
| KeyValStore.KeyVal.constructor | src/core/utils/keyval.rs:15-19 | a new map is empty |
| KeyValStore.KeyVal.Add | src/core/utils/keyval.rs:25-27 | get(k) is the new value, the previous value is returned, other keys are unchanged, len grows exactly when k was absent |
| KeyValStore.KeyVal.Del | src/core/utils/keyval.rs:29-31 | returns the old value; afterwards k does not exist; other keys are unchanged; len shrinks exactly when k was there |
| KeyValStore.KeyVal.Get | src/core/utils/keyval.rs:33-39 | get is Some exactly when exists, with the stored value |
| KeyValStore.KeyVal.Len | src/core/utils/keyval.rs:45-51 | len is 0 exactly when is_empty |
| KeyValStore.KeyVal.Clear | src/core/utils/keyval.rs:53-55 | afterwards the map is empty, len is 0 and no key exists |
| LegacyKeyValStore.KeyVal.constructor | src/keyval.rs:9-13 | a new map is empty |
| LegacyKeyValStore.KeyVal.Add | src/keyval.rs:15-17 | get(k) is the new value, the previous value is returned, other keys are unchanged, a repeated key does not grow len |
| LegacyKeyValStore.KeyVal.Del | src/keyval.rs:19-21 | returns the old value, makes k absent, leaves other keys |
| LegacyKeyValStore.KeyVal.Get | src/keyval.rs:23-29 | get is Some exactly when exists, with the stored value |
| LegacyKeyValStore.KeyVal.Len | src/keyval.rs:35-41 | len is 0 exactly when is_empty |
| LegacyKeyValStore.KeyVal.Clear | src/keyval.rs:43-45 | afterwards is_empty holds and len is 0 |
| Templating.FromEnum | src/templates.rs:30-52 | from_enum is Some for every page, with the loaded text of that page |
| Templating.Placeholder | src/templates.rs:80 | "{{" + key + "}}" |
| Templating.Render | src/templates.rs:54-86 | the loop substitutes the parameters in iteration order into the built-in page text |
| Templating.SubstituteNoParams | src/templates.rs:64-85 | with no parameters the page text comes back unchanged |
| Templating.Substitute | src/templates.rs:71-82 | parameters whose values are all empty leave the text as it is, placeholders included |
| Templating.SubstituteDropsEmpty | src/templates.rs:73-78 | dropping every parameter with an empty value does not change the result |
| Templating.SubstituteSkipsEmpty | src/templates.rs:73-78 | a parameter with an empty value can be dropped without changing the result |
| Templating.SubstituteKeepsUnmatched | src/templates.rs:72-82 | a text holding none of the parameters' placeholders is unchanged |
| Templating.SubstituteSingle | src/templates.rs:80-81 | the text is placeholder-free pieces joined by the placeholder, and the result is those pieces joined by the value, so every occurrence is replaced; the value then appears whenever the placeholder did |
| Templating.MockBannerWithName | src/templates.rs:54-86 | "Welcome, {{username}}!" with username Alice contains "Alice" |
| Templating.MockBannerWithEmptyName | src/templates.rs:73-78 | an empty username leaves the placeholder |
| Templating.MockErrorWithoutParams | src/templates.rs:64-85 | an unrendered placeholder stays in the text |
| Toml.DigitRun | src/core/utils/toml.rs:58 | the leading run of decimal digits (float literal syntax) |
| Toml.ParseValue | src/core/utils/toml.rs:53-71 | an integer comes from an i64 text, a float keeps its literal, a boolean comes only from "true"/"false", an array only from brackets; neither the value nor an array item is ever a table |
| Toml.ReadLine | src/core/utils/toml.rs:28-49 | a line never removes a name from the data, and only a bracketed line changes the section |
| Toml.ReadLines | src/core/utils/toml.rs:28-50 | the line loop never removes a name from the data |
| Toml.TomlParser.constructor | src/core/utils/toml.rs:20-24 | a new parser has no data |
| Toml.TomlParser.Parse | src/core/utils/toml.rs:26-51 | the line loop computes ReadLines from no section |
| Toml.TomlParser.GetValue | src/core/utils/toml.rs:73-75 | Some exactly when the key is at the top level, with its value |
| Toml.NestedValue | src/core/utils/toml.rs:77-82 | table[k] when data[s] is a table holding k; None otherwise |
| Toml.TomlParser.GetNestedValue | src/core/utils/toml.rs:77-82 | get_nested_value is NestedValue of the data |
| Toml.BlankAndCommentLinesSkipped | src/core/utils/toml.rs:29-33 | blank and '#' lines do not change the state |
| Toml.SectionLineStartsEmptyTable | src/core/utils/toml.rs:35-37 | a "[name]" line makes name current and stores a fresh empty table, dropping its earlier keys |
| Toml.EntryLineSplitsAtFirstEquals | src/core/utils/toml.rs:38 | "k = v" splits at the first '=': the key part holds none |
| Toml.EntryLineStores | src/core/utils/toml.rs:38-48 | after an entry line the parsed value is found under the unquoted key: by get_nested_value in the current section when it holds a table, else by get_value; the section is kept |
| Toml.StoreEntryLands | src/core/utils/toml.rs:44-48 | the entry goes into the current section's table if there is one, otherwise to the top level |
| Toml.EntryKeyUnquotes | src/core/utils/toml.rs:39-42 | a plain key is only trimmed; a quoted key loses its quotes |
| Toml.QuotedWinsOverNumber | src/core/utils/toml.rs:54-55 | a quoted value is a string even when it reads as a number |
| Toml.QuotesStripped | src/core/utils/toml.rs:55 | trim_matches('"') removes the surrounding quotes |
| Toml.ParseValueDecisions | src/core/utils/toml.rs:53-61 | a quoted text is a string, an unquoted i64 text is that integer, an unquoted float literal that is no i64 is a float, "true" and "false" are booleans |
| Toml.IntegerRoundTrip | src/core/utils/toml.rs:56-57 | every i64 written in decimal reads back as that integer |
| Toml.BooleanRoundTrip | src/core/utils/toml.rs:60-61 | "true" and "false" read back as booleans |
| Toml.CapitalisedBooleanIsString | src/core/utils/toml.rs:60-69 | "True" is a raw string |
| Toml.WordIsNoNumber | src/core/utils/toml.rs:54-60 | a word starting with a letter (not three or eight long) is no string literal, integer or float |
| Toml.FractionIsFloat | src/core/utils/toml.rs:58-59 | "1.5" is a float |
| Toml.NanIsFloat | src/core/utils/toml.rs:58-59 | "nan" is a float |
| Toml.EmptyBracketsHoldEmptyString | src/core/utils/toml.rs:62-67 | "[]" is an array of one empty string |
| Toml.BracketedItems | src/core/utils/toml.rs:62-67 | a bracketed non-scalar is an array of its trimmed comma-separated parts, each parsed |
| Toml.EmptyIsString | src/core/utils/toml.rs:68-69 | "" is a raw string |
| LegacyConfig.Defaults | src/config.rs:23-30 | port 8080, root "public", worker 4 |
| LegacyConfig.ParseArgs | src/config.rs:22-76 | the argument loop from index 1 computes ParseFrom over the defaults |
| LegacyConfig.UnrecognisedArgumentsKeepDefaults | src/config.rs:32-68 | arguments with no recognised flag change nothing |
| LegacyConfig.ParseKeepsRanges | src/config.rs:32-68 | the port stays a u16 and the worker above 1 whenever they start so |
| LegacyConfig.PortValueReplacesEarlier | src/config.rs:35-40 | a later --port replaces an earlier one; an invalid value resets to 8080 |
| LegacyConfig.WorkerNeedsMoreThanOne | src/config.rs:53-64 | --worker changes only the worker, and only to a parsed value above 1 |
| LegacyConfig.InvalidPortKeepsDefaults | src/config.rs:35-40 | "--port invalid_port" keeps the defaults |
| LegacyConfig.LargePortKeepsDefaults | src/config.rs:35-40 | "--port 65536" keeps the defaults |
| LegacyConfig.LastPortWins | src/config.rs:32-68 | "--port 9090 --port 5000" gives 5000 |
| LegacyConfig.NegativeWorkerKeepsDefault | src/config.rs:53-64 | "--worker -1" keeps 4 |
| LegacyConfig.WorkerEightAccepted | src/config.rs:53-64 | "--worker 8" gives 8 |
| ArgConfig.ParseU16Opt | src/core/config/arg.rs:27 | `parse().ok()` for a port |
| ArgConfig.ParseI32Opt | src/core/config/arg.rs:45 | `parse().ok()` for a worker count |
| ArgConfig.Finish | src/core/config/arg.rs:60-68 | unset fields become empty host, port 0 and so on; an absent level becomes INFO |
| ArgConfig.ParseArgs | src/core/config/arg.rs:11-69 | the loop from index 1 computes Finish of ParseFrom |
| ArgConfig.NoArgumentsGiveUnsetSource | src/core/config/arg.rs:60-68 | no arguments: empty host, port 0, empty root, worker 0, INFO |
| ArgConfig.InvalidValueResets | src/core/config/arg.rs:25-30 | an invalid --port or --worker value resets the field to unset |
| ArgConfig.LaterFlagReplacesEarlier | src/core/config/arg.rs:25-54 | a repeated --port, --document-root, --host, --worker or --log-level: the second value alone decides the field, whatever the first was |
| ArgConfig.RepeatedFlagLastWins | src/core/config/arg.rs:19-58 | in an argument list, a value flag given twice in a row parses as if only the second occurrence were there |
| ArgConfig.LogLevelIsCaseInsensitive | src/core/config/arg.rs:49-54 | "debug" selects DEBUG; an unknown level is unset |
| ArgConfig.HelpFlagSticks | src/core/config/arg.rs:22-24 | once --help or -h is seen, the help flag stays set |
| ArgConfig.ArgumentsDecideLogLevel | src/core/config/config.rs:28 | the arguments source, merged last, decides the final log level |
| ConfigMerge.LogLevelFromStr | src/core/config/arg.rs:51 | a level parses exactly from DEBUG, INFO, WARN or ERROR |
| ConfigMerge.LoadAppend | src/core/config/config.rs:22-30 | folding one more source merges it into the fold so far |
| ConfigMerge.LoadIsLastSet | src/core/config/config.rs:22-30 | each field is that of the last source that sets it, else the default; the level is the last source's |
| ConfigMerge.LastSetStep | src/core/config/config.rs:24-27 | a new last source is read first for each field |
| ConfigMerge.MergeIdempotent | src/core/config/config.rs:22-30 | merging the same source twice is merging it once |
| ConfigMerge.MergeUnsetSource | src/core/config/config.rs:24-28 | a source with every field unset changes only the log level |
| Serving.RelativeTo | src/core/server/response.rs:90-93 | the path stripped of the root, or "/" when it is not below it |
| Serving.ErrorParams | src/core/server/response.rs:255-261 | three parameters with distinct names and non-empty values, so render skips none of them |
| Serving.ErrorPage | src/core/server/response.rs:254-266 | an error template holding none of the status_code, status_text and error_message placeholders is sent as its own bytes |
| Serving.DirectoryPage | src/core/server/response.rs:238-244 | a listing template holding neither the folder nor the directory_content placeholder is sent as its own bytes |
| Serving.WellKnownServed | src/core/server/response.rs:95-106 | a file under ".well-known/" is refused only for a hidden name |
| Serving.HiddenDirectoryRefused | src/core/server/response.rs:95-100 | a file in a hidden directory is refused whatever its name |
| Serving.VisibleFileServed | src/core/server/response.rs:95-106 | a visible name under a visible path is never refused |
| Serving.DirectoryForbiddenIff | src/core/server/response.rs:191-196 | with the inserted '/', a listing is refused exactly when the stripped path starts with "." |
| Serving.Href | src/core/server/response.rs:223 | strip_prefix succeeds exactly when the path starts with the root, and gives the rest |
| Serving.ItemsDefinedIff | src/core/server/response.rs:222-236 | the items can be written exactly when every path is under the root |
| Serving.PushItems | src/core/server/response.rs:222-228 | the push loop appends one item per pair, and fails exactly where an unwrap panics |
| Serving.BuildListing | src/core/server/response.rs:214-236 | the ".." link, the empty-folder item, then the folders and the files |
| Serving.ItemsPrefixNone | src/core/server/response.rs:222-236 | once a prefix of the pairs fails, so do all the pairs |
| Serving.CookieLinesStep | src/core/server/response.rs:291-293 | each cookie appends its Set-Cookie line |
| Serving.WireBodyAfterBlankLine | src/core/server/response.rs:307-315 | the body follows the description and the blank line unchanged |
| Serving.StatusLineCode | src/core/server/response.rs:279-284 | the three characters after the version are the status code, and they parse back to it |
| Serving.ThreeDigits | src/core/server/http.rs:31-102 | every status code has three digits |
| Serving.HeaderLinesAppend | src/core/server/response.rs:287-289 | the header lines of two runs are those of each run in order |
| Serving.EnumeratedHeaderListed | src/core/server/response.rs:287-289 | whatever the iteration order, every header of the map has its line in the description |
| Serving.EnumerateMap | src/core/server/response.rs:287 | HashMap::iter lists every entry exactly once, in some order |
| Serving.EnumerationLength | src/core/server/response.rs:287 | an enumeration has one pair per key |
| Serving.DistinctKeysCount | src/core/server/response.rs:287 | pairs with distinct keys have as many keys as pairs |
| Serving.Connection.constructor | src/core/server/response.rs:317 | nothing has been written yet |
| Serving.Connection.Write | src/core/server/response.rs:327 | write_all appends its bytes to what was sent |
| Serving.FlattenAppend | src/core/server/response.rs:327 | the bytes sent are the writes in order |
| Serving.ParseRange | src/core/server/response.rs:421-439 | no "bytes=" prefix, or not exactly two fields, is Malformed (400); a satisfiable range has start <= end < size |
| Serving.SplitNoDash | src/core/server/response.rs:428 | a value without '-' is one field |
| Serving.SplitAtDash | src/core/server/response.rs:428 | around one '-', the split gives the two sides |
| Serving.RangeFields | src/core/server/response.rs:428 | "bytes=x-y" splits into x and y when x holds no '-' |
| Serving.RangeOfFields | src/core/server/response.rs:436-439 | an unparseable start is 0, an unparseable end is size - 1, then the 416 test |
| Serving.NoStartField | src/core/server/response.rs:436-437 | without a first field the range starts at 0 |
| Serving.ClosedRangeSelected | src/core/server/response.rs:436-439 | "bytes=a-b" within the file selects exactly a..b |
| Serving.OpenEndedRange | src/core/server/response.rs:437 | "bytes=a-" runs to the last byte |
| Serving.SuffixRangeReadAsPrefix | src/core/server/response.rs:436-437 | "bytes=-n" is read as 0..n, not as the last n bytes |
| Serving.EndPastSizeRefused | src/core/server/response.rs:439 | an end at or past the size is refused (416), not clamped |
| Serving.RangeBytes | src/core/server/response.rs:469-480 | the bytes of the range the file holds: at most end - start + 1 of them |
| Responses.ListingForbidden | src/core/server/response.rs:191-196 | a refused listing path gives the 403 page |
| Responses.ListingRendered | src/core/server/response.rs:203-251 | with the maps enumerated, an allowed listing path gives the rendered listing as a 200 text/html page, or a panic |
| Responses.IsForbidden | src/core/server/response.rs:95-106 | the two refusals of serve_file compute FileForbidden |
| Responses.ChunkedSentFailed | src/core/server/response.rs:363-373 | a failed stream_by_chunk is followed by the whole 500 response |
| Responses.WireOf | src/core/server/response.rs:307-315 | a description of the state, a blank line and the body are what is written |
| Responses.WireBytesAppend | src/core/server/response.rs:447-448 | the head written alone, then the body, equals the whole |
| Responses.SendAll | src/core/server/response.rs:486-494 | the unranged loop sends the whole file in non-empty writes of at most 1024 bytes |
| Responses.SendRange | src/core/server/response.rs:466-480 | the ranged loop sends exactly the range bytes the file holds, in non-empty writes of at most 1024 bytes |
| Responses.Response.constructor | src/core/server/response.rs:34-50 | HTTP/1.1, 200, no headers or cookies, an empty body, size 0, no flags |
| Responses.Response.ServeErrorResponse | src/core/server/response.rs:254-273 | the status, the rendered error page as body, text/html as the only header, size = body length |
| Responses.Response.ServePage | src/core/server/response.rs:263-272 | the page as the html body of the status, its length as the size |
| Responses.Response.SetHtmlOnly | src/core/server/response.rs:268-270 | the headers are exactly Content-Type: text/html |
| Responses.Response.RenderErrorPage | src/core/server/response.rs:255-267 | the error template rendered with the code, the reason phrase and the message |
| Responses.Response.ServeFile | src/core/server/response.rs:82-167 | serve_file computes FileState: 403 for hidden paths and names, 404 when the file does not open, otherwise the found file |
| Responses.Response.ServeOpened | src/core/server/response.rs:108-166 | from the path assignment on: 404, or the opened file |
| Responses.Response.ServeNode | src/core/server/response.rs:121-146 | an unreadable file gets the 500 page, then the found-file state |
| Responses.Response.SetFound | src/core/server/response.rs:132-163 | size, streaming above 1 MiB, status 200 and the file headers |
| Responses.Response.SetFileHeaders | src/core/server/response.rs:146-163 | cleared headers; with an extension, its content type and disposition |
| Responses.Response.ServeDirectory | src/core/server/response.rs:169-252 | serve_directory leaves a listing state for some iteration order of its maps, or a panic |
| Responses.Response.ListDirectory | src/core/server/response.rs:198-251 | past the 403 check: the two maps, the listing and the page |
| Responses.Response.ServeListing | src/core/server/response.rs:238-251 | the rendered listing page as a 200 text/html response of its own size |
| Responses.Response.Serve | src/core/server/response.rs:52-80 | index.html of a directory is served as a file, a directory without it gets a listing, a file is served, anything else is 404; an unservable path panics |
| Responses.Response.HttpDescription | src/core/server/response.rs:275-296 | the status line, one line per header, one Set-Cookie line per cookie, in some iteration order |
| Responses.Response.ToBytes | src/core/server/response.rs:307-315 | a description, a blank line, then the body |
| Responses.Response.SendWhole | src/core/server/response.rs:327 | to_bytes sent in one write |
| Responses.Response.SendError | src/core/server/response.rs:388-391 | the error state, then the whole response written |
| Responses.Response.SendHead | src/core/server/response.rs:462-463 | the description and the blank line, as two writes |
| Responses.Response.ParseRangeHeader | src/core/server/response.rs:421-439 | computes ParseRange for the current size |
| Responses.Response.SendUnranged | src/core/server/response.rs:481-495 | the head, then the whole file; reading a directory fails |
| Responses.Response.SendPartial | src/core/server/response.rs:453-480 | 206 with Content-Range and the range length, the head, then the range bytes |
| Responses.Response.SetPartial | src/core/server/response.rs:453-460 | 206, Content-Range "bytes start-end/size", Content-Length end - start + 1 |
| Responses.Response.SetUnsatisfied | src/core/server/response.rs:442-446 | 416 with Content-Range "bytes */size" |
| Responses.Response.SendUnsatisfied | src/core/server/response.rs:439-450 | 416, the head and the blank line, and no body |
| Responses.Response.SendRanged | src/core/server/response.rs:421-480 | 400, 416 or 206 for the parsed range, with what each writes |
| Responses.Response.StreamByChunk | src/core/server/response.rs:378-500 | stream_by_chunk computes ChunkState; it fails exactly when it reads a directory |
| Responses.Response.SendOpenFile | src/core/server/response.rs:403-495 | once the file is open: Accept-Ranges, then the ranged or unranged answer |
| Responses.Response.SetAccept | src/core/server/response.rs:403-408 | Content-Length for the size and Accept-Ranges: bytes |
| Responses.Response.SendCompiled | src/core/server/response.rs:323-336 | a compiled body is sent whole; an empty one is replaced by the 500 page |
| Responses.Response.SendBuffered | src/core/server/response.rs:338-361 | 404 when the file does not open; otherwise `size` bytes read into the body and sent, or an error when fewer exist |
| Responses.Response.SendRead | src/core/server/response.rs:353-360 | reads `size` bytes of the opened file into the body and sends the response |
| Responses.Response.Stream | src/core/server/response.rs:317-376 | stream computes StreamState; it fails exactly when the buffered read fails |
| Responses.Response.SetLength | src/core/server/response.rs:320-321 | Content-Length is overwritten with the size first |
| Responses.Response.StreamChunked | src/core/server/response.rs:363-373 | a failure of stream_by_chunk is answered with the 500 page |
| Responses.SplitEntries | src/core/server/response.rs:203-212 | the loop builds the folder and file maps of the walk |
| Responses.EnumerationExists | src/core/server/response.rs:222 | every map has an iteration order |
| Responses.EnumerationSnoc | src/core/server/response.rs:206-212 | adding a new key extends an enumeration by its pair |
| ResponseProperties.ErrorStateShape | src/core/server/response.rs:254-273 | the status asked for, exactly one header (text/html), the page as body, size = body length, everything else kept |
| ResponseProperties.UnreadableFileServedUnder200 | src/core/server/response.rs:125-146 | an unreadable file gets the 500 page as body but status 200, the file headers and the file's size |
| ResponseProperties.UnreadableFileState | src/core/server/response.rs:108-146 | a visible, openable file with no read bit gets the 500 page, then the found-file state, with the path set to it |
| ResponseProperties.BufferedReadsWholeFile | src/core/server/response.rs:338-360 | a buffered response whose size is that of the file at its path gets the whole file as body, keeps its status, and stream does not fail |
| ResponseProperties.UnreadableFileSentWhole | src/core/server/response.rs:123-146 | an openable file of at most 1 MiB with no read bit gets the 500 page as body, yet stream sends the file's own bytes under 200 |
| ResponseProperties.StreamingThreshold | src/core/server/response.rs:134-143 | streaming is on exactly when it was or the file exceeds 1,048,576 bytes |
| ResponseProperties.OpenedFileState | src/core/server/response.rs:108-163 | a visible, openable, readable file gets the found-file state with the path set to it |
| ResponseProperties.BufferedStream | src/core/server/response.rs:338-361 | stream on a buffered response reads the file at its path; it fails exactly when the read does |
| ResponseProperties.SmallFileSentWhole | src/core/server/response.rs:82-167 | a readable file of at most 1 MiB is sent with 200, its bytes as body and Content-Length = body length |
| ResponseProperties.HiddenFileReadInto403 | src/core/server/response.rs:95-106 | a hidden file gets 403, but stream sends its first page-length bytes as the body |
| ResponseProperties.EmptyCompiledBodyIs500 | src/core/server/response.rs:323-330 | a compiled response with an empty body becomes the 500 page |
| ResponseProperties.SatisfiableRangeSent | src/core/server/response.rs:454-480 | 206, Content-Range, Content-Length end - start + 1, Accept-Ranges, and exactly the bytes start..end after the head |
| ResponseProperties.PartialHeaders | src/core/server/response.rs:403-460 | after Accept-Ranges and a satisfiable range: 206, Content-Range, Content-Length end - start + 1 and Accept-Ranges: bytes |
| ResponseProperties.SatisfiableDecision | src/core/server/response.rs:453-480 | a satisfiable range leaves the 206 state and writes its head and the bytes |
| ResponseProperties.UnrangedSendsWholeFile | src/core/server/response.rs:481-495 | with no Range header the whole file follows the head, with Accept-Ranges: bytes |
| ResponseProperties.WireTail | src/core/server/response.rs:307-315 | what is written ends with the body |
| ResponseProperties.EnumeratedItemsDefined | src/core/server/response.rs:222-236 | an enumeration can be listed exactly when every path of its map is under the root |
| ResponseProperties.ListingPanicsIff | src/core/server/response.rs:193-236 | in any iteration order, the listing panics exactly when it is allowed and some path is not under the root |
| ResponseProperties.DirMapHolds | src/core/server/response.rs:206-212 | the folder map holds exactly the walk's directory names, each with the path of its last entry; likewise for files |
| LegacyResponses.Response.constructor | src/response.rs:23-35 | HTTP/1.1, 200, no headers or cookies, an empty body |
| LegacyResponses.Response.Serve | src/response.rs:37-54 | index.html of a directory is served as a file, a directory without it gets a listing, a file is served, anything else is 404; ok is false exactly where the source panics |
| LegacyResponses.Response.ServeFile | src/response.rs:56-110 | 403 for hidden paths and names, then the opened file |
| LegacyResponses.Response.ServeOpened | src/response.rs:79-109 | 404 when the file does not open, a panic without an extension, 500 when the read fails, else the file read |
| LegacyResponses.Response.ServeRead | src/response.rs:89-103 | 200, the content as body, headers [Content-Type, Content-Length, Content-Disposition] in that order |
| LegacyResponses.Response.ServeDirectory | src/response.rs:112-181 | 403 for a hidden listing path, otherwise the listing page with folders before files in walk order; a panic for a path not under the root |
| LegacyResponses.Response.ServeErrorResponse | src/response.rs:183-202 | the error page with headers exactly [Content-Type: text/html, Content-Length] |
| LegacyResponses.Response.ServePage | src/response.rs:192-201 | the status, the page as body, the html headers |
| LegacyResponses.Response.HttpDescription | src/response.rs:204-232 | the status line, the header lines in vector order, then the cookie lines |
| LegacyResponses.Response.ToBytes | src/response.rs:243-251 | the description, a blank line and the body |
| LegacyResponses.SplitWalk | src/response.rs:132-141 | the loop pushes the directories and the other entries in walk order |
| LegacyResponses.PageAnnounces | src/response.rs:197-201 | an html page announces its own length |
| LegacyResponses.OpenedAnnounces | src/response.rs:79-109 | every answer to an opened file announces its body length |
| LegacyResponses.ReadAnnounces | src/response.rs:94-103 | a file read announces its length as the second header |
| LegacyResponses.FileAnnounces | src/response.rs:56-110 | every answer of serve_file announces its body length |
| LegacyResponses.ListingAnnounces | src/response.rs:112-181 | every listing answer announces its body length |
| LegacyResponses.ServeAnnouncesLength | src/response.rs:37-202 | whatever serve answers, Content-Length is the body length |
| LegacyResponses.OpenedStatus | src/response.rs:79-109 | past the dotfile checks, 200 comes exactly from a read of an opened file, and 403 never |
| LegacyResponses.FileOkIff | src/response.rs:56-110 | 200 exactly when the file is visible, opens, has an extension and is read; the body is the file and the headers are its type's |
| LegacyResponses.CoreOpenedNotForbidden | src/core/server/response.rs:108-166 | the newer serve_file past its dotfile checks never answers 403 |
| LegacyResponses.DotfilePolicyShared | src/response.rs:66-77 | both generations refuse exactly the same files with 403 |
| LegacyResponses.ExtensionlessFilePanics | src/response.rs:81 | a visible file without an extension panics here; the newer engine serves it with 200 and no Content-Type |
| LegacyResponses.WalkPairsAppend | src/response.rs:135-141 | the pairs of a concatenation are those of the parts, in order |
| LegacyResponses.WalkPairsCount | src/response.rs:135-141 | every entry goes to exactly one of the two vectors |
| LegacyResponses.WalkPairsEnumerate | src/response.rs:132-141 | with distinct names, each vector is an iteration order of the newer engine's map |
| LegacyResponses.SameListingAsCore | src/response.rs:112-181 | with distinct names, the older listing page is one the newer engine may serve |
| LegacyResponses.BytesLayout | src/response.rs:204-251 | status line, header lines, cookie lines, blank line, body |
| LegacyResponses.HeaderLineInPlace | src/response.rs:216-221 | each header's line sits after those of the headers pushed before it |
| Servers.MethodHandle | src/core/server/server.rs:120-195 | method_handle computes MethodState; for OPTIONS the date is that of the clock |
| Servers.AnswerOptions | src/core/server/server.rs:130-153 | the OPTIONS block: no body, the OPTIONS headers |
| Servers.AnswerTrace | src/core/server/server.rs:155-181 | the TRACE block: 200, the echo as body, its type and length |
| Servers.RejectMethod | src/core/server/server.rs:183-194 | the 405 block: no body, Allow only, 405 |
| Servers.SetOptionsHeaders | src/core/server/server.rs:134-148 | Date, Allow, Access-Control-Allow-Origin and Access-Control-Allow-Methods set, others kept; the date is that of the clock |
| Servers.TraceHeaders | src/core/server/server.rs:163-177 | headers exactly Content-Type: message/http and Content-Length of the body |
| Servers.SetAllowOnly | src/core/server/server.rs:187-191 | headers exactly Allow with the supported methods |
| Servers.ServerTransformation | src/core/server/server.rs:116-118 | the Server header is set to the version |
| Servers.EchoHasLines | src/core/server/server.rs:198-204 | the echo always has a first line, so the unwrap does not panic |
| Servers.AllowedMethodsText | src/core/server/server.rs:20-25 | Allow lists GET, HEAD, OPTIONS, TRACE joined by ", " |
| Servers.MethodKeepsTheRest | src/core/server/server.rs:120-195 | only the status, the headers and the body change |
| Servers.MethodStatus | src/core/server/server.rs:155-194 | the status becomes 200 for TRACE and 405 outside the supported set, and is kept otherwise |
| Servers.GetAndHead | src/core/server/server.rs:121-128 | GET leaves the response untouched, and HEAD on the same request answers as GET with the body dropped |
| Servers.OptionsAnswer | src/core/server/server.rs:130-153 | OPTIONS keeps the status, empties the body, sets Date, Allow, "*" and the allowed methods, keeps other headers |
| Servers.TraceAnswer | src/core/server/server.rs:155-181 | TRACE gives 200 with exactly the message/http type and the body length |
| Servers.TraceEcho | src/core/server/server.rs:172 | the TRACE body is CRLF followed by the request's echo, whose first line is the request line |
| Servers.LogLine | src/core/server/server.rs:197-212 | the line starts with a quote and ends with the quote, the status code and the size |
| Servers.LogLineQuotesRequestLine | src/core/server/server.rs:197-212 | the log line is the quoted request line, the code and the size |
| Servers.RejectedMethod | src/core/server/server.rs:183-194 | a method outside the supported set ends with no body, headers exactly {Allow}, and 405 |
| Servers.RejectedIffMutable | src/core/server/server.rs:20-25 | a method is rejected exactly when it is mutable |
| Servers.MethodHandleIdempotent | src/core/server/server.rs:120-195 | handling the same request twice answers as handling it once |
| Servers.ServerHeader | src/core/server/server.rs:112-118 | Server is "Katana 0.1.0", overwriting any previous value; nothing else changes |
| Servers.ClearedBodyReloaded | src/core/server/response.rs:338-356 | after HEAD or a rejected method, stream still reads the file back into the body of a buffered response |

## Left out

- Networking and concurrency: the TCP listener, the accept loop, the thread per connection and all of `src/server.rs`. The wiring of `handle_request`/`handle_response` that calls `serve`, `method_handle`, `server_transformation`, `stream` and `log_response` in turn is not modelled as one method; each step is.
- The logger: every `Logger` call and `src/logger.rs`. Log output has no effect on the response. `log_response` is modelled as the text it would log (`Servers.LogLine`).
- The real filesystem: `File::open`, `fs::metadata`, `read_dir`, `walk_dir`, `collect_entries` and `is_readable`. They are replaced by the `Fs` value, and the walk by the entries it returns. `read_to_end` failing in the older engine is the parameter `readFails`.
- `SystemTime::now`, the `TZ` environment read and `unix_timestamp`. The clock is an argument in seconds (and milliseconds).
- `path_prettifier`: it only changes separators for display in log messages.
- `to_string` of both responses: it runs the body through lossy UTF-8 decoding. `to_bytes` is modelled instead.
- The order of `HashMap` iteration. Header, cookie and directory-listing orders of the newer engine are left open (any enumeration), and properties hold for all of them.
- Serving.ErrorPage, Serving.DirectoryPage: the template parameters are substituted in insertion order. For the listing page that is "folder", then "directory_content". The source keeps them in a `HashMap`, so it may substitute in the other order. The two orders can give different pages when one value contains the other's placeholder, e.g. a listed file named `{{folder}}`.
- `flush` and write errors on the socket: every write is taken to succeed. Read errors are modelled: reading a directory, and a buffered read shorter than `size`.
- The `expect` on `fs::metadata` in `serve_file`: the model's files always have metadata.
- Requests.FromStream, Requests.ReadHeaders: the lines are given as text. `read_line(..).ok()?` returns None on a read error or on bytes that are not valid UTF-8 (src/request.rs:26 and 69); the model has no such failure.
- Requests.ReadBody: the body is kept as raw bytes. The source's lossy UTF-8 decoding into a `String` (src/request.rs:112) is not modelled, so bytes of 0x80 and above are not replaced by U+FFFD.
- Serving.ParseRange: for an empty file the default end `size - 1` is taken to wrap to `usize::MAX`, as a release build does; a debug build panics there. The ranged path is reached only after `serve_file` turned streaming on for a file over 1 MiB (`ResponseProperties.StreamingThreshold`), so the case does not arise after `serve`.
- Serving.RelativeTo, Paths.StripPrefix: the rest of the path after the root is spelled from its components with single separators. `Path::strip_prefix` (src/core/server/response.rs:90 and 186, src/response.rs:61 and 119) returns the original text of the remaining components, trimmed only at its ends, so internal "//" and "/./" are kept there. A request for `/a//b/` naming a directory is listed with the folder "/a//b" by the source and "/a/b" by the model. Only the folder text of a listing page differs: the dotfile checks look at the leading piece, which both spell the same.
- `src/core/config/env.rs`, `file.rs` and `default.rs`: environment and file reads and platform constants. The merge takes their results as sources.
- `include_str!` loading of the page templates: the built-in texts are a parameter (`pages`).
- `LogLevel::from_str` is outside the shown sources. `ConfigMerge.LogLevelFromStr` takes it to accept exactly the four upper-case level names.
- Toml.ParseValue: floating-point values are kept as their literal text. Float parsing is modelled as a syntactic predicate (`FloatLiteral`: Rust's decimal, exponent, inf and nan forms), not as a binary `f64`.
- Text.ToLower, Text.ToUpper: exact on ASCII and on the few non-ASCII characters that map onto ASCII letters. Full Unicode case mapping is not modelled, which does not affect comparisons with the ASCII tokens the source uses.
- Responses.Response.HttpDescription: states the description for some iteration order of the maps, not a particular one, because `HashMap` order is unspecified.
- Responses.Response.Serve, LegacyResponses.Response.Serve and the directory methods: where the source panics (`path[1..]` on an empty or non-ASCII-first path, `strip_prefix(..).unwrap()` in the listing, `extension().unwrap()`), the method returns `ok == false`. It does not model the unwinding.
- Servers.MethodHandle: the OPTIONS date is stated as some IMF-fixdate of the clock's civil date (`DateAt`), not as one fixed string.
- `FileType::name` and the three-argument `FileType::new`: the display name plays no part in a response.
