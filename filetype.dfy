/**
 * MIME lookup by file extension (src/filetype.rs): one fixed table, a
 * case-insensitive first-match search, and two classifications.
 */
module FileTypes {
  import opened Wrappers
  import opened Text

  datatype FileType = FileType(extension: string, contentType: string, name: string)

  /** all_file_types: the table, in declaration order. */
  function AllFileTypes(): (r: seq<FileType>)
    ensures |r| == 33
  {
    [ FileType("html", "text/html", "HTML"),
      FileType("css", "text/css", "CSS"),
      FileType("js", "application/javascript", "JavaScript"),
      FileType("map", "application/json", "JavaScript Source Map"),
      FileType("json", "application/json", "JSON"),
      FileType("xml", "application/xml", "XML"),
      FileType("txt", "text/plain", "Text File"),
      FileType("md", "text/markdown", "Markdown"),
      FileType("jpg", "image/jpeg", "JPEG Image"),
      FileType("jpeg", "image/jpeg", "JPEG Image"),
      FileType("png", "image/png", "PNG Image"),
      FileType("gif", "image/gif", "GIF Image"),
      FileType("svg", "image/svg+xml", "SVG Image"),
      FileType("weba", "audio/webm", "WebA Audio"),
      FileType("webp", "image/webm", "WebP Image"),
      FileType("webm", "video/webm", "WebM Video"),
      FileType("ico", "image/x-icon", "ICO Image"),
      FileType("woff", "font/woff", "Web Open Font Format"),
      FileType("woff2", "font/woff2", "Web Open Font Format 2"),
      FileType("ttf", "font/ttf", "TrueType Font"),
      FileType("otf", "font/otf", "OpenType Font"),
      FileType("mp4", "video/mp4", "MP4 Video"),
      FileType("avi", "video/x-msvideo", "AVI Video"),
      FileType("mp3", "audio/mpeg", "MP3 Audio"),
      FileType("ogg", "audio/ogg", "OGG Audio"),
      FileType("wav", "audio/wav", "WAV Audio"),
      FileType("flac", "audio/flac", "FLAC Audio"),
      FileType("zip", "application/zip", "ZIP Archive"),
      FileType("tar", "application/x-tar", "TAR Archive"),
      FileType("pdf", "application/pdf", "PDF Document"),
      FileType("exe", "application/octet-stream", "Executable File"),
      FileType("dll", "application/octet-stream", "Dynamic Link Library"),
      FileType("iso", "application/x-iso9660-image", "ISO Disk Image") ]
  }

  /** Iterator::find: the first entry of `table` with the given extension. */
  function Find(table: seq<FileType>, extension: string): (r: Option<FileType>)
    ensures r.Some? ==> r.value in table && r.value.extension == extension
    ensures r.None? <==> forall ft :: ft in table ==> ft.extension != extension
  {
    if table == [] then None
    else if table[0].extension == extension then Some(table[0])
    else Find(table[1..], extension)
  }

  /** from_extension: the query is lower-cased before the comparison. */
  function FromExtension(extension: string): (r: Option<FileType>)
    ensures r.Some? ==> r.value in AllFileTypes() && r.value.extension == ToLower(extension)
    ensures r.None? <==> forall ft :: ft in AllFileTypes() ==> ft.extension != ToLower(extension)
  {
    Find(AllFileTypes(), ToLower(extension))
  }

  predicate IsSupported(extension: string) {
    FromExtension(extension).Some?
  }

  /** The lookup ignores case. */
  lemma FromExtensionCaseInsensitive(extension: string)
    ensures FromExtension(extension) == FromExtension(ToLower(extension))
    ensures IsSupported(extension) <==> IsSupported(ToLower(extension))
  {
    ToLowerIdempotent(extension);
  }

  /** A supported extension is exactly one that some table entry carries, lower-cased. */
  lemma IsSupportedIff(extension: string)
    ensures IsSupported(extension) <==> exists ft :: ft in AllFileTypes() && ft.extension == ToLower(extension)
  {
  }

  /** Find returns the entry at the first index carrying the extension. */
  lemma {:induction false} FindAt(table: seq<FileType>, i: nat, extension: string)
    requires i < |table| && table[i].extension == extension
    requires forall j :: 0 <= j < i ==> table[j].extension != extension
    ensures Find(table, extension) == Some(table[i])
  {
    if i > 0 {
      FindAt(table[1..], i - 1, extension);
    }
  }

  /** The table's extensions, in order. */
  const TableExtensions: seq<string> :=
    ["html", "css", "js", "map", "json", "xml", "txt", "md", "jpg", "jpeg", "png", "gif", "svg",
     "weba", "webp", "webm", "ico", "woff", "woff2", "ttf", "otf", "mp4", "avi", "mp3", "ogg",
     "wav", "flac", "zip", "tar", "pdf", "exe", "dll", "iso"]

  lemma TableExtensionsMatch()
    ensures |TableExtensions| == |AllFileTypes()|
    ensures forall i :: 0 <= i < |TableExtensions| ==> AllFileTypes()[i].extension == TableExtensions[i]
  {
  }

  /** jpg and jpeg both give image/jpeg, whatever their case. */
  lemma JpgLookup()
    ensures FromExtension("jpg").Some? && FromExtension("jpg").value.contentType == "image/jpeg"
  {
    JpgEntry();
    LowerJpg();
    FromExtensionAt("jpg", 8);
  }

  lemma LowerJpg()
    ensures ToLower("jpg") == "jpg"
  {
    var r := ToLower("jpg");
    assert r[0] == 'j' && r[1] == 'p' && r[2] == 'g';
  }

  lemma JpgEntry()
    ensures TableExtensions[8] == "jpg"
    ensures forall j :: 0 <= j < 8 ==> TableExtensions[j] != "jpg"
    ensures AllFileTypes()[8] == FileType("jpg", "image/jpeg", "JPEG Image")
  {
  }

  lemma JpegEntry()
    ensures TableExtensions[9] == "jpeg"
    ensures forall j :: 0 <= j < 9 ==> TableExtensions[j] != "jpeg"
    ensures AllFileTypes()[9] == FileType("jpeg", "image/jpeg", "JPEG Image")
  {
  }

  lemma JpegLookup()
    ensures FromExtension("JPEG").Some? && FromExtension("JPEG").value.contentType == "image/jpeg"
  {
    JpegEntry();
    LowerJpeg();
    FromExtensionAt("jpeg", 9);
  }

  lemma LowerJpeg()
    ensures ToLower("JPEG") == "jpeg"
  {
    var r := ToLower("JPEG");
    assert r[0] == 'j' && r[1] == 'p' && r[2] == 'e' && r[3] == 'g';
  }

  /** webp carries the table's "image/webm". */
  lemma WebpLookup()
    ensures FromExtension("webp").Some? && FromExtension("webp").value.contentType == "image/webm"
  {
    WebpFirstAt();
    LowerWebp();
    FromExtensionAt("webp", 14);
  }

  /** The lookup of a lower-case extension first carried by entry i gives that entry. */
  lemma FromExtensionAt(extension: string, i: nat)
    requires ToLower(extension) == extension
    requires i < |TableExtensions| && TableExtensions[i] == extension
    requires forall j :: 0 <= j < i ==> TableExtensions[j] != extension
    ensures FromExtension(extension) == Some(AllFileTypes()[i])
  {
    TableExtensionsMatch();
    FindAt(AllFileTypes(), i, extension);
  }

  lemma LowerWebp()
    ensures ToLower("webp") == "webp"
  {
    var w := ToLower("webp");
    assert w[0] == 'w' && w[1] == 'e' && w[2] == 'b' && w[3] == 'p';
  }

  lemma WebpFirstAt()
    ensures TableExtensions[14] == "webp"
    ensures AllFileTypes()[14] == FileType("webp", "image/webm", "WebP Image")
    ensures forall j :: 0 <= j < 14 ==> TableExtensions[j] != "webp"
  {
  }

  /** An extension outside the table, such as "htm" or "bin", is not supported. */
  lemma UnlistedExtensions()
    ensures !IsSupported("htm") && !IsSupported("bin")
  {
    LowerUnlisted();
    UnlistedNotInTable();
    UnlistedIsUnsupported("htm");
    UnlistedIsUnsupported("bin");
  }

  /** A lower-case extension that the table does not carry is not supported. */
  lemma UnlistedIsUnsupported(extension: string)
    requires ToLower(extension) == extension
    requires forall i :: 0 <= i < |TableExtensions| ==> TableExtensions[i] != extension
    ensures !IsSupported(extension)
  {
    TableExtensionsMatch();
  }

  lemma LowerUnlisted()
    ensures ToLower("htm") == "htm" && ToLower("bin") == "bin"
  {
    var h, b := ToLower("htm"), ToLower("bin");
    assert h[0] == 'h' && h[1] == 't' && h[2] == 'm';
    assert b[0] == 'b' && b[1] == 'i' && b[2] == 'n';
  }

  lemma UnlistedNotInTable()
    ensures forall i :: 0 <= i < |TableExtensions| ==> TableExtensions[i] != "htm"
    ensures forall i :: 0 <= i < |TableExtensions| ==> TableExtensions[i] != "bin"
  {
  }

  /** The extensions is_binary_extension accepts, in lower case. */
  const BinaryExtensions: set<string> :=
    {"jpeg", "jpg", "png", "gif", "svg", "webp", "ico", "mp4", "webm", "avi", "mp3", "ogg", "wav",
     "flac", "zip", "tar", "pdf", "exe", "dll", "iso"}

  function IsBinaryExtension(extension: string): (r: bool)
    ensures r <==> ToLower(extension) in BinaryExtensions
  {
    match ToLower(extension)
    case "jpeg" => true case "jpg" => true case "png" => true case "gif" => true
    case "svg" => true case "webp" => true case "ico" => true case "mp4" => true
    case "webm" => true case "avi" => true case "mp3" => true case "ogg" => true
    case "wav" => true case "flac" => true case "zip" => true case "tar" => true
    case "pdf" => true case "exe" => true case "dll" => true case "iso" => true
    case _ => false
  }

  lemma IsBinaryExtensionCaseInsensitive(extension: string)
    ensures IsBinaryExtension(extension) == IsBinaryExtension(ToLower(extension))
  {
    ToLowerIdempotent(extension);
  }

  /** The extensions content_disposition shows inline, in lower case. */
  const InlineExtensions: set<string> :=
    {"html", "htm", "txt", "css", "js", "js.map", "json", "xml", "svg", "pdf", "jpeg", "jpg", "png",
     "gif", "webp", "ico"}

  function ContentDisposition(ft: FileType): (r: string)
    ensures r == "inline" <==> ToLower(ft.extension) in InlineExtensions
    ensures r == "inline" || r == "attachment"
  {
    match ToLower(ft.extension)
    case "html" => "inline" case "htm" => "inline" case "txt" => "inline" case "css" => "inline"
    case "js" => "inline" case "js.map" => "inline" case "json" => "inline" case "xml" => "inline"
    case "svg" => "inline" case "pdf" => "inline" case "jpeg" => "inline" case "jpg" => "inline"
    case "png" => "inline" case "gif" => "inline" case "webp" => "inline" case "ico" => "inline"
    case _ => "attachment"
  }

  /** The type used when the extension is not in the table (two-argument `new` in the response engine). */
  const Fallback: FileType := FileType("bin", "application/octet-stream", "")

  /** The fallback is never in the table and is sent as an attachment. */
  lemma FallbackIsAttachment()
    ensures ContentDisposition(Fallback) == "attachment"
  {
    assert ToLower("bin") == "bin";
  }
}
