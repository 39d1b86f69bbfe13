/**
 * The parts of Rust's std::path that the server relies on, for Unix paths
 * held as strings: splitting into components, `join`, `file_name`,
 * `extension` and `strip_prefix`.
 */
module Paths {
  import opened Wrappers
  import opened Text

  datatype Component = RootDir | CurDir | ParentDir | Normal(name: string)

  /** The text between separators: str::split('/'). */
  function Pieces(path: string): (r: seq<string>)
    ensures |r| >= 1
    ensures forall k :: 0 <= k < |r| ==> '/' !in r[k]
    decreases |path|
  {
    if path == [] then [""]
    else
      var rest := Pieces(path[1..]);
      if path[0] == '/' then [""] + rest
      else [[path[0]] + rest[0]] + rest[1..]
  }

  /** A string without separators is a single piece. */
  lemma {:induction false} PiecesOfName(name: string)
    requires '/' !in name
    ensures Pieces(name) == [name]
    decreases |name|
  {
    if name != [] {
      PiecesOfName(name[1..]);
      assert [name[0]] + name[1..] == name;
    }
  }

  /** A name followed by a separator starts the pieces. */
  lemma {:induction false} PiecesCons(name: string, rest: string)
    requires '/' !in name
    ensures Pieces(name + "/" + rest) == [name] + Pieces(rest)
    decreases |name|
  {
    if name == [] {
      assert name + "/" + rest == "/" + rest;
      assert ("/" + rest)[1..] == rest;
    } else {
      assert (name + "/" + rest)[0] == name[0];
      assert (name + "/" + rest)[1..] == name[1..] + "/" + rest;
      PiecesCons(name[1..], rest);
      assert [name[0]] + name[1..] == name;
    }
  }

  /** An empty piece or "." names no component. */
  lemma PieceComponentsSkip(head: string, rest: seq<string>)
    requires head == "" || head == "."
    ensures PieceComponents([head] + rest) == PieceComponents(rest)
  {
    assert ([head] + rest)[1..] == rest;
  }

  /** ".." is the parent. */
  lemma PieceComponentsParent(rest: seq<string>)
    ensures PieceComponents([".."] + rest) == [ParentDir] + PieceComponents(rest)
  {
    assert ([".."] + rest)[1..] == rest;
  }

  /** Any other piece is a name. */
  lemma PieceComponentsName(head: string, rest: seq<string>)
    requires head != "" && head != "." && head != ".."
    ensures PieceComponents([head] + rest) == [Normal(head)] + PieceComponents(rest)
  {
    assert ([head] + rest)[1..] == rest;
  }

  /** The pieces of the separator-joined names are those names. */
  lemma {:induction false} PiecesSplit(path: string, names: seq<string>)
    requires names != [] && forall k :: 0 <= k < |names| ==> '/' !in names[k]
    requires path == Join(names, "/")
    ensures Pieces(path) == names
    decreases |names|
  {
    if |names| == 1 {
      PiecesOfName(names[0]);
    } else {
      PiecesSplit(Join(names[1..], "/"), names[1..]);
      PiecesCons(names[0], Join(names[1..], "/"));
    }
  }

  /** Separators and "." pieces name no component; ".." is the parent. */
  function PieceComponents(pieces: seq<string>): (r: seq<Component>)
    ensures forall k :: 0 <= k < |r| ==> r[k] == ParentDir || (r[k].Normal? && r[k].name != "" && r[k].name != "." && r[k].name != "..")
    ensures |r| <= |pieces|
  {
    if pieces == [] then []
    else
      var head := pieces[0];
      (if head == "" || head == "." then [] else if head == ".." then [ParentDir] else [Normal(head)])
      + PieceComponents(pieces[1..])
  }

  /** Every name among the components is one of the pieces. */
  lemma {:induction false} PieceComponentNames(pieces: seq<string>)
    ensures forall c :: c in PieceComponents(pieces) && c.Normal? ==> c.name in pieces
    decreases |pieces|
  {
    if pieces != [] {
      PieceComponentNames(pieces[1..]);
      assert pieces == [pieces[0]] + pieces[1..];
    }
  }

  predicate IsAbsolute(path: string) {
    path != [] && path[0] == '/'
  }

  /** Path::components: a leading RootDir for an absolute path, a leading CurDir for a
      relative path that starts with "." followed by a separator or the end, then every
      piece except the empty ones and ".". */
  function Components(path: string): (r: seq<Component>)
    ensures IsAbsolute(path) <==> r != [] && r[0] == RootDir
  {
    if IsAbsolute(path) then [RootDir] + PieceComponents(Pieces(path))
    else if path == "." || StartsWith(path, "./") then [CurDir] + PieceComponents(Pieces(path))
    else PieceComponents(Pieces(path))
  }

  function ComponentText(c: Component): string {
    match c
    case RootDir => "/"
    case CurDir => "."
    case ParentDir => ".."
    case Normal(name) => name
  }

  /** The path spelled by a run of components, with single separators. */
  function ComponentsText(cs: seq<Component>): string {
    if cs != [] && cs[0] == RootDir then "/" + Join(Texts(cs[1..]), "/")
    else Join(Texts(cs), "/")
  }

  function Texts(cs: seq<Component>): (r: seq<string>)
    ensures |r| == |cs| && forall k :: 0 <= k < |cs| ==> r[k] == ComponentText(cs[k])
  {
    seq(|cs|, k requires 0 <= k < |cs| => ComponentText(cs[k]))
  }

  /** Path::join / PathBuf::push: an absolute argument replaces the base; otherwise one
      separator is added unless the base is empty or already ends with one. */
  function JoinPath(base: string, rel: string): (r: string)
    ensures IsAbsolute(rel) ==> r == rel
    ensures !IsAbsolute(rel) ==> StartsWith(r, base) && EndsWith(r, rel)
  {
    if IsAbsolute(rel) then rel
    else if base == [] || base[|base| - 1] == '/' then base + rel
    else base + "/" + rel
  }

  /** Path::file_name: the last component when it is a normal one. */
  function FileName(path: string): (r: Option<string>)
    ensures r.Some? ==> r.value != "" && r.value != "." && r.value != ".." && '/' !in r.value
  {
    var cs := Components(path);
    if cs != [] && cs[|cs| - 1].Normal? then
      PieceComponentNames(Pieces(path));
      assert cs[|cs| - 1] in PieceComponents(Pieces(path));
      Some(cs[|cs| - 1].name)
    else None
  }

  /** Path::extension: the text after the last '.' of the file name, unless the name has
      no '.', or its only '.' is the first character. */
  function Extension(path: string): (r: Option<string>)
    ensures r.Some? ==> FileName(path).Some? && EndsWith(FileName(path).value, "." + r.value)
    ensures r.Some? ==> '.' !in r.value
  {
    match FileName(path)
    case None => None
    case Some(name) => NameExtension(name)
  }

  /** The last '.' of `name`, if any. */
  function LastDot(name: string): (r: Option<nat>)
    ensures r.Some? ==> r.value < |name| && name[r.value] == '.' && '.' !in name[r.value + 1..]
    ensures r.None? ==> '.' !in name
  {
    if name == [] then None
    else if name[|name| - 1] == '.' then Some(|name| - 1)
    else
      match LastDot(name[..|name| - 1])
      case None => None
      case Some(i) =>
        assert name[i + 1..] == name[..|name| - 1][i + 1..] + [name[|name| - 1]];
        Some(i)
  }

  function NameExtension(name: string): (r: Option<string>)
    ensures r.Some? ==> EndsWith(name, "." + r.value) && '.' !in r.value
    ensures r.None? <==> ('.' !in name || LastDot(name) == Some(0))
  {
    match LastDot(name)
    case None => None
    case Some(i) =>
      if i == 0 then None
      else
        assert name[|name| - |"." + name[i + 1..]|..] == "." + name[i + 1..];
        Some(name[i + 1..])
  }

  /** Path::strip_prefix: the base's components must begin the path's components; the
      rest of the path is returned, spelled with single separators. */
  function StripPrefix(path: string, base: string): (r: Option<string>)
    ensures r.Some? <==> IsPrefix(Components(base), Components(path))
  {
    var cs := Components(path);
    var bs := Components(base);
    if IsPrefix(bs, cs) then Some(ComponentsText(cs[|bs|..])) else None
  }

  predicate IsPrefix<T(==)>(a: seq<T>, b: seq<T>) {
    |a| <= |b| && b[..|a|] == a
  }

  lemma BackslashFree(s: string)
    requires '\\' !in s
    ensures BackslashToSlash(s) == s
  {
  }

  /** str::replace('\\', "/"). */
  function BackslashToSlash(s: string): (r: string)
    ensures |r| == |s| && '\\' !in r
    ensures forall k :: 0 <= k < |s| ==> r[k] == (if s[k] == '\\' then '/' else s[k])
  {
    seq(|s|, k requires 0 <= k < |s| => if s[k] == '\\' then '/' else s[k])
  }
}
