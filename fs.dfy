/**
 * The filesystem as the server sees it: a tree of directories and files keyed by
 * the list of names from the filesystem root, with the process's working
 * directory. Lookups follow the operating system's rules for resolving a path
 * string (without symbolic links): every step must start from a directory,
 * empty and "." pieces stay in place, ".." moves to the parent (the root is its
 * own parent).
 */
module FileSystem {
  import opened Wrappers
  import opened Text
  import opened Paths

  datatype Node =
    | Dir(listing: seq<string>)
    /** `mode` holds the Unix permission bits; `openable` says whether File::open
        succeeds for the server's process. */
    | File(content: seq<byte>, mode: bv32, openable: bool)

  datatype Fs = Fs(cwd: seq<string>, nodes: map<seq<string>, Node>)

  predicate IsDirAt(fs: Fs, key: seq<string>) {
    key in fs.nodes && fs.nodes[key].Dir?
  }

  function Parent(key: seq<string>): seq<string> {
    if key == [] then [] else key[..|key| - 1]
  }

  /** The root and the working directory are directories, and so is the parent of
      every node. */
  ghost predicate WellFormed(fs: Fs) {
    && IsDirAt(fs, [])
    && IsDirAt(fs, fs.cwd)
    && forall key, name :: key + [name] in fs.nodes ==> IsDirAt(fs, key)
  }

  lemma ParentIsDir(fs: Fs, key: seq<string>)
    requires WellFormed(fs) && key in fs.nodes
    ensures IsDirAt(fs, Parent(key))
  {
    if key != [] {
      assert key == Parent(key) + [key[|key| - 1]];
    }
  }

  /** Resolves the pieces of a path from the node `cur`. */
  function Walk(fs: Fs, cur: seq<string>, pieces: seq<string>): (r: Option<seq<string>>)
    decreases |pieces|
  {
    if pieces == [] then Some(cur)
    else if !IsDirAt(fs, cur) then None
    else
      var p := pieces[0];
      if p == "" || p == "." then Walk(fs, cur, pieces[1..])
      else if p == ".." then Walk(fs, Parent(cur), pieces[1..])
      else if cur + [p] in fs.nodes then Walk(fs, cur + [p], pieces[1..])
      else None
  }

  /** The node a path string names, if any (metadata / stat). */
  function Lookup(fs: Fs, path: string): (r: Option<Node>)
  {
    if path == "" then None
    else
      var start := if IsAbsolute(path) then [] else fs.cwd;
      match Walk(fs, start, Pieces(path))
      case None => None
      case Some(key) => if key in fs.nodes then Some(fs.nodes[key]) else None
  }

  predicate IsDir(fs: Fs, path: string) {
    Lookup(fs, path).Some? && Lookup(fs, path).value.Dir?
  }

  predicate IsFile(fs: Fs, path: string) {
    Lookup(fs, path).Some? && Lookup(fs, path).value.File?
  }

  /** File::open: a directory can be opened; a file when the process may open it. */
  function Open(fs: Fs, path: string): (r: Option<Node>)
    ensures r.Some? ==> r == Lookup(fs, path)
  {
    match Lookup(fs, path)
    case Some(Dir(listing)) => Some(Dir(listing))
    case Some(File(content, mode, openable)) =>
      if openable then Some(File(content, mode, openable)) else None
    case None => None
  }

  /** Read::read_exact from the start of an opened node: a directory cannot be read
      (unless nothing is asked for), and a file must hold at least `n` bytes. */
  function ReadExact(node: Node, n: nat): (r: Option<seq<byte>>)
    ensures r.Some? ==> |r.value| == n
    ensures r.Some? && node.File? ==> n <= |node.content| && r.value == node.content[..n]
  {
    if n == 0 then Some([])
    else if node.Dir? then None
    else if |node.content| < n then None
    else Some(node.content[..n])
  }

  /** Read::read at byte offset `pos`: at most `n` bytes, fewer at the end of the file. */
  function ReadAt(content: seq<byte>, pos: nat, n: nat): (r: seq<byte>)
    ensures |r| <= n
    ensures pos < |content| && n > 0 ==> |r| > 0
    ensures pos + |r| <= |content| || r == []
    ensures pos <= |content| ==> r == content[pos..pos + |r|]
  {
    if pos >= |content| then []
    else if pos + n <= |content| then content[pos..pos + n]
    else content[pos..]
  }

  // ---------------------------------------------------------------------------
  // What a successful lookup says about the path
  // ---------------------------------------------------------------------------

  /** A walk that ends on a file from a directory ended with a normal name. */
  lemma {:induction false} WalkToFileEndsWithName(fs: Fs, cur: seq<string>, pieces: seq<string>)
    requires WellFormed(fs) && IsDirAt(fs, cur)
    requires Walk(fs, cur, pieces).Some?
    requires Walk(fs, cur, pieces).value in fs.nodes && fs.nodes[Walk(fs, cur, pieces).value].File?
    ensures pieces != [] && IsName(pieces[|pieces| - 1])
    decreases |pieces|
  {
    var p := pieces[0];
    var rest := pieces[1..];
    var next := if p == "" || p == "." then cur else if p == ".." then Parent(cur) else cur + [p];
    assert Walk(fs, cur, pieces) == Walk(fs, next, rest);
    if p == ".." {
      ParentIsDir(fs, cur);
    }
    if rest != [] {
      assert IsDirAt(fs, next);
      WalkToFileEndsWithName(fs, next, rest);
      assert pieces[|pieces| - 1] == rest[|rest| - 1];
    } else {
      assert Walk(fs, next, rest) == Some(next);
      if p == ".." {
        ParentIsDir(fs, cur);
      }
    }
  }

  /** A piece that names a child rather than the same or the parent directory. */
  predicate IsName(p: string) {
    p != "" && p != "." && p != ".."
  }

  /** The components of a list of pieces are those of its parts. */
  lemma {:induction false} PieceComponentsAppend(a: seq<string>, b: seq<string>)
    ensures PieceComponents(a + b) == PieceComponents(a) + PieceComponents(b)
  {
    if a != [] {
      assert (a + b)[0] == a[0];
      assert (a + b)[1..] == a[1..] + b;
      PieceComponentsAppend(a[1..], b);
    } else {
      assert a + b == b;
    }
  }

  /** The components of pieces that end with a name end with that name. */
  lemma LastPieceComponent(pieces: seq<string>)
    requires pieces != [] && IsName(pieces[|pieces| - 1])
    ensures var pc := PieceComponents(pieces);
            pc != [] && pc[|pc| - 1] == Normal(pieces[|pieces| - 1])
  {
    var n := |pieces|;
    var last := pieces[n - 1];
    assert pieces == pieces[..n - 1] + [last];
    PieceComponentsAppend(pieces[..n - 1], [last]);
    assert PieceComponents([last]) == [Normal(last)];
  }

  /** The last component of a path is the last of its pieces' components, if any. */
  lemma ComponentsLast(path: string)
    requires PieceComponents(Pieces(path)) != []
    ensures var cs, pc := Components(path), PieceComponents(Pieces(path));
            cs != [] && cs[|cs| - 1] == pc[|pc| - 1]
  {
    var pc := PieceComponents(Pieces(path));
    var cs := Components(path);
    if IsAbsolute(path) {
      assert cs == [RootDir] + pc;
      assert cs[|cs| - 1] == pc[|pc| - 1];
    } else if path == "." || StartsWith(path, "./") {
      assert cs == [CurDir] + pc;
      assert cs[|cs| - 1] == pc[|pc| - 1];
    } else {
      assert cs == pc;
    }
  }

  /** A path whose last piece is a name has that name as its file name. */
  lemma FileNameOfNamedPath(path: string)
    requires IsName(Pieces(path)[|Pieces(path)| - 1])
    ensures FileName(path) == Some(Pieces(path)[|Pieces(path)| - 1])
  {
    LastPieceComponent(Pieces(path));
    ComponentsLast(path);
  }

  /** Every path that names a file has a file name: its last piece. */
  lemma FileHasName(fs: Fs, path: string)
    requires WellFormed(fs) && IsFile(fs, path)
    ensures FileName(path) == Some(Pieces(path)[|Pieces(path)| - 1])
  {
    var start := if IsAbsolute(path) then [] else fs.cwd;
    assert Walk(fs, start, Pieces(path)).Some?;
    WalkToFileEndsWithName(fs, start, Pieces(path));
    FileNameOfNamedPath(path);
  }
}
