/**
 * The pure helpers of src/utils.rs: the directory-entry filter, path
 * normalisation, the Unix read-permission test, and the calendar arithmetic
 * behind the three date formats, as functions of a count of seconds since the
 * Unix epoch (the clock itself is not modelled).
 */
module Utils {
  import opened Wrappers
  import opened Text
  import opened Paths

  /** is_valid_entry: hidden names (leading '.') are not listed. */
  predicate IsValidEntry(name: string)
    ensures IsValidEntry(name) <==> name == [] || name[0] != '.'
  {
    !StartsWith(name, ".")
  }

  lemma IsValidEntrySamples()
    ensures !IsValidEntry(".hidden_file") && IsValidEntry("visible_file") && IsValidEntry("")
  {
    assert "visible_file"[0] == 'v';
  }

  // ---------------------------------------------------------------------------
  // normalize_path
  // ---------------------------------------------------------------------------

  /** A PathBuf built by push/pop: rooted or not, and its names. */
  datatype PathBuf = PathBuf(rooted: bool, names: seq<string>)

  /** One step of the normalisation loop: ".." pops (nothing happens when there is
      nothing to pop), "." is skipped, a root restarts, a name is pushed. */
  function Step(p: PathBuf, c: Component): PathBuf {
    match c
    case RootDir => PathBuf(true, [])
    case CurDir => p
    case ParentDir => if p.names == [] then p else PathBuf(p.rooted, p.names[..|p.names| - 1])
    case Normal(name) => PathBuf(p.rooted, p.names + [name])
  }

  function Steps(p: PathBuf, cs: seq<Component>): PathBuf
    decreases |cs|
  {
    if cs == [] then p else Steps(Step(p, cs[0]), cs[1..])
  }

  function PathBufText(p: PathBuf): string {
    (if p.rooted then "/" else "") + Join(p.names, "/")
  }

  /** What normalize_path returns, as a string. */
  function Normalized(path: string): string {
    BackslashToSlash(PathBufText(Steps(PathBuf(false, []), Components(path))))
  }

  /** normalize_path: the loop over the components, then the separator rewrite. */
  method NormalizePath(path: string) returns (r: string)
    ensures r == Normalized(path)
    ensures '\\' !in r
  {
    var cs := Components(path);
    var normalized := PathBuf(false, []);
    var i := 0;
    while i < |cs|
      invariant 0 <= i <= |cs|
      invariant Steps(normalized, cs[i..]) == Steps(PathBuf(false, []), cs)
    {
      assert cs[i..][1..] == cs[i + 1..];
      match cs[i] {
        case ParentDir =>
          if normalized.names != [] {
            normalized := PathBuf(normalized.rooted, normalized.names[..|normalized.names| - 1]);
          }
        case CurDir =>
        case RootDir =>
          normalized := PathBuf(true, []);
        case Normal(name) =>
          normalized := PathBuf(normalized.rooted, normalized.names + [name]);
      }
      i := i + 1;
    }
    r := BackslashToSlash(PathBufText(normalized));
  }

  /** Names that no normalised path contains. */
  predicate CleanNames(names: seq<string>) {
    forall k :: 0 <= k < |names| ==> names[k] != "" && names[k] != "." && names[k] != ".."
  }

  /** The names left by the loop are never empty, "." or "..": every "." is dropped and
      every ".." is consumed. */
  lemma {:induction false} StepsKeepNamesClean(p: PathBuf, cs: seq<Component>)
    requires CleanNames(p.names)
    requires forall k :: 0 <= k < |cs| ==> !(cs[k].Normal? && (cs[k].name == "" || cs[k].name == "." || cs[k].name == ".."))
    ensures CleanNames(Steps(p, cs).names)
    decreases |cs|
  {
    if cs != [] {
      StepsKeepNamesClean(Step(p, cs[0]), cs[1..]);
    }
  }

  lemma NormalizedNamesClean(path: string)
    ensures CleanNames(Steps(PathBuf(false, []), Components(path)).names)
  {
    StepsKeepNamesClean(PathBuf(false, []), Components(path));
  }

  /** Steps over a concatenation are the steps over each part. */
  lemma {:induction false} StepsAppend(p: PathBuf, a: seq<Component>, b: seq<Component>)
    ensures Steps(p, a + b) == Steps(Steps(p, a), b)
    decreases |a|
  {
    if a != [] {
      assert (a + b)[0] == a[0];
      assert (a + b)[1..] == a[1..] + b;
      StepsAppend(Step(p, a[0]), a[1..], b);
    } else {
      assert a + b == b;
    }
  }

  /** A path of plain names is kept as it is, whatever separators join them. */
  lemma {:induction false} StepsOfNames(p: PathBuf, names: seq<string>)
    ensures Steps(p, seq(|names|, k requires 0 <= k < |names| => Normal(names[k]))) == PathBuf(p.rooted, p.names + names)
    decreases |names|
  {
    var cs := seq(|names|, k requires 0 <= k < |names| => Normal(names[k]));
    if names != [] {
      assert cs[1..] == seq(|names[1..]|, k requires 0 <= k < |names[1..]| => Normal(names[1..][k]));
      StepsOfNames(Step(p, cs[0]), names[1..]);
      assert p.names + [names[0]] + names[1..] == p.names + names;
    } else {
      assert p.names + names == p.names;
    }
  }

  /** Normalized, computed from the steps over the pieces of a relative path. */
  lemma NormalizedOfPieces(path: string, names: seq<string>, text: string)
    requires path != [] && path[0] != '/' && (path[0] != '.' || (|path| > 1 && path[1] != '/'))
    requires Steps(PathBuf(false, []), PieceComponents(Pieces(path))) == PathBuf(false, names)
    requires Join(names, "/") == text && '\\' !in text
    ensures Normalized(path) == text
  {
    assert !StartsWith(path, "./");
    BackslashFree(text);
  }

  /** A name that normalisation keeps as it is. */
  predicate PlainName(n: string) {
    n != "" && n != "." && n != ".." && '/' !in n && '\\' !in n
  }

  /** Steps over a component followed by the rest. */
  lemma StepsCons(p: PathBuf, c: Component, rest: seq<Component>)
    ensures Steps(p, [c] + rest) == Steps(Step(p, c), rest)
  {
    assert ([c] + rest)[1..] == rest;
  }

  /** "." is skipped and ".." pops the name before it: "a/.././b/./f" is "b/f"
      (the repository's test uses folder, folder2 and file.txt). */
  lemma NormalizeDotsAndParents(a: string, b: string, f: string)
    requires PlainName(a) && PlainName(b) && PlainName(f)
    ensures Normalized(a + "/.././" + b + "/./" + f) == b + "/" + f
  {
    var path := a + "/.././" + b + "/./" + f;
    StepsOfDotsAndParents(a, b, f);
    assert path[0] == a[0];
    assert |a| > 1 ==> path[1] == a[1];
    assert |a| == 1 ==> path[1] == '/';
    assert '\\' !in b + "/" + f;
    assert Join([b, f], "/") == b + "/" + f;
    NormalizedOfPieces(path, [b, f], b + "/" + f);
  }

  lemma StepsOfDotsAndParents(a: string, b: string, f: string)
    requires PlainName(a) && PlainName(b) && PlainName(f)
    ensures Steps(PathBuf(false, []), PieceComponents(Pieces(a + "/.././" + b + "/./" + f))) == PathBuf(false, [b, f])
  {
    PiecesOfDotsAndParents(a, b, f);
    ComponentsOfDotsAndParents(a, b, f);
    StepsDotsAndParents(a, b, f);
  }

  lemma TextOfDotsAndParents(a: string, b: string, f: string)
    ensures a + "/.././" + b + "/./" + f == a + "/" + (".." + "/" + ("." + "/" + (b + "/" + ("." + "/" + f))))
  {
  }

  lemma PiecesOfDotsAndParents(a: string, b: string, f: string)
    requires PlainName(a) && PlainName(b) && PlainName(f)
    ensures Pieces(a + "/.././" + b + "/./" + f) == [a] + ([".."] + (["."] + ([b] + (["."] + [f]))))
  {
    TextOfDotsAndParents(a, b, f);
    PiecesOfName(f);
    PiecesCons(".", f);
    PiecesCons(b, "." + "/" + f);
    PiecesCons(".", b + "/" + ("." + "/" + f));
    PiecesCons("..", "." + "/" + (b + "/" + ("." + "/" + f)));
    PiecesCons(a, ".." + "/" + ("." + "/" + (b + "/" + ("." + "/" + f))));
  }

  lemma ComponentsOfDotsAndParents(a: string, b: string, f: string)
    requires PlainName(a) && PlainName(b) && PlainName(f)
    ensures PieceComponents([a] + ([".."] + (["."] + ([b] + (["."] + [f])))))
         == [Normal(a)] + ([ParentDir] + ([Normal(b)] + [Normal(f)]))
  {
    assert PieceComponents([f]) == [Normal(f)];
    PieceComponentsSkip(".", [f]);
    PieceComponentsName(b, ["."] + [f]);
    PieceComponentsSkip(".", [b] + (["."] + [f]));
    PieceComponentsParent(["."] + ([b] + (["."] + [f])));
    PieceComponentsName(a, [".."] + (["."] + ([b] + (["."] + [f]))));
  }

  lemma StepsDotsAndParents(a: string, b: string, f: string)
    ensures Steps(PathBuf(false, []), [Normal(a)] + ([ParentDir] + ([Normal(b)] + [Normal(f)]))) == PathBuf(false, [b, f])
  {
    StepsCons(PathBuf(false, []), Normal(a), [ParentDir] + ([Normal(b)] + [Normal(f)]));
    assert Step(PathBuf(false, []), Normal(a)) == PathBuf(false, [a]);
    StepsCons(PathBuf(false, [a]), ParentDir, [Normal(b)] + [Normal(f)]);
    assert Step(PathBuf(false, [a]), ParentDir) == PathBuf(false, []);
    StepsCons(PathBuf(false, []), Normal(b), [Normal(f)]);
    assert Step(PathBuf(false, []), Normal(b)) == PathBuf(false, [b]);
    StepsOne(PathBuf(false, [b]), Normal(f));
    assert Step(PathBuf(false, [b]), Normal(f)) == PathBuf(false, [b, f]);
  }

  /** Steps over a single component is that step. */
  lemma StepsOne(p: PathBuf, c: Component)
    ensures Steps(p, [c]) == Step(p, c)
  {
    assert [c][1..] == [];
  }

  /** Repeated separators collapse: "a//b//f" is "a/b/f" (the repository's test uses
      folder, subfolder and file.txt). */
  lemma NormalizeRepeatedSeparators(a: string, b: string, f: string)
    requires PlainName(a) && PlainName(b) && PlainName(f)
    ensures Normalized(a + "//" + b + "//" + f) == a + "/" + b + "/" + f
  {
    var path := a + "//" + b + "//" + f;
    var text := a + "/" + b + "/" + f;
    StepsOfRepeatedSeparators(a, b, f);
    assert path[0] == a[0];
    assert |a| > 1 ==> path[1] == a[1];
    assert |a| == 1 ==> path[1] == '/';
    assert '\\' !in text;
    TextOfThreeNames(a, b, f);
    NormalizedOfPieces(path, [a, b, f], text);
  }

  lemma StepsOfRepeatedSeparators(a: string, b: string, f: string)
    requires PlainName(a) && PlainName(b) && PlainName(f)
    ensures Steps(PathBuf(false, []), PieceComponents(Pieces(a + "//" + b + "//" + f))) == PathBuf(false, [a, b, f])
  {
    PiecesOfRepeatedSeparators(a, b, f);
    ComponentsOfRepeatedSeparators(a, b, f);
    StepsRepeatedSeparators(a, b, f);
  }

  lemma TextOfRepeatedSeparators(a: string, b: string, f: string)
    ensures a + "//" + b + "//" + f == a + "/" + ("" + "/" + (b + "/" + ("" + "/" + f)))
  {
  }

  lemma PiecesOfRepeatedSeparators(a: string, b: string, f: string)
    requires PlainName(a) && PlainName(b) && PlainName(f)
    ensures Pieces(a + "//" + b + "//" + f) == [a] + ([""] + ([b] + ([""] + [f])))
  {
    TextOfRepeatedSeparators(a, b, f);
    PiecesOfName(f);
    PiecesCons("", f);
    PiecesCons(b, "" + "/" + f);
    PiecesCons("", b + "/" + ("" + "/" + f));
    PiecesCons(a, "" + "/" + (b + "/" + ("" + "/" + f)));
  }

  lemma ComponentsOfRepeatedSeparators(a: string, b: string, f: string)
    requires PlainName(a) && PlainName(b) && PlainName(f)
    ensures PieceComponents([a] + ([""] + ([b] + ([""] + [f])))) == [Normal(a)] + ([Normal(b)] + [Normal(f)])
  {
    assert PieceComponents([f]) == [Normal(f)];
    PieceComponentsSkip("", [f]);
    PieceComponentsName(b, [""] + [f]);
    PieceComponentsSkip("", [b] + ([""] + [f]));
    PieceComponentsName(a, [""] + ([b] + ([""] + [f])));
  }

  lemma StepsRepeatedSeparators(a: string, b: string, f: string)
    ensures Steps(PathBuf(false, []), [Normal(a)] + ([Normal(b)] + [Normal(f)])) == PathBuf(false, [a, b, f])
  {
    StepsCons(PathBuf(false, []), Normal(a), [Normal(b)] + [Normal(f)]);
    assert Step(PathBuf(false, []), Normal(a)) == PathBuf(false, [a]);
    StepsCons(PathBuf(false, [a]), Normal(b), [Normal(f)]);
    assert Step(PathBuf(false, [a]), Normal(b)) == PathBuf(false, [a, b]);
    StepsOne(PathBuf(false, [a, b]), Normal(f));
    assert Step(PathBuf(false, [a, b]), Normal(f)) == PathBuf(false, [a, b, f]);
  }

  lemma TextOfThreeNames(a: string, b: string, f: string)
    ensures Join([a, b, f], "/") == a + "/" + b + "/" + f
  {
    assert [a, b, f][1..] == [b, f];
    assert [b, f][1..] == [f];
    assert Join([b, f], "/") == b + "/" + f;
    assert a + "/" + (b + "/" + f) == a + "/" + b + "/" + f;
  }

  /** A ".." after a "." pops the name before it: "a/./b/../f" is "a/f" (the
      repository's test uses folder, subfolder and file.txt). */
  lemma NormalizeCurrentThenParent(a: string, b: string, f: string)
    requires PlainName(a) && PlainName(b) && PlainName(f)
    ensures Normalized(a + "/./" + b + "/../" + f) == a + "/" + f
  {
    var path := a + "/./" + b + "/../" + f;
    StepsOfCurrentThenParent(a, b, f);
    assert path[0] == a[0];
    assert |a| > 1 ==> path[1] == a[1];
    assert |a| == 1 ==> path[1] == '/';
    assert '\\' !in a + "/" + f;
    assert Join([a, f], "/") == a + "/" + f;
    NormalizedOfPieces(path, [a, f], a + "/" + f);
  }

  lemma StepsOfCurrentThenParent(a: string, b: string, f: string)
    requires PlainName(a) && PlainName(b) && PlainName(f)
    ensures Steps(PathBuf(false, []), PieceComponents(Pieces(a + "/./" + b + "/../" + f))) == PathBuf(false, [a, f])
  {
    PiecesOfCurrentThenParent(a, b, f);
    ComponentsOfCurrentThenParent(a, b, f);
    StepsCurrentThenParent(a, b, f);
  }

  lemma TextOfCurrentThenParent(a: string, b: string, f: string)
    ensures a + "/./" + b + "/../" + f == a + "/" + ("." + "/" + (b + "/" + (".." + "/" + f)))
  {
  }

  lemma PiecesOfCurrentThenParent(a: string, b: string, f: string)
    requires PlainName(a) && PlainName(b) && PlainName(f)
    ensures Pieces(a + "/./" + b + "/../" + f) == [a] + (["."] + ([b] + ([".."] + [f])))
  {
    TextOfCurrentThenParent(a, b, f);
    PiecesOfName(f);
    PiecesCons("..", f);
    PiecesCons(b, ".." + "/" + f);
    PiecesCons(".", b + "/" + (".." + "/" + f));
    PiecesCons(a, "." + "/" + (b + "/" + (".." + "/" + f)));
  }

  lemma ComponentsOfCurrentThenParent(a: string, b: string, f: string)
    requires PlainName(a) && PlainName(b) && PlainName(f)
    ensures PieceComponents([a] + (["."] + ([b] + ([".."] + [f]))))
         == [Normal(a)] + ([Normal(b)] + ([ParentDir] + [Normal(f)]))
  {
    assert PieceComponents([f]) == [Normal(f)];
    PieceComponentsParent([f]);
    PieceComponentsName(b, [".."] + [f]);
    PieceComponentsSkip(".", [b] + ([".."] + [f]));
    PieceComponentsName(a, ["."] + ([b] + ([".."] + [f])));
  }

  lemma StepsCurrentThenParent(a: string, b: string, f: string)
    ensures Steps(PathBuf(false, []), [Normal(a)] + ([Normal(b)] + ([ParentDir] + [Normal(f)]))) == PathBuf(false, [a, f])
  {
    StepsCons(PathBuf(false, []), Normal(a), [Normal(b)] + ([ParentDir] + [Normal(f)]));
    assert Step(PathBuf(false, []), Normal(a)) == PathBuf(false, [a]);
    StepsCons(PathBuf(false, [a]), Normal(b), [ParentDir] + [Normal(f)]);
    assert Step(PathBuf(false, [a]), Normal(b)) == PathBuf(false, [a, b]);
    StepsCons(PathBuf(false, [a, b]), ParentDir, [Normal(f)]);
    assert Step(PathBuf(false, [a, b]), ParentDir) == PathBuf(false, [a]);
    StepsOne(PathBuf(false, [a]), Normal(f));
    assert Step(PathBuf(false, [a]), Normal(f)) == PathBuf(false, [a, f]);
  }

  /** ".." with nothing to pop is a no-op: it never climbs above the start of the path. */
  lemma NormalizeParentAtTop()
    ensures Normalized("../a") == "a"
  {
    PiecesSplit("../a", ["..", "a"]);
    assert PieceComponents(["..", "a"]) == [ParentDir, Normal("a")];
    assert Steps(PathBuf(false, []), [ParentDir, Normal("a")]) == PathBuf(false, ["a"]);
    NormalizedOfPieces("../a", ["a"], "a");
  }

  lemma NormalizeParentAtRoot()
    ensures Normalized("/..") == "/"
  {
    PiecesSplit("/..", ["", ".."]);
    assert PieceComponents(["", ".."]) == [ParentDir];
    assert Components("/..") == [RootDir, ParentDir];
    assert Steps(PathBuf(false, []), [RootDir, ParentDir]) == PathBuf(true, []);
    assert PathBufText(PathBuf(true, [])) == "/";
    BackslashFree("/");
  }

  // ---------------------------------------------------------------------------
  // is_readable_from_metadata (Unix)
  // ---------------------------------------------------------------------------

  /** The mode has one of the read bits set (0o444 = 0x124). */
  predicate IsReadableFromMode(mode: bv32)
    ensures IsReadableFromMode(mode) <==> (mode & 0x100 != 0 || mode & 0x20 != 0 || mode & 0x4 != 0)
  {
    mode & 0x124 != 0
  }

  /** Only the three read bits decide: the file-type, set-id, sticky, write and
      execute bits never change the answer. */
  lemma OnlyReadBitsMatter(mode: bv32, other: bv32)
    requires mode & 0x124 == other & 0x124
    ensures IsReadableFromMode(mode) <==> IsReadableFromMode(other)
  {
  }

  /** 0o644 and 0o004 are readable, 0o333 is not. */
  lemma IsReadableSamples()
    ensures IsReadableFromMode(0x1A4) && IsReadableFromMode(0x4) && !IsReadableFromMode(0xDB)
  {
  }

  // ---------------------------------------------------------------------------
  // Calendar arithmetic
  // ---------------------------------------------------------------------------

  predicate IsLeapYear(year: int) {
    (year % 4 == 0 && year % 100 != 0) || year % 400 == 0
  }

  function YearLength(year: int): int {
    if IsLeapYear(year) then 366 else 365
  }

  /** month_days, indexed from 0 = January. */
  function MonthLength(year: int, month: nat): (r: int)
    requires month < 12
    ensures 28 <= r <= 31
  {
    [31, if IsLeapYear(year) then 29 else 28, 31, 30, 31, 30, 31, 31, 30, 31, 30, 31][month]
  }

  /** Days from 1970-01-01 to the first day of `year`. */
  function DaysBeforeYear(year: int): nat
    requires year >= 1970
    decreases year - 1970
  {
    if year == 1970 then 0 else DaysBeforeYear(year - 1) + YearLength(year - 1)
  }

  /** Days from the first day of `year` to the first day of `month`. */
  function DaysBeforeMonth(year: int, month: nat): nat
    requires month <= 12
  {
    if month == 0 then 0 else DaysBeforeMonth(year, month - 1) + MonthLength(year, month - 1)
  }

  lemma DaysBeforeMonthAll(year: int)
    ensures DaysBeforeMonth(year, 12) == YearLength(year)
  {
    var feb := if IsLeapYear(year) then 29 else 28;
    assert DaysBeforeMonth(year, 1) == 31;
    assert DaysBeforeMonth(year, 2) == 31 + feb;
    assert DaysBeforeMonth(year, 3) == 62 + feb;
    assert DaysBeforeMonth(year, 4) == 92 + feb;
    assert DaysBeforeMonth(year, 5) == 123 + feb;
    assert DaysBeforeMonth(year, 6) == 153 + feb;
    assert DaysBeforeMonth(year, 7) == 184 + feb;
    assert DaysBeforeMonth(year, 8) == 215 + feb;
    assert DaysBeforeMonth(year, 9) == 245 + feb;
    assert DaysBeforeMonth(year, 10) == 276 + feb;
    assert DaysBeforeMonth(year, 11) == 306 + feb;
  }

  /** The 0-based month and 1-based day of `days` (days since 1970-01-01), as the two
      while loops leave them; a negative count (after the cast to i32) skips both loops. */
  ghost predicate IsCivil(days: int, year: int, month: nat, day: int) {
    if days < 0 then year == 1970 && month == 0 && day == days + 1
    else
      && year >= 1970 && month < 12 && 1 <= day <= MonthLength(year, month)
      && DaysBeforeYear(year) + DaysBeforeMonth(year, month) + day - 1 == days
  }

  /** The two loops: whole years, then whole months, of the day count. */
  method CivilFromDays(days: int) returns (year: int, month: nat, day: int)
    requires I32_MIN <= days <= I32_MAX
    ensures IsCivil(days, year, month, day)
  {
    year := 1970;
    var rest := days;
    while rest >= (if IsLeapYear(year) then 366 else 365)
      invariant year >= 1970
      invariant days >= 0 ==> rest >= 0 && DaysBeforeYear(year) + rest == days
      invariant days < 0 ==> rest == days && year == 1970
      decreases rest
    {
      rest := rest - (if IsLeapYear(year) then 366 else 365);
      year := year + 1;
    }
    month := 0;
    DaysBeforeMonthAll(year);
    while rest >= MonthLength(year, month)
      invariant month < 12
      invariant days >= 0 ==> rest >= 0 && DaysBeforeMonth(year, month) + rest < YearLength(year)
      invariant days >= 0 ==> DaysBeforeYear(year) + DaysBeforeMonth(year, month) + rest == days
      invariant days < 0 ==> rest == days && month == 0
      decreases rest
    {
      rest := rest - MonthLength(year, month);
      month := month + 1;
    }
    day := rest + 1;
  }

  lemma {:induction false} DaysBeforeYearGrows(a: int, b: int)
    requires 1970 <= a <= b
    ensures DaysBeforeYear(a) + (b - a) * 365 <= DaysBeforeYear(b)
    decreases b - a
  {
    if a < b {
      DaysBeforeYearGrows(a, b - 1);
    }
  }

  lemma {:induction false} DaysBeforeMonthGrows(year: int, a: nat, b: nat)
    requires a <= b <= 12
    ensures DaysBeforeMonth(year, a) + (b - a) * 28 <= DaysBeforeMonth(year, b)
    decreases b - a
  {
    if a < b {
      DaysBeforeMonthGrows(year, a, b - 1);
    }
  }

  /** A civil date places its day count inside its year and inside its month. */
  lemma CivilBounds(days: int, year: int, month: nat, day: int)
    requires days >= 0 && IsCivil(days, year, month, day)
    ensures DaysBeforeYear(year) <= days < DaysBeforeYear(year) + YearLength(year)
    ensures DaysBeforeMonth(year, month) <= days - DaysBeforeYear(year) < DaysBeforeMonth(year, month + 1)
  {
    DaysBeforeMonthAll(year);
    DaysBeforeMonthGrows(year, month + 1, 12);
  }

  lemma DaysBeforeNextYear(y: int)
    requires y >= 1970
    ensures DaysBeforeYear(y + 1) == DaysBeforeYear(y) + YearLength(y)
  {
  }

  lemma YearsOrdered(y1: int, y2: int)
    requires 1970 <= y1 < y2
    ensures DaysBeforeYear(y1) + YearLength(y1) <= DaysBeforeYear(y2)
  {
    DaysBeforeNextYear(y1);
    DaysBeforeYearGrows(y1 + 1, y2);
  }

  /** The decomposition is unique, so the loops compute the calendar date of the day. */
  lemma CivilUnique(days: int, y1: int, m1: nat, d1: int, y2: int, m2: nat, d2: int)
    requires IsCivil(days, y1, m1, d1) && IsCivil(days, y2, m2, d2)
    ensures y1 == y2 && m1 == m2 && d1 == d2
  {
    if days >= 0 {
      CivilBounds(days, y1, m1, d1);
      CivilBounds(days, y2, m2, d2);
      if y1 < y2 {
        YearsOrdered(y1, y2);
        assert false;
      } else if y2 < y1 {
        YearsOrdered(y2, y1);
        assert false;
      }
      if m1 < m2 {
        DaysBeforeMonthGrows(y1, m1 + 1, m2);
        assert false;
      } else if m2 < m1 {
        DaysBeforeMonthGrows(y1, m2 + 1, m1);
        assert false;
      }
    }
  }

  /** `secs / 86400` cast with `as i32`: wraps modulo 2^32 into the signed range. */
  function DaysAsI32(secs: nat): (r: int)
    ensures I32_MIN <= r <= I32_MAX
    ensures secs / 86400 <= I32_MAX ==> r == secs / 86400
  {
    (secs / 86400 + 0x8000_0000) % 0x1_0000_0000 - 0x8000_0000
  }

  datatype TimeOfDay = TimeOfDay(hours: int, minutes: int, seconds: int)

  /** Hours, minutes and seconds of the day. */
  function TimeOfDayOf(secs: nat): (t: TimeOfDay)
    ensures 0 <= t.hours < 24 && 0 <= t.minutes < 60 && 0 <= t.seconds < 60
    ensures t.hours * 3600 + t.minutes * 60 + t.seconds == secs % 86400
  {
    var secsOfDay := secs % 86400;
    TimeOfDay((secsOfDay / 3600) % 24, (secsOfDay % 3600) / 60, secsOfDay % 60)
  }

  /** Rust's `/` and `%` on signed integers round toward zero. */
  function QuoT(a: int, b: int): int
    requires b > 0
  {
    if a >= 0 then a / b else -((-a) / b)
  }

  function RemT(a: int, b: int): (r: int)
    requires b > 0
    ensures -b < r < b
    ensures a >= 0 ==> r >= 0
  {
    a - b * QuoT(a, b)
  }

  /** Zeller's congruence with the `(h + 7) % 7` correction: 0 = Saturday ... 6 = Friday. */
  function Weekday(year: int, month: nat, day: int): (h: int)
    requires month < 12
    ensures 0 <= h < 7
  {
    var m := if month + 1 <= 2 then month + 1 + 12 else month + 1;
    var y := if month + 1 <= 2 then year - 1 else year;
    var k := RemT(y, 100);
    var j := QuoT(y, 100);
    var h := RemT(day + QuoT(13 * (m + 1), 5) + k + QuoT(k, 4) + QuoT(j, 4) + 5 * j, 7);
    RemT(h + 7, 7)
  }

  /** 1970-01-01 was a Thursday. */
  lemma EpochIsThursday()
    ensures Weekday(1970, 0, 1) == 5 && WeekdayNames[5] == "Thu"
  {
  }

  const WeekdayNames: seq<string> := ["Sat", "Sun", "Mon", "Tue", "Wed", "Thu", "Fri"]
  const MonthNames: seq<string> := ["Jan", "Feb", "Mar", "Apr", "May", "Jun", "Jul", "Aug", "Sep", "Oct", "Nov", "Dec"]

  /** The format of datetime_rfc_8601: "{:04}-{:02}-{:02}T{:02}:{:02}:{:02}.{:03}Z". */
  function Rfc8601Text(year: int, month: nat, day: int, t: TimeOfDay, millis: nat): string {
    Padded(year, 4) + "-" + Padded(month + 1, 2) + "-" + Padded(day, 2) + "T"
    + Padded(t.hours, 2) + ":" + Padded(t.minutes, 2) + ":" + Padded(t.seconds, 2)
    + "." + Padded(millis, 3) + "Z"
  }

  /** The format of datetime_rfc_1123: "{}, {:02} {} {:04} {:02}:{:02}:{:02} GMT". */
  function Rfc1123Text(year: int, month: nat, day: int, t: TimeOfDay): string
    requires month < 12
  {
    WeekdayNames[Weekday(year, month, day)] + ", " + Padded(day, 2) + " " + MonthNames[month] + " "
    + Padded(year, 4) + " " + Padded(t.hours, 2) + ":" + Padded(t.minutes, 2) + ":"
    + Padded(t.seconds, 2) + " GMT"
  }

  /** datetime_rfc_8601 at `secs` seconds and `millis` milliseconds after the epoch. */
  method DatetimeRfc8601(secs: nat, millis: nat) returns (r: string)
    ensures exists year, month, day :: IsCivil(DaysAsI32(secs), year, month, day)
              && r == Rfc8601Text(year, month, day, TimeOfDayOf(secs), millis)
  {
    var year, month, day := CivilFromDays(DaysAsI32(secs));
    r := Rfc8601Text(year, month, day, TimeOfDayOf(secs), millis);
  }

  /** datetime_rfc_1123 (IMF-fixdate, section 7.1.1.1 of RFC 7231) at `secs` seconds after the epoch. */
  method DatetimeRfc1123(secs: nat) returns (r: string)
    ensures exists year, month, day :: IsCivil(DaysAsI32(secs), year, month, day) && month < 12
              && r == Rfc1123Text(year, month, day, TimeOfDayOf(secs))
    ensures EndsWith(r, " GMT")
  {
    var year, month, day := CivilFromDays(DaysAsI32(secs));
    r := Rfc1123Text(year, month, day, TimeOfDayOf(secs));
  }

  datatype LogStamp = LogStamp(year: int, month: int, day: int, time: TimeOfDay)

  /** log_datetime's approximate calendar: 365-day years and 30-day months. */
  function LogStampOf(secs: nat): (s: LogStamp)
    ensures s.year >= 1970 && 1 <= s.month <= 13 && 1 <= s.day <= 30
    ensures s.time == TimeOfDayOf(secs)
  {
    ClockOfSecs(secs);
    var days := secs / 86400;
    LogStamp(1970 + days / 365, (days % 365) / 30 + 1, days % 30 + 1,
             TimeOfDay((secs % 86400) / 3600, (secs % 3600) / 60, secs % 60))
  }

  /** log_datetime reads minutes and seconds from the whole count, yet they agree
      with the time of day. */
  lemma ClockOfSecs(secs: nat)
    ensures (secs % 86400) / 3600 == ((secs % 86400) / 3600) % 24
    ensures secs % 3600 == (secs % 86400) % 3600
    ensures secs % 60 == (secs % 86400) % 60
  {
    var q := secs / 86400;
    var r := secs % 86400;
    assert secs == q * 86400 + r;
    assert r == (secs / 3600 - 24 * q) * 3600 + secs % 3600;
    assert r == (secs / 60 - 1440 * q) * 60 + secs % 60;
  }

  /** The month can read 13: the last five days of each 365-day block. */
  lemma LogMonthThirteen()
    ensures LogStampOf(360 * 86400).month == 13
  {
  }

  function LogDatetime(secs: nat): (r: string)
    ensures LogStampOf(secs).year < 10000 ==>
              |r| == 19 && r[4] == '-' && r[7] == '-' && r[10] == ' ' && r[13] == ':' && r[16] == ':'
  {
    var s := LogStampOf(secs);
    assert TenTo(2) == 100 && TenTo(4) == 10000;
    Padded(s.year, 4) + "-" + Padded(s.month, 2) + "-" + Padded(s.day, 2) + " "
    + Padded(s.time.hours, 2) + ":" + Padded(s.time.minutes, 2) + ":" + Padded(s.time.seconds, 2)
  }
}
