/**
 * The command-line readers and the precedence merge of the configuration:
 * src/config.rs (the older reader with built-in defaults),
 * src/core/config/arg.rs (the newer reader with optional fields) and
 * src/core/config/config.rs (the merge of defaults, file, environment and
 * command line).  The process arguments and the platform are parameters.
 */
module LegacyConfig {
  import opened Wrappers
  import opened Text

  /** src/config.rs's Config. The root directory is kept as its text. */
  datatype Config = Config(host: string, port: int, rootDir: string, worker: int)

  const DEFAULT_PORT := 8080
  const DEFAULT_WORKER := 4
  const MIN_WORKER := 1

  /** The starting values; the host depends on the platform family. */
  function Defaults(isWindows: bool): (c: Config)
    ensures c.port == 8080 && c.rootDir == "public" && c.worker == 4
  {
    Config(if isWindows then "127.0.0.1" else "0.0.0.0", DEFAULT_PORT, "public", DEFAULT_WORKER)
  }

  predicate TakesValue(flag: string) {
    flag == "--port" || flag == "--dir" || flag == "--host" || flag == "--worker"
  }

  /** The effect of one recognised flag and its value. */
  function TakeFlag(c: Config, flag: string, value: string): Config
    requires TakesValue(flag)
  {
    if flag == "--port" then c.(port := ParseU16(value).GetOr(DEFAULT_PORT))
    else if flag == "--dir" then c.(rootDir := value)
    else if flag == "--host" then c.(host := value)
    else
      match ParseI32(value)
      case Some(w) => if w > MIN_WORKER then c.(worker := w) else c
      case None => c
  }

  /** The argument loop from index `i` on: a recognised flag followed by a value consumes
      both; anything else, including a flag in last position, is passed over. */
  function ParseFrom(args: seq<string>, i: nat, c: Config): Config
    decreases |args| - i
  {
    if i >= |args| then c
    else if TakesValue(args[i]) && i + 1 < |args| then ParseFrom(args, i + 2, TakeFlag(c, args[i], args[i + 1]))
    else ParseFrom(args, i + 1, c)
  }

  /** Config::parse_args: args[0], the program name, is skipped. */
  method ParseArgs(args: seq<string>, isWindows: bool) returns (c: Config)
    ensures c == ParseFrom(args, 1, Defaults(isWindows))
  {
    var host := if isWindows then "127.0.0.1" else "0.0.0.0";
    var port := 8080;
    var rootDir := "public";
    var worker := 4;
    var i := 1;
    while i < |args|
      invariant 1 <= i
      invariant ParseFrom(args, i, Config(host, port, rootDir, worker)) == ParseFrom(args, 1, Defaults(isWindows))
      decreases |args| - i
    {
      var arg := args[i];
      if arg == "--port" {
        if i + 1 < |args| {
          port := ParseU16(args[i + 1]).GetOr(8080);
          i := i + 1;
        }
      } else if arg == "--dir" {
        if i + 1 < |args| {
          rootDir := args[i + 1];
          i := i + 1;
        }
      } else if arg == "--host" {
        if i + 1 < |args| {
          host := args[i + 1];
          i := i + 1;
        }
      } else if arg == "--worker" {
        if i + 1 < |args| {
          match ParseI32(args[i + 1]) {
            case Some(w) =>
              if w > MIN_WORKER {
                worker := w;
              }
            case None =>
          }
          i := i + 1;
        }
      }
      i := i + 1;
    }
    c := Config(host, port, rootDir, worker);
  }

  /** Arguments none of which is a recognised flag leave every field at its start value. */
  lemma {:induction false} UnrecognisedArgumentsKeepDefaults(args: seq<string>, i: nat, c: Config)
    requires forall k :: i <= k < |args| ==> !TakesValue(args[k])
    ensures ParseFrom(args, i, c) == c
    decreases |args| - i
  {
    if i < |args| {
      UnrecognisedArgumentsKeepDefaults(args, i + 1, c);
    }
  }

  /** The result is a valid configuration whenever the start is: the port fits in 16 bits
      and the worker count is above the minimum. */
  lemma {:induction false} ParseKeepsRanges(args: seq<string>, i: nat, c: Config)
    requires 0 <= c.port <= U16_MAX && c.worker > MIN_WORKER
    ensures var r := ParseFrom(args, i, c);
            0 <= r.port <= U16_MAX && r.worker > MIN_WORKER
    decreases |args| - i
  {
    if i < |args| {
      if TakesValue(args[i]) && i + 1 < |args| {
        ParseKeepsRanges(args, i + 2, TakeFlag(c, args[i], args[i + 1]));
      } else {
        ParseKeepsRanges(args, i + 1, c);
      }
    }
  }

  /** An unparseable or out-of-range port value puts the port back to 8080, whatever an
      earlier `--port` set; a later flag of the same kind overrides an earlier one. */
  lemma PortValueReplacesEarlier(c: Config, first: string, second: string)
    ensures TakeFlag(TakeFlag(c, "--port", first), "--port", second) == TakeFlag(c, "--port", second)
    ensures ParseU16(second).None? ==> TakeFlag(TakeFlag(c, "--port", first), "--port", second).port == 8080
  {
  }

  /** A worker count of at most 1 or a non-number keeps the previous count. */
  lemma WorkerNeedsMoreThanOne(c: Config, value: string)
    ensures TakeFlag(c, "--worker", value).worker
         == (if ParseI32(value).Some? && ParseI32(value).value > 1 then ParseI32(value).value else c.worker)
    ensures TakeFlag(c, "--worker", value).(worker := c.worker) == c
  {
  }

  /** The repository's own argument vectors. */
  lemma InvalidPortKeepsDefaults(isWindows: bool)
    ensures ParseFrom(["", "--port", "invalid_port"], 1, Defaults(isWindows)) == Defaults(isWindows)
  {
    assert DigitValue("invalid_port"[0], 10).None?;
    DigitsValueNone("invalid_port", 10, 0);
  }

  lemma LargePortKeepsDefaults(isWindows: bool)
    ensures ParseFrom(["", "--port", "65536"], 1, Defaults(isWindows)) == Defaults(isWindows)
  {
    assert "65536"[0] == '6';
    assert DigitsValue("6", 10) == Some(6);
    assert "65"[..1] == "6";
    assert DigitsValue("65", 10) == Some(65);
    assert "655"[..2] == "65";
    assert DigitsValue("655", 10) == Some(655);
    assert "6553"[..3] == "655";
    assert DigitsValue("6553", 10) == Some(6553);
    assert "65536"[..4] == "6553";
    assert DigitsValue("65536", 10) == Some(65536);
  }

  lemma LastPortWins(isWindows: bool)
    ensures ParseFrom(["", "--port", "9090", "--port", "5000"], 1, Defaults(isWindows)).port == 5000
  {
    assert "9090"[0] == '9' && "5000"[0] == '5';
    assert DigitsValue("9", 10) == Some(9);
    assert "90"[..1] == "9";
    assert DigitsValue("90", 10) == Some(90);
    assert "909"[..2] == "90";
    assert DigitsValue("909", 10) == Some(909);
    assert "9090"[..3] == "909";
    assert DigitsValue("9090", 10) == Some(9090);
    assert DigitsValue("5", 10) == Some(5);
    assert "50"[..1] == "5";
    assert DigitsValue("50", 10) == Some(50);
    assert "500"[..2] == "50";
    assert DigitsValue("500", 10) == Some(500);
    assert "5000"[..3] == "500";
    assert DigitsValue("5000", 10) == Some(5000);
  }

  lemma NegativeWorkerKeepsDefault(isWindows: bool)
    ensures ParseFrom(["", "--worker", "-1"], 1, Defaults(isWindows)).worker == 4
  {
    assert "-1"[1..] == "1";
  }

  lemma WorkerEightAccepted(isWindows: bool)
    ensures ParseFrom(["", "--worker", "8"], 1, Defaults(isWindows)).worker == 8
  {
    assert "8"[0] == '8';
  }
}

/**
 * src/core/config/config.rs: the configuration record and the precedence fold.
 */
module ConfigMerge {
  import opened Wrappers

  /** The levels of the logger; its parser (outside this model) is taken to accept exactly
      the four upper-case names. */
  datatype LogLevel = Debug | Info | Warn | Error

  function LogLevelFromStr(s: string): (r: Option<LogLevel>)
    ensures r.Some? <==> s in {"DEBUG", "INFO", "WARN", "ERROR"}
  {
    if s == "DEBUG" then Some(Debug)
    else if s == "INFO" then Some(Info)
    else if s == "WARN" then Some(Warn)
    else if s == "ERROR" then Some(Error)
    else None
  }

  /** A source's settings. An empty host, port 0, an empty root and a worker count of at
      most 0 mean "not set". */
  datatype Config = Config(host: string, port: int, rootDir: string, worker: int, logLevel: LogLevel)

  /** The fold's closure: each field is taken from the newer source when it is set there;
      the log level always is. */
  function Merge(acc: Config, curr: Config): Config {
    Config(
      if curr.host == "" then acc.host else curr.host,
      if curr.port == 0 then acc.port else curr.port,
      if curr.rootDir == "" then acc.rootDir else curr.rootDir,
      if curr.worker <= 0 then acc.worker else curr.worker,
      curr.logLevel)
  }

  /** Config::load's fold over the sources in priority order (file, environment, arguments),
      starting from the defaults. */
  function Load(defaults: Config, sources: seq<Config>): Config
    decreases |sources|
  {
    if sources == [] then defaults else Load(Merge(defaults, sources[0]), sources[1..])
  }

  /** The value of a field after the fold, read from the right: the last source that sets
      it, or the default when none does. */
  function LastSet<T>(fallback: T, values: seq<T>, isSet: T -> bool): T
    decreases |values|
  {
    if values == [] then fallback
    else if isSet(values[|values| - 1]) then values[|values| - 1]
    else LastSet(fallback, values[..|values| - 1], isSet)
  }

  function Hosts(sources: seq<Config>): seq<string> { seq(|sources|, k requires 0 <= k < |sources| => sources[k].host) }
  function Ports(sources: seq<Config>): seq<int> { seq(|sources|, k requires 0 <= k < |sources| => sources[k].port) }
  function Roots(sources: seq<Config>): seq<string> { seq(|sources|, k requires 0 <= k < |sources| => sources[k].rootDir) }
  function Workers(sources: seq<Config>): seq<int> { seq(|sources|, k requires 0 <= k < |sources| => sources[k].worker) }

  lemma {:induction false} LoadAppend(defaults: Config, sources: seq<Config>, last: Config)
    ensures Load(defaults, sources + [last]) == Merge(Load(defaults, sources), last)
    decreases |sources|
  {
    if sources == [] {
      assert ([] + [last])[1..] == [];
    } else {
      assert (sources + [last])[1..] == sources[1..] + [last];
      LoadAppend(Merge(defaults, sources[0]), sources[1..], last);
    }
  }

  /** Every field ends as the last source that sets it, or the default; the log level is
      always the last source's. */
  lemma {:induction false} LoadIsLastSet(defaults: Config, sources: seq<Config>)
    ensures var r := Load(defaults, sources);
            r.host == LastSet(defaults.host, Hosts(sources), h => h != "")
            && r.port == LastSet(defaults.port, Ports(sources), p => p != 0)
            && r.rootDir == LastSet(defaults.rootDir, Roots(sources), d => d != "")
            && r.worker == LastSet(defaults.worker, Workers(sources), w => w > 0)
            && r.logLevel == (if sources == [] then defaults.logLevel else sources[|sources| - 1].logLevel)
    decreases |sources|
  {
    if sources != [] {
      var init := sources[..|sources| - 1];
      var last := sources[|sources| - 1];
      assert sources == init + [last];
      LoadAppend(defaults, init, last);
      LoadIsLastSet(defaults, init);
      LastSetStep(defaults, init, last);
    }
  }

  /** Appending a source: each field's LastSet reads that source first. */
  lemma LastSetStep(defaults: Config, init: seq<Config>, last: Config)
    ensures LastSet(defaults.host, Hosts(init + [last]), h => h != "")
         == if last.host != "" then last.host else LastSet(defaults.host, Hosts(init), h => h != "")
    ensures LastSet(defaults.port, Ports(init + [last]), p => p != 0)
         == if last.port != 0 then last.port else LastSet(defaults.port, Ports(init), p => p != 0)
    ensures LastSet(defaults.rootDir, Roots(init + [last]), d => d != "")
         == if last.rootDir != "" then last.rootDir else LastSet(defaults.rootDir, Roots(init), d => d != "")
    ensures LastSet(defaults.worker, Workers(init + [last]), w => w > 0)
         == if last.worker > 0 then last.worker else LastSet(defaults.worker, Workers(init), w => w > 0)
  {
    var sources := init + [last];
    assert Hosts(sources)[..|init|] == Hosts(init);
    assert Ports(sources)[..|init|] == Ports(init);
    assert Roots(sources)[..|init|] == Roots(init);
    assert Workers(sources)[..|init|] == Workers(init);
  }

  /** Merging the same source twice is merging it once. */
  lemma MergeIdempotent(acc: Config, curr: Config)
    ensures Merge(Merge(acc, curr), curr) == Merge(acc, curr)
  {
  }

  /** A source with every field unset changes nothing but the log level. */
  lemma MergeUnsetSource(acc: Config, level: LogLevel)
    ensures Merge(acc, Config("", 0, "", 0, level)) == acc.(logLevel := level)
  {
  }
}

/**
 * src/core/config/arg.rs: the newer argument reader. Every field starts unset;
 * an invalid value resets a field to unset rather than keeping an earlier one.
 */
module ArgConfig {
  import opened Wrappers
  import opened Text
  import opened ConfigMerge

  datatype Flags = Flags(
    displayHelp: bool,
    host: Option<string>,
    port: Option<int>,
    root: Option<string>,
    worker: Option<int>,
    logLevel: Option<LogLevel>)

  /** The result: the help flag, and the source's settings with unset fields defaulted. */
  datatype Parsed = Parsed(displayHelp: bool, config: Config)

  function ParseU16Opt(s: string): (r: Option<int>)
    ensures r.Some? <==> ParseU16(s).Some?
    ensures r.Some? ==> r.value == ParseU16(s).value
  {
    match ParseU16(s)
    case Some(v) => Some(v)
    case None => None
  }

  function ParseI32Opt(s: string): (r: Option<int>)
    ensures r.Some? <==> ParseI32(s).Some?
    ensures r.Some? ==> r.value == ParseI32(s).value
  {
    match ParseI32(s)
    case Some(v) => Some(v)
    case None => None
  }

  predicate TakesValue(flag: string) {
    flag == "--port" || flag == "--document-root" || flag == "--host" || flag == "--worker" || flag == "--log-level"
  }

  function TakeFlag(f: Flags, flag: string, value: string): Flags
    requires TakesValue(flag)
  {
    if flag == "--port" then f.(port := ParseU16Opt(value))
    else if flag == "--document-root" then f.(root := Some(value))
    else if flag == "--host" then f.(host := Some(value))
    else if flag == "--worker" then f.(worker := ParseI32Opt(value))
    else f.(logLevel := LogLevelFromStr(ToUpper(value)))
  }

  function ParseFrom(args: seq<string>, i: nat, f: Flags): Flags
    decreases |args| - i
  {
    if i >= |args| then f
    else if args[i] == "--help" || args[i] == "-h" then ParseFrom(args, i + 1, f.(displayHelp := true))
    else if TakesValue(args[i]) && i + 1 < |args| then ParseFrom(args, i + 2, TakeFlag(f, args[i], args[i + 1]))
    else ParseFrom(args, i + 1, f)
  }

  /** Unset fields become the type's default value; an absent level becomes INFO. */
  function Finish(f: Flags): (p: Parsed)
    ensures p.config.host == "" <==> f.host.None? || f.host.value == ""
    ensures p.config.port == 0 <==> f.port.None? || f.port.value == 0
    ensures f.logLevel.None? ==> p.config.logLevel == Info
  {
    Parsed(f.displayHelp,
      Config(f.host.GetOr(""), f.port.GetOr(0), f.root.GetOr(""), f.worker.GetOr(0), f.logLevel.GetOr(Info)))
  }

  const Unset := Flags(false, None, None, None, None, None)

  /** arg::parse_args. */
  method ParseArgs(args: seq<string>) returns (p: Parsed)
    ensures p == Finish(ParseFrom(args, 1, Unset))
  {
    var displayHelp := false;
    var host: Option<string> := None;
    var port: Option<int> := None;
    var root: Option<string> := None;
    var worker: Option<int> := None;
    var logLevel: Option<LogLevel> := None;
    var i := 1;
    while i < |args|
      invariant 1 <= i
      invariant ParseFrom(args, i, Flags(displayHelp, host, port, root, worker, logLevel))
             == ParseFrom(args, 1, Unset)
      decreases |args| - i
    {
      var arg := args[i];
      if arg == "--help" || arg == "-h" {
        displayHelp := true;
      } else if arg == "--port" {
        if i + 1 < |args| {
          port := ParseU16Opt(args[i + 1]);
          i := i + 1;
        }
      } else if arg == "--document-root" {
        if i + 1 < |args| {
          root := Some(args[i + 1]);
          i := i + 1;
        }
      } else if arg == "--host" {
        if i + 1 < |args| {
          host := Some(args[i + 1]);
          i := i + 1;
        }
      } else if arg == "--worker" {
        if i + 1 < |args| {
          worker := ParseI32Opt(args[i + 1]);
          i := i + 1;
        }
      } else if arg == "--log-level" {
        if i + 1 < |args| {
          logLevel := LogLevelFromStr(ToUpper(args[i + 1]));
          i := i + 1;
        }
      }
      i := i + 1;
    }
    p := Finish(Flags(displayHelp, host, port, root, worker, logLevel));
  }

  /** Without arguments every field is unset: empty host, port 0, empty root, worker 0,
      level INFO, no help. */
  lemma NoArgumentsGiveUnsetSource(program: string)
    ensures Finish(ParseFrom([program], 1, Unset)) == Parsed(false, Config("", 0, "", 0, Info))
  {
  }

  /** An invalid port or worker value resets the field to unset, whatever came before. */
  lemma InvalidValueResets(f: Flags, value: string)
    ensures ParseU16(value).None? ==> TakeFlag(f, "--port", value).port.None?
    ensures ParseI32(value).None? ==> TakeFlag(f, "--worker", value).worker.None?
  {
  }

  /** The level is matched after upper-casing, so "debug" selects DEBUG; an unknown name
      leaves the level unset, and the result then reads INFO. */
  lemma LogLevelIsCaseInsensitive(f: Flags)
    ensures TakeFlag(f, "--log-level", "debug").logLevel == Some(Debug)
    ensures TakeFlag(f, "--log-level", "verbose").logLevel.None?
  {
    assert ToUpper("debug") == "DEBUG";
    assert ToUpper("verbose") == "VERBOSE";
  }

  /** A flag given again replaces its earlier value: the second value alone decides the
      field, whatever the first one was (an invalid one included). */
  lemma LaterFlagReplacesEarlier(f: Flags, flag: string, a: string, b: string)
    requires TakesValue(flag)
    ensures TakeFlag(TakeFlag(f, flag, a), flag, b) == TakeFlag(f, flag, b)
  {
  }

  /** In an argument list, a value flag directly repeated leaves the first value unused:
      parsing goes on as if only the second occurrence had been given. */
  lemma RepeatedFlagLastWins(args: seq<string>, i: nat, f: Flags)
    requires i + 3 < |args| && TakesValue(args[i]) && args[i + 2] == args[i]
    ensures ParseFrom(args, i, f) == ParseFrom(args, i + 4, TakeFlag(f, args[i], args[i + 3]))
  {
    LaterFlagReplacesEarlier(f, args[i], args[i + 1], args[i + 3]);
  }

  /** Help may be asked for with either spelling, anywhere. */
  lemma {:induction false} HelpFlagSticks(args: seq<string>, i: nat, f: Flags)
    requires f.displayHelp
    ensures ParseFrom(args, i, f).displayHelp
    decreases |args| - i
  {
    if i < |args| {
      if args[i] == "--help" || args[i] == "-h" {
        HelpFlagSticks(args, i + 1, f.(displayHelp := true));
      } else if TakesValue(args[i]) && i + 1 < |args| {
        HelpFlagSticks(args, i + 2, TakeFlag(f, args[i], args[i + 1]));
      } else {
        HelpFlagSticks(args, i + 1, f);
      }
    }
  }

  /** The parsed source merged last decides the log level of the whole configuration. */
  lemma ArgumentsDecideLogLevel(defaults: Config, file: Config, env: Config, args: seq<string>)
    ensures Load(defaults, [file, env, Finish(ParseFrom(args, 1, Unset)).config]).logLevel
         == ParseFrom(args, 1, Unset).logLevel.GetOr(Info)
  {
    LoadIsLastSet(defaults, [file, env, Finish(ParseFrom(args, 1, Unset)).config]);
  }
}
