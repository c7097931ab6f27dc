/**
 * The C balancer's command line: the argument loop of `main`, the port
 * check, and the overrides applied to the loaded configuration. The
 * program name (`argv[0]`) is not part of `args`.
 */
module CommandLine {
  import opened Options
  import opened Text

  const DefaultConfigFile: string := "config/loadbalancer.conf"

  /** What the argument loop collects; a port of -1 means none was given. */
  datatype Settings = Settings(configFile: string, port: int, daemon: bool, verbose: bool)

  const Defaults: Settings := Settings(DefaultConfigFile, -1, false, false)

  /** Go on with these settings, or leave `main` with an exit status. */
  datatype Parsed = Proceed(settings: Settings) | Exit(status: int)

  // ----------------------------------------------------------------- atoi

  const TwoTo31: int := 0x8000_0000
  const TwoTo32: int := 0x1_0000_0000
  const TwoTo63: int := 0x8000_0000_0000_0000

  /** C's `isspace` in the C locale. */
  predicate IsSpace(c: char)
  {
    c == ' ' || '\t' <= c <= '\r'
  }

  function SkipSpace(s: string): (r: string)
    ensures |r| <= |s| && r == s[|s| - |r|..]
    ensures |r| > 0 ==> !IsSpace(r[0])
    ensures |s| > 0 && !IsSpace(s[0]) ==> r == s
    decreases |s|
  {
    if |s| > 0 && IsSpace(s[0]) then SkipSpace(s[1..]) else s
  }

  /** The longest prefix of decimal digits. */
  function DigitRun(s: string): (r: string)
    ensures r <= s
    ensures forall i :: 0 <= i < |r| ==> IsDigit(r[i])
    ensures |r| < |s| ==> !IsDigit(s[|r|])
    decreases |s|
  {
    if |s| > 0 && IsDigit(s[0]) then [s[0]] + DigitRun(s[1..]) else []
  }

  /** `strtol`'s saturation at the bounds of a 64-bit `long`. */
  function ClampLong(x: int): (r: int)
    ensures -TwoTo63 <= r < TwoTo63
    ensures -TwoTo63 <= x < TwoTo63 ==> r == x
  {
    if x < -TwoTo63 then -TwoTo63 else if x >= TwoTo63 then TwoTo63 - 1 else x
  }

  /** Conversion of a `long` to a 32-bit `int`: the value modulo 2^32, read in two's complement. */
  function ToInt32(x: int): (r: int)
    ensures -TwoTo31 <= r < TwoTo31
    ensures (r - x) % TwoTo32 == 0
    ensures -TwoTo31 <= x < TwoTo31 ==> r == x
  {
    (x + TwoTo31) % TwoTo32 - TwoTo31
  }

  /**
   * glibc's `atoi`: skip white space, take an optional sign and the digits
   * that follow, saturate as `strtol` does, and truncate to `int`.
   * Anything after the digits is ignored; no digits gives 0.
   */
  function Atoi(s: string): (n: int)
    ensures -TwoTo31 <= n < TwoTo31
  {
    var t := SkipSpace(s);
    var signed := |t| > 0 && (t[0] == '-' || t[0] == '+');
    var digits := DigitRun(if signed then t[1..] else t);
    var magnitude: int := NumeralValue(digits);
    ToInt32(ClampLong(if signed && t[0] == '-' then -magnitude else magnitude))
  }

  /** Reading back a rendered number gives it again, up to the truncation to 32 bits. */
  lemma AtoiDecimal(n: nat)
    requires n < TwoTo63
    ensures Atoi(NatToDecimal(n)) == ToInt32(n)
  {
    AtoiNumeral(NatToDecimal(n));
  }

  /** A plain digit string is read as its value, saturated and truncated. */
  lemma AtoiNumeral(s: string)
    requires IsNumeral(s)
    ensures Atoi(s) == ToInt32(ClampLong(NumeralValue(s)))
  {
    assert SkipSpace(s) == s by {
      assert IsDigit(s[0]);
    }
    assert DigitRun(s) == s by {
      DigitRunAll(s);
    }
  }

  lemma {:induction false} DigitRunAll(s: string)
    requires forall i :: 0 <= i < |s| ==> IsDigit(s[i])
    ensures DigitRun(s) == s
    decreases |s|
  {
    if |s| > 0 {
      DigitRunAll(s[1..]);
    }
  }

  /** Every port number renders and reads back as itself. */
  lemma AtoiPortRoundTrip(port: nat)
    requires port < TwoTo31
    ensures Atoi(NatToDecimal(port)) == port
  {
    AtoiDecimal(port);
    assert ToInt32(port) == port;
  }

  // --------------------------------------------------------- argument loop

  /** The options `main` recognises. */
  datatype Flag = ConfigFlag | PortFlag | DaemonFlag | VerboseFlag | HelpFlag | VersionFlag | UnknownFlag

  function FlagOf(arg: string): (f: Flag)
    ensures f == ConfigFlag <==> arg == "-c" || arg == "--config"
    ensures f == PortFlag <==> arg == "-p" || arg == "--port"
    ensures f == DaemonFlag <==> arg == "-d" || arg == "--daemon"
    ensures f == VerboseFlag <==> arg == "-v" || arg == "--verbose"
    ensures f == HelpFlag <==> arg == "-h" || arg == "--help"
    ensures f == VersionFlag <==> arg == "--version"
  {
    if arg == "-c" || arg == "--config" then ConfigFlag
    else if arg == "-p" || arg == "--port" then PortFlag
    else if arg == "-d" || arg == "--daemon" then DaemonFlag
    else if arg == "-v" || arg == "--verbose" then VerboseFlag
    else if arg == "-h" || arg == "--help" then HelpFlag
    else if arg == "--version" then VersionFlag
    else UnknownFlag
  }

  /** The port range `-p` accepts. */
  predicate ValidPort(p: int)
  {
    0 < p <= 65535
  }

  /** A port setting that is either absent or in range. */
  predicate PortSetting(p: int)
  {
    p == -1 || ValidPort(p)
  }

  /** One turn of the loop: stop with an outcome, or go on with the remaining arguments. */
  datatype Progress = Continue(rest: seq<string>, next: Settings) | Stop(outcome: Parsed)

  /**
   * One option: `-c` and `-p` consume the next argument, help and version
   * leave with 0, anything wrong leaves with 1.
   */
  function Step(args: seq<string>, st: Settings): (p: Progress)
    requires |args| > 0
    ensures p.Continue? ==> |p.rest| < |args| && p.rest == args[|args| - |p.rest|..]
    ensures p.Stop? ==> p.outcome.Exit? && (p.outcome.status == 0 <==> FlagOf(args[0]) in {HelpFlag, VersionFlag})
    ensures p.Continue? && PortSetting(st.port) ==> PortSetting(p.next.port)
  {
    match FlagOf(args[0])
    case ConfigFlag =>
      if |args| < 2 then Stop(Exit(1)) else Continue(args[2..], st.(configFile := args[1]))
    case PortFlag =>
      if |args| < 2 then Stop(Exit(1))
      else
        var port := Atoi(args[1]);
        if !ValidPort(port) then Stop(Exit(1)) else Continue(args[2..], st.(port := port))
    case DaemonFlag => Continue(args[1..], st.(daemon := true))
    case VerboseFlag => Continue(args[1..], st.(verbose := true))
    case HelpFlag => Stop(Exit(0))
    case VersionFlag => Stop(Exit(0))
    case UnknownFlag => Stop(Exit(1))
  }

  /** A step looks only at the arguments it consumes. */
  lemma StepAppend(a: seq<string>, b: seq<string>, st: Settings)
    requires |a| > 0 && Step(a, st).Continue?
    ensures Step(a + b, st) == Continue(Step(a, st).rest + b, Step(a, st).next)
  {
    assert (a + b)[0] == a[0];
    if FlagOf(a[0]) in {ConfigFlag, PortFlag} {
      assert (a + b)[1] == a[1] && (a + b)[2..] == a[2..] + b;
    } else {
      assert (a + b)[1..] == a[1..] + b;
    }
  }

  /** The argument loop from the current settings, taking options left to right. */
  function ParseFrom(args: seq<string>, st: Settings): (r: Parsed)
    ensures r.Exit? ==> r.status == 0 || r.status == 1
    ensures r.Proceed? && PortSetting(st.port) ==> PortSetting(r.settings.port)
    ensures |args| > 0 && FlagOf(args[0]) in {HelpFlag, VersionFlag} ==> r == Exit(0)
    ensures |args| > 0 && FlagOf(args[0]) == UnknownFlag ==> r == Exit(1)
    ensures |args| == 1 && FlagOf(args[0]) in {ConfigFlag, PortFlag} ==> r == Exit(1)
    decreases |args|
  {
    if |args| == 0 then Proceed(st)
    else match Step(args, st)
      case Stop(outcome) => outcome
      case Continue(rest, next) => ParseFrom(rest, next)
  }

  /** `main`'s loop over `argv[1..]`. */
  function ParseArgs(args: seq<string>): (r: Parsed)
    ensures |args| == 0 ==> r == Proceed(Defaults)
    ensures r.Proceed? ==> PortSetting(r.settings.port)
  {
    ParseFrom(args, Defaults)
  }

  /** Parsing runs left to right: a prefix that parses completely hands its settings to the rest. */
  lemma {:induction false} ParseAppend(a: seq<string>, b: seq<string>, st: Settings)
    requires ParseFrom(a, st).Proceed?
    ensures ParseFrom(a + b, st) == ParseFrom(b, ParseFrom(a, st).settings)
    decreases |a|
  {
    if |a| == 0 {
      assert a + b == b;
    } else {
      var p := Step(a, st);
      StepAppend(a, b, st);
      assert |a + b| > 0;
      ParseAppend(p.rest, b, p.next);
    }
  }

  /** The last `-c` wins: appending one replaces the configuration file and nothing else. */
  lemma LastConfigWins(a: seq<string>, file: string)
    requires ParseArgs(a).Proceed?
    ensures ParseArgs(a + ["-c", file]) == Proceed(ParseArgs(a).settings.(configFile := file))
  {
    ParseAppend(a, ["-c", file], Defaults);
    assert ["-c", file][2..] == [];
  }

  /** The last `-p` wins, and only a value in 1..65535 is taken; any other value exits 1. */
  lemma LastPortWins(a: seq<string>, value: string)
    requires ParseArgs(a).Proceed?
    ensures ValidPort(Atoi(value)) ==>
      ParseArgs(a + ["-p", value]) == Proceed(ParseArgs(a).settings.(port := Atoi(value)))
    ensures !ValidPort(Atoi(value)) ==> ParseArgs(a + ["-p", value]) == Exit(1)
  {
    ParseAppend(a, ["-p", value], Defaults);
    assert ["-p", value][2..] == [];
  }

  /** Help or version stops the loop with 0, whatever follows it. */
  lemma HelpStops(a: seq<string>, flag: string, rest: seq<string>)
    requires ParseArgs(a).Proceed?
    requires FlagOf(flag) in {HelpFlag, VersionFlag}
    ensures ParseArgs(a + [flag] + rest) == Exit(0)
  {
    ParseAppend(a, [flag] + rest, Defaults);
    assert a + [flag] + rest == a + ([flag] + rest);
  }

  /**
   * The port check sees the number only after truncation to 32 bits, so a
   * value past 2^32 wraps: 4294975376 (2^32 + 8080) is taken as port 8080,
   * and 4294967296 (2^32) as 0, which is refused.
   */
  lemma PortWraps(n: nat)
    requires n < TwoTo63
    ensures ValidPort(ToInt32(n)) ==> ParseArgs(["-p", NatToDecimal(n)]) == Proceed(Defaults.(port := ToInt32(n)))
    ensures !ValidPort(ToInt32(n)) ==> ParseArgs(["-p", NatToDecimal(n)]) == Exit(1)
  {
    LastPortWins([], NatToDecimal(n));
    assert [] + ["-p", NatToDecimal(n)] == ["-p", NatToDecimal(n)];
    AtoiDecimal(n);
  }

  // ------------------------------------------------------------ overrides

  /** Log levels of the C configuration; only `LOG_DEBUG` is set from the command line. */
  datatype LogLevel = LogDebug | LogInfo | LogWarning | LogError

  /** The parts of the loaded configuration the command line can override. */
  datatype Config = Config(serverPort: int, logLevel: LogLevel)

  /** A given port (> 0) replaces the configured one; `-v` forces debug logging. */
  function Override(c: Config, st: Settings): (r: Config)
    ensures r.serverPort == (if st.port > 0 then st.port else c.serverPort)
    ensures r.logLevel == (if st.verbose then LogDebug else c.logLevel)
  {
    Config(if st.port > 0 then st.port else c.serverPort, if st.verbose then LogDebug else c.logLevel)
  }

  /** How `main` gets past setup: it either goes on with a configuration or exits with a status. */
  datatype Startup = Started(config: Config, daemon: bool) | Quit(status: int)

  /**
   * The start of `main`: parse the arguments, install the signal handlers,
   * load the configuration file (`loaded` is None when that fails), then
   * apply the overrides.
   */
  function Start(args: seq<string>, signalsOk: bool, load: string -> Option<Config>): (r: Startup)
    ensures r.Quit? <==> ParseArgs(args).Exit? || !signalsOk || load(ParseArgs(args).settings.configFile).None?
    ensures r.Quit? && ParseArgs(args).Proceed? ==> r.status == 1
    ensures r.Started? ==> r.daemon == ParseArgs(args).settings.daemon
    ensures r.Started? && ParseArgs(args).settings.port != -1 ==> r.config.serverPort == ParseArgs(args).settings.port
  {
    match ParseArgs(args)
    case Exit(status) => Quit(status)
    case Proceed(st) =>
      if !signalsOk then Quit(1)
      else match load(st.configFile)
        case None => Quit(1)
        case Some(c) => Started(Override(c, st), st.daemon)
  }

  /** Without port or verbose options the configuration is used as loaded. */
  lemma DefaultsKeepConfig(c: Config)
    ensures Override(c, Defaults) == c
  {
  }
}
