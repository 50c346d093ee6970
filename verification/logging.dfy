/**
  Verbosity levels: parsing numbers and names, naming levels, raising the
  level, and the threshold each logging channel applies. The level is a plain
  integer, as in the source; only 0..6 have names.
 */
module Logging {
  import opened Results
  import opened Strings

  /** Variable that sets the verbosity at startup. */
  const LoggingEnv := "GOSPACE_VERBOSE"

  type LogLevel = int

  const Off: LogLevel := 0
  const Fatal: LogLevel := 1
  const Error: LogLevel := 2
  const Warn: LogLevel := 3
  const Info: LogLevel := 4
  const Debug: LogLevel := 5
  const Trace: LogLevel := 6

  predicate IsNamedLevel(l: LogLevel)
  {
    Off <= l <= Trace
  }

  /**
    Converting a number to a level. The guard `Trace > v || Fatal < v`
    holds for every integer, so the value is always kept and the `Off`
    branch is dead: out-of-range values are not mapped to `Off`.
   */
  function ParseLogLevel(value: int): (l: LogLevel)
    ensures l == value
  {
    var cast := value;
    if Trace > cast || Fatal < cast then cast
    else Off
  }

  /** Raising the level by `diff`; nothing clamps the result. */
  function Increase(l: LogLevel, diff: int): (r: LogLevel)
    ensures r == l + diff
    ensures diff > 0 ==> r > l
  {
    ParseLogLevel(l + diff)
  }

  /** The name of a level; every unnamed value, including 0, prints as "OFF". */
  function LevelName(l: LogLevel): (name: string)
    ensures name == "OFF" <==> !(Fatal <= l <= Trace)
    ensures name in {"OFF", "FATAL", "ERROR", "WARN", "INFO", "DEBUG", "TRACE"}
  {
    if l == Trace then "TRACE"
    else if l == Debug then "DEBUG"
    else if l == Info then "INFO"
    else if l == Warn then "WARN"
    else if l == Error then "ERROR"
    else if l == Fatal then "FATAL"
    else "OFF"
  }

  /** The recognised names, in lower case, and the level of each synonym group. */
  const Synonyms: map<string, LogLevel> := map[
    "trace" := Trace, "spam" := Trace,
    "insight" := Debug, "debug" := Debug,
    "info" := Info, "information" := Info, "informative" := Info,
    "warn" := Warn, "warning" := Warn,
    "err" := Error, "error" := Error,
    "fatal" := Fatal, "panic" := Fatal]

  /**
    Converting a name to a level, ignoring ASCII case; each synonym group
    maps to one level and everything else to `Off`.
   */
  function ParseLogName(value: string): (l: LogLevel)
    ensures IsNamedLevel(l)
    ensures Lower(value) in Synonyms ==> l == Synonyms[Lower(value)]
    ensures l == Off <==> Lower(value) !in Synonyms
  {
    match Lower(value)
    case "trace" => Trace
    case "spam" => Trace
    case "insight" => Debug
    case "debug" => Debug
    case "info" => Info
    case "information" => Info
    case "informative" => Info
    case "warn" => Warn
    case "warning" => Warn
    case "err" => Error
    case "error" => Error
    case "fatal" => Fatal
    case "panic" => Fatal
    case _ => Off
  }

  /** Parsing a name ignores ASCII case: lower-casing first changes nothing. */
  lemma ParseLogNameIgnoresCase(value: string)
    ensures ParseLogName(Lower(value)) == ParseLogName(value)
  {
    LowerIdempotent(value);
  }

  /** Naming a level and parsing the name gives the level back. */
  lemma NameRoundTrip(l: LogLevel)
    requires IsNamedLevel(l)
    ensures ParseLogName(LevelName(l)) == l
  {
    if l == Off {
      assert Lower("OFF") == "off";
    } else if l == Fatal {
      assert Lower("FATAL") == "fatal";
    } else if l == Error {
      assert Lower("ERROR") == "error";
    } else if l == Warn {
      assert Lower("WARN") == "warn";
    } else if l == Info {
      assert Lower("INFO") == "info";
    } else if l == Debug {
      assert Lower("DEBUG") == "debug";
    } else {
      assert Lower("TRACE") == "trace";
    }
  }

  /** A channel with threshold `channel` writes when the current level reaches it. */
  predicate Emits(channel: LogLevel, level: LogLevel)
  {
    channel <= level
  }

  /** Thresholds of the channels `T`, `D`, `I`, `W`, `E` and `F`. */
  const ChannelT := Trace
  const ChannelD := Debug
  const ChannelI := Info
  const ChannelW := Warn
  const ChannelE := Error
  const ChannelF := Fatal

  /** When a more verbose channel writes, every less verbose one writes too. */
  lemma EmitsMonotone(verbose: LogLevel, quiet: LogLevel, level: LogLevel)
    requires quiet <= verbose
    ensures Emits(verbose, level) ==> Emits(quiet, level)
  {
  }

  /** At level `Off` no channel writes; from `Trace` upward every channel does. */
  lemma ChannelsAtExtremes(level: LogLevel)
    ensures level <= Off ==>
      && !Emits(ChannelT, level) && !Emits(ChannelD, level) && !Emits(ChannelI, level)
      && !Emits(ChannelW, level) && !Emits(ChannelE, level) && !Emits(ChannelF, level)
    ensures level >= Trace ==>
      && Emits(ChannelT, level) && Emits(ChannelD, level) && Emits(ChannelI, level)
      && Emits(ChannelW, level) && Emits(ChannelE, level) && Emits(ChannelF, level)
  {
  }

  /**
    Raising past `Trace` is not clamped: the level keeps every channel
    writing while its name reads "OFF".
   */
  lemma IncreasePastTrace()
    ensures Increase(Trace, 2) == 8
    ensures LevelName(Increase(Trace, 2)) == "OFF"
    ensures Emits(ChannelT, Increase(Trace, 2))
  {
  }

  /**
    The startup level from the variable's value: unset or empty keeps `Off`;
    a number is taken as it is; anything else is parsed as a name.
    `atoi` stands for the number parser.
   */
  function LevelFromEnvironment(value: string, atoi: string -> Option<int>): (l: LogLevel)
    ensures |value| == 0 ==> l == Off
    ensures |value| > 0 && atoi(value).Some? ==> l == atoi(value).value
    ensures |value| > 0 && atoi(value).None? ==> IsNamedLevel(l)
    ensures |value| > 0 && atoi(value).None? ==> l == ParseLogName(value)
  {
    if 0 < |value| then
      match atoi(value)
      case Some(n) => ParseLogLevel(n)
      case None => ParseLogName(value)
    else Off
  }
}
