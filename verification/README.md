# gospace in Dafny

A model of the path-resolution and environment-composition core of
`gospace`, a launcher that spawns a shell configured for a Go workspace,
together with the argument handling of its `flag` package.

The model covers:

- the filesystem existence checks and the search of a path-list variable
  (`SearchPathEnvironment`);
- the resolution of a workspace directory, first locally, then through
  CDPATH, then through GOSPACES (`ResolveGospace`);
- the choice of a shell: explicit path, then `$SHELL`, then `/bin/sh`
  (`builder.use`, `builder.build`, `ResolveShell`, `Shell.String`);
- the workspace built from the resolved directories, and the GOPATH,
  GOBIN and PATH values derived from it (`ParseWorkspace`, `concatPath`,
  `extendPath`);
- log levels: parsing numbers and names, naming, raising, and the
  threshold of each logging channel;
- command-line parameters (prefix matching, `=`-values), the argument
  registry, and the argument loop of `Parser.Parse` with `fire` and `On`;
- the wiring of the entry point: the parser's directory resolver is
  `ResolveGospace`, and the gospace action resolves the shell and builds
  the workspace with `keepEnv = !Blank`.

The host is explicit. `Paths.Host` holds the environment as a map from
name to value and the filesystem as a map from path to `File` or `Dir`.
A path missing from the map is one whose `stat` fails, for any reason.
`Host` also holds the startup working directory and three uninterpreted
functions: `abs` (which may fail), `join` and `isAbs`. The global log
level is threaded through the parser as an integer. Callbacks and the
directory resolver are function values.

Modules follow the source files: `Paths` (path.go), `Spaces` (spaces.go),
`Shells` (shell.go), `Workspaces` (workspace.go), `Logging` (logging.go),
`Parameters` (parameter.go), `FlagArguments` (arguments.go), `FlagParser`
(parser.go) and `Launcher` (main.go). `Results` and `Strings` hold shared
helpers: `Split` and `Join` on a one-character separator, a prefix test,
and ASCII lower-casing.

Where the code and its comments disagree, the model follows the code:

- `ParseLogLevel`'s guard `LOG_TRACE > v || LOG_FATAL < v` holds for
  every integer, so the function is the identity. The `LOG_OFF` branch its
  comment describes is unreachable. `Increase` therefore does not clamp,
  although its comment says it does. Raising `TRACE` by 2 gives a level
  named "OFF" at which every channel still writes.
- The comment at parser.go:95 says "-vvv will yield full verbosity". In
  the code, `-vvv` is one argument and matches once, so it raises the
  level by 2. Three separate `-v` arguments reach TRACE from OFF.

Behaviour of the code that is easy to miss, and that the model keeps:

- A CDPATH or GOSPACES hit only has to exist, so `ResolveGospace` can
  return a file. Only the local check asks for a directory.
- An unset or empty list variable yields one empty candidate, and
  `Join("", rel)` is probed like any other candidate.
- The fallback `/bin/sh` also goes through the PATH search. When it
  exists, it is found by the absolute-path short cut.
- No argument matches two of the seven parameters. The order in which the
  loop tests them is therefore irrelevant. What is ordered is `--` first,
  then the parameters, then an unknown dash argument, then the resolver.

## Model

| member | source | states |
|---|---|---|
| `Strings.Split` | src/gospace/path.go:20-21 | a path-list value splits into one more piece than it has separators, and no piece contains a separator (with `JoinSplit`/`SplitJoin`: joining undoes splitting and vice versa) |
| `Paths.DirExistsImpliesPathExists` | src/gospace/path.go:47-61 | an existing directory exists; an existing file is not a directory; a failed stat counts as absent for both |
| `Paths.Candidates` | src/gospace/path.go:20-21 | a list variable yields separators + 1 candidates, and an unset one yields exactly one empty candidate |
| `Paths.Probe` | src/gospace/path.go:31-38 | a candidate contributes a path only when its absolute conversion succeeds, and the path it contributes is that conversion of `join(fragment, rel)` and exists |
| `Paths.SearchFragments` | src/gospace/path.go:30-41 | the search succeeds iff some candidate hits; the result is the hit of the first such candidate in split order; a miss is exactly `("", false)` |
| `Paths.SearchPathEnvironment` | src/gospace/path.go:19-42 | an existing absolute `rel` is returned unchanged; otherwise the first existing `Abs(Join(candidate, rel))` wins; a found path exists; a miss is `("", false)` and means no candidate hit |
| `Paths.LaterCandidatesIgnored` | src/gospace/path.go:30-39 | candidates after the first hit do not affect the result |
| `Paths.ShortCircuitIgnoresEnvironment` | src/gospace/path.go:23-26 | an existing absolute path is found whatever the environment holds |
| `Paths.UnsetVariableSearchesEmptyCandidate` | src/gospace/path.go:20-39 | with the variable unset, the search is exactly a probe of `Join("", rel)` |
| `Paths.FailedConversionSkipsCandidate` | src/gospace/path.go:33-37 | a candidate whose absolute conversion fails is skipped and the search continues |
| `Spaces.ResolveGospace` | src/gospace/spaces.go:19-36 | a local directory wins; a success always exists; failure happens iff the local check, CDPATH and GOSPACES all miss, and its message names the original input |
| `Spaces.LocalDirectoryIgnoresEnvironment` | src/gospace/spaces.go:20-25 | when the absolute form is an existing directory, neither CDPATH nor GOSPACES can change the result |
| `Spaces.AbsoluteDirectoryResolvesToItself` | src/gospace/spaces.go:20-25 | an existing absolute directory that `Abs` leaves unchanged resolves to itself |
| `Spaces.CdpathBeforeGospaces` | src/gospace/spaces.go:27-33 | after a local miss, a CDPATH hit is the result, on the given host and for every other GOSPACES value |
| `Spaces.GospacesAfterCdpath` | src/gospace/spaces.go:27-35 | GOSPACES decides only when the local check and CDPATH both miss; if it misses too the error is `No such directory '<dir>'` |
| `Spaces.LocalFileFallsThrough` | src/gospace/spaces.go:20-33 | an existing file at the absolute form does not short-circuit; success then depends only on the two list searches |
| `Spaces.ResolvedPathMayBeFile` | src/gospace/spaces.go:27-29 | a concrete host where the resolved path is a file, not a directory |
| `Shells.Use` | src/gospace/shell.go:69-92 | a set artifact is never replaced; an empty path, a failed search or a directory hit leave the builder unchanged; a newly set artifact is the search hit and an existing non-directory |
| `Shells.UseAll` | src/gospace/shell.go:112-115 | chained `use` from an empty builder ends with an artifact iff some candidate is usable, and that artifact is the offer of the first usable candidate |
| `Shells.Build` | src/gospace/shell.go:94-100 | building succeeds iff an artifact is set, and then returns it; otherwise the error is the resolve error |
| `Shells.ShellCandidates` | src/gospace/shell.go:108-115 | exactly three candidates, tried in the order explicit path, the value of `$SHELL`, `/bin/sh` |
| `Shells.ResolveShell` | src/gospace/shell.go:108-124 | success carries the first usable candidate, an existing non-directory, and the caller's arguments unchanged; failure happens iff no candidate is usable and carries the resolve error |
| `Shells.ExplicitShellWins` | src/gospace/shell.go:112-115 | a usable explicit path is chosen whatever `$SHELL` and the fallback would give |
| `Shells.ShellVariableSecond` | src/gospace/shell.go:112-115 | when the explicit path is unusable and `$SHELL` is usable, `$SHELL`'s hit is chosen whatever `/bin/sh` would give |
| `Shells.DirectoryCandidateSkipped` | src/gospace/shell.go:83-85 | an explicit path that resolves to a directory gives the same result as no explicit path |
| `Shells.FallbackSearched` | src/gospace/shell.go:110-115 | with no explicit path and `$SHELL` unset, the result is what the PATH search makes of `/bin/sh` |
| `Shells.ShellString` | src/gospace/shell.go:55-63 | the text starts with `Shell(<path>` and ends with `)`; without arguments it is exactly `Shell(<path>)` |
| `Shells.ShellStringRoundTrip` | src/gospace/shell.go:55-63 | when nothing contains a space, splitting the text inside the parentheses on spaces gives back the path followed by the arguments |
| `Workspaces.ExtendPath` | src/gospace/workspace.go:132-137 | the given entries are kept in front, followed by separators + 1 entries that join back to the variable's value |
| `Workspaces.ConcatPath` | src/gospace/workspace.go:121-130 | the value is the mandatory directory followed by the list, all joined with the separator; with an empty list it is the directory alone |
| `Workspaces.ParseWorkspace` | src/gospace/workspace.go:80-119 | root is the startup directory for no paths, else the first path; includes are the remaining paths, followed by the inherited GOPATH entries with `keepEnv`; PATH entries are kept in order, after `<sdk>/bin` when an SDK is given; no error is possible |
| `Workspaces.GenerateGOPATH` | src/gospace/workspace.go:48-50 | with no includes GOPATH is the root alone |
| `Workspaces.GenerateGOBIN` | src/gospace/workspace.go:53-55 | GOBIN is the root joined with `bin` through the same `join` the rest of the model uses |
| `Workspaces.GeneratePATH` | src/gospace/workspace.go:58-60 | with no OS entries PATH is GOBIN alone |
| `Workspaces.EnvGOPATH` | src/gospace/workspace.go:38-40 | the pair is `GOPATH=` followed by the GOPATH value |
| `Workspaces.EnvGOBIN` | src/gospace/workspace.go:43-45 | the pair is `GOBIN=` followed by the GOBIN value |
| `Workspaces.GopathLists` | src/gospace/workspace.go:48-50 | splitting GOPATH lists the root first, then the includes in order |
| `Workspaces.PathLists` | src/gospace/workspace.go:58-60 | splitting PATH lists GOBIN first, then the OS entries in order |
| `Workspaces.KeptGopathOrder` | src/gospace/workspace.go:88-106 | with `keepEnv`, GOPATH lists the root, the explicit includes, then the inherited entries, so explicit directories take precedence |
| `Workspaces.SdkPathOrder` | src/gospace/workspace.go:108-116 | with an SDK, PATH lists GOBIN, then `<sdk>/bin`, then the inherited entries in their original order |
| `Logging.ParseLogLevel` | src/gospace/logging.go:79-89 | every integer is returned unchanged; nothing is mapped to OFF |
| `Logging.Increase` | src/gospace/logging.go:59-63 | the new level is the old one plus the difference, with no clamping |
| `Logging.IncreasePastTrace` | src/gospace/logging.go:59-63 | raising TRACE by 2 gives 8, which is named "OFF" while every channel still writes |
| `Logging.LevelName` | src/gospace/logging.go:40-57 | the name is "OFF" exactly for values outside 1..6, and is always one of the seven level names |
| `Logging.ParseLogName` | src/gospace/logging.go:93-130 | every recognised synonym, in any ASCII case, gives the level of its group; everything else gives OFF; the result lies in 0..6 |
| `Logging.ParseLogNameIgnoresCase` | src/gospace/logging.go:93-94 | lower-casing the input first never changes the result |
| `Logging.NameRoundTrip` | src/gospace/logging.go:40-130 | parsing the name of any level in 0..6 gives that level back |
| `Logging.EmitsMonotone` | src/gospace/logging.go:134-178 | when a more verbose channel writes, every less verbose one writes too |
| `Logging.ChannelsAtExtremes` | src/gospace/logging.go:134-178 | at OFF or below none of the six channels (trace, debug, info, warning, error, fatal) writes; at TRACE or above all six write |
| `Logging.LevelFromEnvironment` | src/gospace/logging.go:65-77 | an empty value keeps OFF; a number is taken as it is; any other text is parsed as a level name, giving a level in 0..6 |
| `Parameters.NewArgParameter` | src/cli/gospace/flag/parameter.go:84-86 | the fields are the arguments, and a non-empty value name makes a non-flag |
| `Parameters.NewFlagParameter` | src/cli/gospace/flag/parameter.go:88-90 | the fields are the arguments, and the result is always a flag |
| `Parameters.MatchesCharacters` | src/cli/gospace/flag/parameter.go:21-27 | a match means `-` followed by the short letter, or `--` followed by the long name, at the start of the argument |
| `Parameters.ShortLetterDecides` | src/cli/gospace/flag/parameter.go:21-27 | for an argument `-x...` with `x` not a dash, it matches iff `x` is the short letter |
| `Parameters.TerminatorMatchesNothing` | src/cli/gospace/flag/parameter.go:21-27 | `--` alone matches no parameter that has a long name and a short letter other than `-` |
| `Parameters.MatchesNeedsDash` | src/cli/gospace/flag/parameter.go:21-27 | every match starts with a dash, so an argument without one matches no parameter |
| `Parameters.MatchesExtends` | src/cli/gospace/flag/parameter.go:21-27 | matching is a prefix test: anything appended to a match still matches |
| `Parameters.ParseValue` | src/cli/gospace/flag/parameter.go:29-42 | the value is everything after the first `=`, or empty when there is no `=` |
| `Parameters.ParseValueAfterKey` | src/cli/gospace/flag/parameter.go:29-42 | only the first `=` is consumed, so `key=v` gives `v` even when `v` holds `=` |
| `Parameters.ParseValueOr` | src/cli/gospace/flag/parameter.go:44-57 | a non-empty value wins; otherwise a named variable is read, even if empty; with no name the fallback is used |
| `Parameters.ParseIntValueOr` | src/cli/gospace/flag/parameter.go:59-69 | the parsed number when the value is non-empty and parses, the fallback otherwise |
| `FlagArguments.NewArguments` | src/cli/gospace/flag/arguments.go:24-30 | both flags false, both strings empty, both lists empty |
| `FlagArguments.AppendShellArgument` | src/cli/gospace/flag/arguments.go:15-17 | the value is added at the end of the shell arguments, and no other field changes |
| `FlagArguments.AppendPath` | src/cli/gospace/flag/arguments.go:20-22 | the value is added at the end of the directories, and no other field changes |
| `FlagArguments.ShellArgumentsInOrder` | src/cli/gospace/flag/arguments.go:15-17 | a sequence of shell-argument appends yields the values in call order |
| `FlagArguments.PathsInOrder` | src/cli/gospace/flag/arguments.go:20-22 | a sequence of directory appends yields the values in call order |
| `FlagParser.NewParser` | src/cli/gospace/flag/parser.go:140-144 | a new parser keeps the two variable names and the resolver, and has no callbacks |
| `FlagParser.On` | src/cli/gospace/flag/parser.go:50-58 | the action now maps to the new callback, replacing any earlier one; every other registration, the variable names and the resolver are kept |
| `FlagParser.Fire` | src/cli/gospace/flag/parser.go:119-127 | a registered callback answers for its action; an unregistered action answers `(0, nil)` |
| `FlagParser.Step` | src/cli/gospace/flag/parser.go:69-113 | in passthrough an argument is appended verbatim; a stop keeps the level; a step raises the level by 0 or 2, never leaves passthrough, and appends at most the resolution of its argument |
| `FlagParser.Run` | src/cli/gospace/flag/parser.go:63-117 | the level only rises, by an even amount; from passthrough the loop always reaches the gospace action; shell arguments are only appended to; every directory added is the resolver's answer for some argument |
| `FlagParser.Parse` | src/cli/gospace/flag/parser.go:63-117 | the first `--` or stopping argument decides. If there is none, or it is `--`, the gospace action fires; its registry holds the resolved plain arguments before that point, in order, and exactly the arguments after the `--` as shell arguments. A help or version match fires that action with the directories gathered before it and no shell arguments. An unknown dash argument or a rejected directory returns status 0 with its error |
| `FlagParser.RunToBoundary` | src/cli/gospace/flag/parser.go:69-116 | from any normal-mode state, the loop's outcome is decided at the first `--` or stopping argument, and the directories and shell arguments gained are fixed by the input: shell arguments are gained only after a `--`, so none when help or version fires |
| `FlagParser.GospaceFiresIff` | src/cli/gospace/flag/parser.go:69-116 | the gospace action fires iff no argument before the first `--` is a help or version match, an unknown dash argument or a rejected directory |
| `FlagParser.StoppedAtFirstStopper` | src/cli/gospace/flag/parser.go:81-108 | a help, version or abort outcome comes from the first stopping argument, which precedes any `--`, and every argument before it is ordinary |
| `FlagParser.PassthroughVerbatim` | src/cli/gospace/flag/parser.go:69-74 | in passthrough every remaining argument is appended to the shell arguments and the gospace action follows |
| `FlagParser.TerminatorPassesRestThrough` | src/cli/gospace/flag/parser.go:77-80 | after a `--` the remaining arguments reach the shell verbatim, in order, and none is interpreted |
| `FlagParser.Occurrences` | src/cli/gospace/flag/parser.go:87-102 | the count of arguments matching a parameter is positive iff some argument matches it |
| `FlagParser.Setting` | src/cli/gospace/flag/parser.go:97-102 | the value an option field ends with is what its last matching argument stores, or the starting value when no argument matches |
| `FlagParser.RunFlagsToBoundary` | src/cli/gospace/flag/parser.go:69-116 | from any normal-mode state, the level rises by 2 for each `-v` before the first `--` or stopping argument; when an action fires, `blank`/`noRun` are set iff they were or a `-b`/`-n` precedes that point, and the shell and SDK are the last `-s`/`-g` values there |
| `FlagParser.CommandLineSettings` | src/cli/gospace/flag/parser.go:63-116 | for a whole command line: the final level counts the `-v` arguments before the boundary; `blank` and `noRun` hold iff a `-b` or `-n` appears there; the shell and SDK come from the last `-s` and `-g` there, empty when absent |
| `FlagParser.RunAppend` | src/cli/gospace/flag/parser.go:69-116 | the loop over `xs + ys` is the loop over `xs`, then, unless it stopped, the loop over `ys` from the state it reached |
| `FlagParser.TriggerStopsLoop` | src/cli/gospace/flag/parser.go:81-86 | a help or version match before `--` fires at once with the registry built so far; later arguments are never examined |
| `FlagParser.LetterPicksParameter` | src/cli/gospace/flag/parser.go:129-137 | for `-x...` with `x` not a dash, the letter alone decides which of the seven parameters match, and the argument is not `--` |
| `FlagParser.FirstLetterDecides` | src/cli/gospace/flag/parser.go:81-86 | the letter after the dash decides and the rest is ignored: `-hV` asks for help, `-Vh` for the version |
| `FlagParser.ParametersDisjoint` | src/cli/gospace/flag/parser.go:129-137 | no argument matches two of the seven parameters, so the order of the parameter tests at parser.go:81-102 does not matter |
| `FlagParser.DryFlagSetsNoRun` | src/cli/gospace/flag/parser.go:87-89 | a `-n...` argument sets the dry-run flag, changes nothing else, and the loop goes on |
| `FlagParser.BlankFlagSetsBlank` | src/cli/gospace/flag/parser.go:90-92 | a `-b...` argument sets the blank flag, changes nothing else, and the loop goes on |
| `FlagParser.UnknownDashArgumentAborts` | src/cli/gospace/flag/parser.go:103-104 | a dash argument matching no parameter returns status 0 with `Unknown argument '<arg>'`, and no callback fires |
| `FlagParser.UnresolvedDirectoryAborts` | src/cli/gospace/flag/parser.go:105-108 | a directory the resolver rejects aborts the loop with the resolver's error |
| `FlagParser.ResolvedDirectoryAppended` | src/cli/gospace/flag/parser.go:105-111 | a resolved directory is appended and the loop continues with the next argument |
| `FlagParser.VerboseFlagRaisesLevel` | src/cli/gospace/flag/parser.go:93-96 | in normal mode, a `-v...` argument in front of any remaining arguments runs exactly like those arguments from a level 2 higher; nothing else about the state changes |
| `FlagParser.VerboseFlagsRaiseLevel` | src/cli/gospace/flag/parser.go:93-96 | `n` copies of the same verbose argument raise the level by exactly `2n` and fire the gospace action |
| `FlagParser.VerbosityCounting` | src/cli/gospace/flag/parser.go:93-96 | `-vvv` raises the level once; three `-v` reach TRACE from OFF |
| `FlagParser.ShellFlagSetsShell` | src/cli/gospace/flag/parser.go:97-99 | a `-s...` argument stores its value, or the variable's value, as the shell and the loop goes on |
| `FlagParser.GoFlagSetsSdk` | src/cli/gospace/flag/parser.go:100-102 | a `-g...` argument stores its value, or the variable's value, as the SDK and the loop goes on |
| `FlagParser.LaterShellFlagWins` | src/cli/gospace/flag/parser.go:97-99 | a later `-s=<v>` overwrites an earlier one |
| `FlagParser.BareShellFlagReadsVariable` | src/cli/gospace/flag/parser.go:97-99 | a bare `-s` takes the value of the shell variable |
| `FlagParser.LaterGoFlagWins` | src/cli/gospace/flag/parser.go:100-102 | a later `-g=<v>` overwrites an earlier one |
| `FlagParser.BareGoFlagReadsVariable` | src/cli/gospace/flag/parser.go:100-102 | a bare `-g` takes the value of the SDK variable |
| `FlagParser.ResolvedPathsExist` | src/cli/gospace/flag/parser.go:105-111 | if the resolver only returns existing paths, every directory handed to the gospace action exists |
| `Launcher.CommandLine` | src/cli/gospace/main.go:23-28 | the entry point's parser reads GOHOME and SHELL for bare `-g`/`-s` and resolves directories with `ResolveGospace` |
| `Launcher.ArgumentDirectoriesExist` | src/cli/gospace/main.go:50-52 | every directory the gospace action receives exists on the host |
| `Launcher.Prepare` | src/cli/gospace/main.go:66-74 | an unresolvable shell ends with status 1 and the resolve error; otherwise the shell is the one `ResolveShell` returned, with the shell arguments, and the workspace is built with `keepEnv = !Blank` |
| `Launcher.BlankControlsInheritedGopath` | src/cli/gospace/main.go:73 | with `-b` the inherited GOPATH entries are dropped; without it they follow the explicit includes |
| `Launcher.BlankFlagDropsInheritedGopath` | src/cli/gospace/main.go:66-74 | for a whole command line that fires the gospace action with a resolvable shell, the workspace's GOPATH is the explicit includes alone iff some argument before the boundary is a `-b`, and otherwise the includes followed by the inherited entries |

## Left out

- `Shell.Launch` (shell.go:37-53) is not modelled. It spawns a process, sets PATH in the process environment and attaches the standard streams. `Launcher.Prepare` stops just before the launch, so status 4 is never produced.
- The printing in `main.go` is left out: help text, the version line, and `os.Exit`. Callbacks are arbitrary functions from the registry to a reply.
- `WriteUsage` and `Parameter.Usage` are left out. They only render text with `fmt` padding.
- The printing done by `T`, `D`, `I`, `W`, `E` and `F` is left out. Only the threshold test each channel applies is modelled (`Logging.Emits`).
- The `init` functions that read the environment or the working directory are not modelled as such. Their values are parameters instead: `Host.cwd` for the startup directory, and `LevelFromEnvironment`'s input for the log variable.
- `os.Stat`, `filepath.Abs`, `filepath.Join`, `path.Join` and `filepath.IsAbs` are not implemented. They are an abstract filesystem map and uninterpreted functions, and path cleaning is not modelled. `path.Join` and `filepath.Join` are the same function on Unix, so one `join` stands for both.
- `strconv.Atoi` is an abstract partial parser (`atoi`).
- The model is of the Unix build. The list separator is fixed to `:` (`os.PathListSeparator` is `;` on Windows), and `path.Join` is treated as `filepath.Join`.
- `ParseLogName`, `Strings.Lower`: `strings.ToLower` is modelled for ASCII letters only. Go also maps some non-ASCII letters onto ASCII ones: U+0130 becomes `i` and the Kelvin sign U+212A becomes `k`. So a name such as `PANİC` or `İNFO` names a level in the source but gives OFF in the model.
- `Parameter.Short` is a byte in the source and a `char` here. All seven short letters are ASCII, so `string(Short)` is that single character.
- `Logging.Increase`: `LogLevel` is a machine-size `int` in the source (32 or 64 bits, depending on the platform). The starting level from `GOSPACE_VERBOSE` can be any `int` that `strconv.Atoi` accepts, so a `-v` can wrap the level to a negative value near `math.MaxInt`, after which every channel is silent. Wrap-around is not modelled: the model's level keeps growing and every channel keeps writing.
- `Workspace.String` is not modelled. It is only used for display.
- The wrong variable name in the debug message at spaces.go:31 is not modelled. It only affects printed text.
- Go returns `""` together with an error. Here an error is a `Failure` that carries no path.
