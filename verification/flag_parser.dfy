/**
  The command-line parser (`Parser.Parse`, `fire`, `On` and the parameter
  table). The argument loop is a state machine over the arguments: normal
  mode until `--`, then passthrough; a help or version match, an unknown
  dash argument or an unresolvable directory ends the loop early.

  The global verbosity level the loop raises is threaded through explicitly.
 */
module FlagParser {
  import opened Results
  import opened Strings
  import opened Paths
  import opened Logging
  import opened Parameters
  import opened FlagArguments

  datatype Action = HelpAction | VersionAction | GospaceAction

  /** The `(status, error)` pair returned by callbacks and by the parser. */
  datatype Reply = Reply(status: int, err: Option<string>)

  type Callback = Arguments -> Reply

  /** Conversion of a (possibly relative) directory argument. */
  type PathResolver = string -> Result<string>

  /**
    A parser: the variables read by bare `-g` and `-s`, the directory
    resolver, and the callback registered for each action.
   */
  datatype Parser = Parser(
    gosdkEnv: string,
    shellEnv: string,
    resolver: PathResolver,
    callbacks: map<Action, Callback>)

  /** A parser without callbacks. */
  function NewParser(sdk: string, shell: string, resolver: PathResolver): (p: Parser)
    ensures p.gosdkEnv == sdk && p.shellEnv == shell
    ensures forall d :: p.resolver(d) == resolver(d)
    ensures p.callbacks.Keys == {}
  {
    Parser(sdk, shell, resolver, map[])
  }

  /** Registering a callback replaces any earlier one for that action only. */
  function On(p: Parser, action: Action, cb: Callback): (r: Parser)
    ensures r.gosdkEnv == p.gosdkEnv && r.shellEnv == p.shellEnv
    ensures r.resolver == p.resolver
    ensures r.callbacks.Keys == p.callbacks.Keys + {action}
    ensures r.callbacks[action] == cb
    ensures forall a :: a in p.callbacks && a != action ==> r.callbacks[a] == p.callbacks[a]
  {
    p.(callbacks := p.callbacks[action := cb])
  }

  /** Running the callback of an action; an unregistered action answers `(0, nil)`. */
  function Fire(p: Parser, action: Action, argv: Arguments): (r: Reply)
    ensures action !in p.callbacks ==> r == Reply(0, None)
    ensures action in p.callbacks ==> r == p.callbacks[action](argv)
  {
    if action in p.callbacks then p.callbacks[action](argv)
    else Reply(0, None)
  }

  const VersionParam := NewFlagParameter('V', "version", "display the application version and exit")
  const HelpParam := NewFlagParameter('h', "help", "show this message and exit")
  const DryParam := NewFlagParameter('n', "dry", "simulates the shell spawning")
  const BlankParam := NewFlagParameter('b', "blank", "overwrite GOPATH instead of extending it")
  const VerboseParam := NewFlagParameter('v', "verbose", "raise the verbosity")
  const ShellParam := NewArgParameter('s', "shell", "PATH", "run the workspace in a custom shell")
  const GoParam := NewArgParameter('g', "go", "PATH", "include the go installation in the PATH")

  /** Matches none of the seven parameters. */
  predicate MatchesNoParameter(arg: string)
  {
    && !Matches(HelpParam, arg) && !Matches(VersionParam, arg)
    && !Matches(DryParam, arg) && !Matches(BlankParam, arg)
    && !Matches(VerboseParam, arg) && !Matches(ShellParam, arg)
    && !Matches(GoParam, arg)
  }

  function UnknownArgument(arg: string): string
  {
    "Unknown argument '" + arg + "'"
  }

  /** The loop state: passthrough mode, the registry, the verbosity level. */
  datatype State = State(passthrough: bool, argv: Arguments, level: LogLevel)

  /** How the loop ends: an action to fire, or an error returned with status 0. */
  datatype Scan = Trigger(action: Action, argv: Arguments, level: LogLevel) | Abort(message: string, level: LogLevel)

  datatype Next = Continue(state: State) | Stop(scan: Scan)

  /** The state the loop starts from. */
  function Start(level: LogLevel): (st: State)
    ensures !st.passthrough && st.level == level && st.argv == NewArguments()
  {
    State(false, NewArguments(), level)
  }

  /** One iteration of the loop; the cases are tried in the source's order. */
  function Step(p: Parser, env: Env, st: State, arg: string): (r: Next)
    ensures st.passthrough ==> r == Continue(st.(argv := AppendShellArgument(st.argv, arg)))
    ensures r.Stop? ==> r.scan.level == st.level
    ensures r.Continue? ==> r.state.level == st.level || r.state.level == st.level + 2
    ensures r.Continue? ==> st.passthrough ==> r.state.passthrough
    ensures r.Continue? ==> st.argv.shellArgv <= r.state.argv.shellArgv
    ensures r.Continue? ==>
      || r.state.argv.path == st.argv.path
      || (p.resolver(arg).Success? && r.state.argv.path == st.argv.path + [p.resolver(arg).value])
  {
    if st.passthrough then Continue(st.(argv := AppendShellArgument(st.argv, arg)))
    else if arg == "--" then Continue(st.(passthrough := true))
    else if Matches(HelpParam, arg) then Stop(Trigger(HelpAction, st.argv, st.level))
    else if Matches(VersionParam, arg) then Stop(Trigger(VersionAction, st.argv, st.level))
    else if Matches(DryParam, arg) then Continue(st.(argv := st.argv.(noRun := true)))
    else if Matches(BlankParam, arg) then Continue(st.(argv := st.argv.(blank := true)))
    else if Matches(VerboseParam, arg) then Continue(st.(level := Increase(st.level, 2)))
    else if Matches(ShellParam, arg) then
      Continue(st.(argv := st.argv.(shell := ParseValueOr(ShellParam, arg, env, p.shellEnv, ""))))
    else if Matches(GoParam, arg) then
      Continue(st.(argv := st.argv.(goSdk := ParseValueOr(GoParam, arg, env, p.gosdkEnv, ""))))
    else if HasPrefix(arg, "-") then Stop(Abort(UnknownArgument(arg), st.level))
    else
      match p.resolver(arg)
      case Failure(e) => Stop(Abort(e, st.level))
      case Success(path) => Continue(st.(argv := AppendPath(st.argv, path)))
  }

  /** `path` is what the resolver made of one of the arguments. */
  ghost predicate ResolvedFrom(p: Parser, input: seq<string>, path: string)
  {
    exists j :: 0 <= j < |input| && p.resolver(input[j]) == Success(path)
  }

  /** Every directory added to `argv` since `before` is the resolution of some argument. */
  ghost predicate PathsResolvedFrom(p: Parser, input: seq<string>, before: Arguments, argv: Arguments)
  {
    && before.path <= argv.path
    && forall i :: |before.path| <= i < |argv.path| ==> ResolvedFrom(p, input, argv.path[i])
  }

  /** The argument loop from a state, firing the gospace action after the last argument. */
  function Run(p: Parser, env: Env, st: State, input: seq<string>): (r: Scan)
    ensures r.level >= st.level && (r.level - st.level) % 2 == 0
    ensures st.passthrough ==> r.Trigger? && r.action == GospaceAction
    ensures r.Trigger? ==> st.argv.shellArgv <= r.argv.shellArgv
    ensures r.Trigger? ==> PathsResolvedFrom(p, input, st.argv, r.argv)
    decreases |input|
  {
    if |input| == 0 then Trigger(GospaceAction, st.argv, st.level)
    else
      match Step(p, env, st, input[0])
      case Stop(s) => s
      case Continue(next) =>
        var r := Run(p, env, next, input[1..]);
        if r.Trigger? then
          ResolvedThroughStep(p, input, st.argv, next.argv, r.argv);
          r
        else r
  }

  /** Extending `PathsResolvedFrom` over one more step of the loop. */
  lemma ResolvedThroughStep(p: Parser, input: seq<string>, before: Arguments, next: Arguments, after: Arguments)
    requires |input| > 0
    requires
      || next.path == before.path
      || (p.resolver(input[0]).Success? && next.path == before.path + [p.resolver(input[0]).value])
    requires PathsResolvedFrom(p, input[1..], next, after)
    ensures PathsResolvedFrom(p, input, before, after)
  {
    assert before.path <= after.path by {
      assert before.path <= next.path;
      assert next.path == after.path[..|next.path|];
      assert before.path == after.path[..|before.path|];
    }
    forall i | |before.path| <= i < |after.path|
      ensures ResolvedFrom(p, input, after.path[i])
    {
      if i < |next.path| {
        assert next.path == after.path[..|next.path|];
        assert next.path[i] == after.path[i];
        assert next.path[i] == p.resolver(input[0]).value;
        assert p.resolver(input[0]) == Success(after.path[i]);
      } else {
        assert ResolvedFrom(p, input[1..], after.path[i]);
        var j :| 0 <= j < |input[1..]| && p.resolver(input[1..][j]) == Success(after.path[i]);
        assert input[1..][j] == input[j + 1];
        assert p.resolver(input[j + 1]) == Success(after.path[i]);
      }
    }
  }

  /** What `Parse` returns, with the verbosity level it leaves behind. */
  datatype Parsed = Parsed(reply: Reply, level: LogLevel)

  /**
    An argument that ends the loop in normal mode: a help or version match,
    a dash argument matching no parameter, or a directory the resolver
    rejects.
   */
  predicate IsStopper(p: Parser, arg: string)
  {
    && arg != "--"
    && (|| Matches(HelpParam, arg)
        || Matches(VersionParam, arg)
        || (HasPrefix(arg, "-") && MatchesNoParameter(arg))
        || (!HasPrefix(arg, "-") && p.resolver(arg).Failure?))
  }

  /** The position of the first `--` or stopping argument; the length when there is none. */
  function Boundary(p: Parser, input: seq<string>): (b: nat)
    ensures b <= |input|
    ensures forall i :: 0 <= i < b ==> input[i] != "--" && !IsStopper(p, input[i])
    ensures b < |input| ==> input[b] == "--" || IsStopper(p, input[b])
    decreases |input|
  {
    if |input| == 0 || input[0] == "--" || IsStopper(p, input[0]) then 0
    else
      var rest := Boundary(p, input[1..]);
      assert forall i :: 1 <= i <= rest ==> input[i] == input[1..][i - 1];
      1 + rest
  }

  /** The resolver's answers for the plain (non-dash) arguments, in order. */
  function Directories(p: Parser, args: seq<string>): (dirs: seq<string>)
    ensures forall i :: 0 <= i < |dirs| ==> ResolvedFrom(p, args, dirs[i])
    decreases |args|
  {
    if |args| == 0 then []
    else
      var here := if !HasPrefix(args[0], "-") && p.resolver(args[0]).Success? then [p.resolver(args[0]).value] else [];
      ResolvedFromTail(p, args);
      here + Directories(p, args[1..])
  }

  /** What was resolved from the later arguments was resolved from the whole list. */
  lemma ResolvedFromTail(p: Parser, args: seq<string>)
    requires |args| > 0
    ensures forall d :: ResolvedFrom(p, args[1..], d) ==> ResolvedFrom(p, args, d)
  {
    forall d | ResolvedFrom(p, args[1..], d)
      ensures ResolvedFrom(p, args, d)
    {
      var j :| 0 <= j < |args[1..]| && p.resolver(args[1..][j]) == Success(d);
      assert args[j + 1] == args[1..][j];
    }
  }

  /** The outcome a stopping argument forces, tested in the loop's order. */
  predicate StoppedBy(p: Parser, arg: string, r: Scan)
  {
    if Matches(HelpParam, arg) then r.Trigger? && r.action == HelpAction
    else if Matches(VersionParam, arg) then r.Trigger? && r.action == VersionAction
    else if HasPrefix(arg, "-") then r == Abort(UnknownArgument(arg), r.level)
    else p.resolver(arg).Failure? && r == Abort(p.resolver(arg).error, r.level)
  }

  /** An argument without a leading dash is not `--` and matches no parameter. */
  lemma PlainArgumentMatchesNothing(arg: string)
    requires !HasPrefix(arg, "-")
    ensures arg != "--" && MatchesNoParameter(arg)
  {
    forall q | q in ParameterTable
      ensures !Matches(q, arg)
    {
      MatchesNeedsDash(q, arg);
    }
  }

  /** An argument that neither stops the loop nor is `--` continues it in normal mode. */
  lemma OrdinaryStep(p: Parser, env: Env, st: State, arg: string)
    requires !st.passthrough && arg != "--" && !IsStopper(p, arg)
    ensures Step(p, env, st, arg).Continue?
    ensures var next := Step(p, env, st, arg).state;
      && !next.passthrough
      && next.argv.shellArgv == st.argv.shellArgv
      && next.argv.path == st.argv.path + Directories(p, [arg])
  {
    if !HasPrefix(arg, "-") {
      PlainArgumentMatchesNothing(arg);
    }
    assert [arg][1..] == [];
  }

  /** A stopping argument ends the loop at once with the outcome it forces. */
  lemma StopperStep(p: Parser, env: Env, st: State, arg: string)
    requires !st.passthrough && IsStopper(p, arg)
    ensures Step(p, env, st, arg).Stop?
    ensures StoppedBy(p, arg, Step(p, env, st, arg).scan)
    ensures Step(p, env, st, arg).scan.Trigger? ==> Step(p, env, st, arg).scan.argv == st.argv
  {
    if !HasPrefix(arg, "-") {
      PlainArgumentMatchesNothing(arg);
    }
  }

  /**
    The loop's outcome `r` from `st`, characterised by the input: the
    gospace action fires iff a `--` or the end comes before any stopping
    argument; the directories gathered are the resolver's answers for the
    plain arguments before that point, in order; the shell arguments gained
    are exactly those after the `--`, and none when a help or version
    argument fires first; and a stopping argument decides the outcome.
   */
  ghost predicate DecidedAtBoundary(p: Parser, st: State, input: seq<string>, r: Scan)
  {
    var b := Boundary(p, input);
    && ((r.Trigger? && r.action == GospaceAction) <==> (b == |input| || input[b] == "--"))
    && (r.Trigger? ==> r.argv.path == st.argv.path + Directories(p, input[..b]))
    && (r.Trigger? ==>
          r.argv.shellArgv == st.argv.shellArgv + (if b < |input| && input[b] == "--" then input[b + 1..] else []))
    && (b < |input| && IsStopper(p, input[b]) ==> StoppedBy(p, input[b], r))
  }

  /** The loop from a normal-mode state is decided at the boundary. */
  lemma {:induction false} RunToBoundary(p: Parser, env: Env, st: State, input: seq<string>)
    requires !st.passthrough
    ensures DecidedAtBoundary(p, st, input, Run(p, env, st, input))
    decreases |input|
  {
    if |input| == 0 {
      assert input[..0] == [];
      assert st.argv.path + [] == st.argv.path && st.argv.shellArgv + [] == st.argv.shellArgv;
    } else if input[0] == "--" {
      TerminatorDecides(p, env, st, input);
    } else if IsStopper(p, input[0]) {
      StopperDecides(p, env, st, input);
    } else {
      OrdinaryStep(p, env, st, input[0]);
      var next := Step(p, env, st, input[0]).state;
      RunToBoundary(p, env, next, input[1..]);
      assert Run(p, env, st, input) == Run(p, env, next, input[1..]);
      OrdinaryDecides(p, st, next, input, Run(p, env, st, input));
    }
  }

  /** A leading `--` passes everything after it through, and nothing is gathered. */
  lemma TerminatorDecides(p: Parser, env: Env, st: State, input: seq<string>)
    requires !st.passthrough && |input| > 0 && input[0] == "--"
    ensures DecidedAtBoundary(p, st, input, Run(p, env, st, input))
  {
    assert Boundary(p, input) == 0 && input[..0] == [];
    PassthroughVerbatim(p, env, st.(passthrough := true), input[1..]);
    ShellArgumentsInOrder(st.argv, input[1..]);
    assert st.argv.path + [] == st.argv.path;
  }

  /** A leading stopping argument decides the outcome, and nothing is gathered. */
  lemma StopperDecides(p: Parser, env: Env, st: State, input: seq<string>)
    requires !st.passthrough && |input| > 0 && IsStopper(p, input[0])
    ensures DecidedAtBoundary(p, st, input, Run(p, env, st, input))
  {
    assert Boundary(p, input) == 0 && input[..0] == [];
    StopperStep(p, env, st, input[0]);
    assert st.argv.path + [] == st.argv.path && st.argv.shellArgv + [] == st.argv.shellArgv;
  }

  /** An ordinary leading argument moves the boundary by one and gathers its directory first. */
  lemma OrdinaryDecides(p: Parser, st: State, next: State, input: seq<string>, r: Scan)
    requires |input| > 0 && input[0] != "--" && !IsStopper(p, input[0])
    requires next.argv.shellArgv == st.argv.shellArgv
    requires next.argv.path == st.argv.path + Directories(p, [input[0]])
    requires DecidedAtBoundary(p, next, input[1..], r)
    ensures DecidedAtBoundary(p, st, input, r)
  {
    BoundaryShift(p, input);
  }

  /** Past an ordinary first argument, the boundary and what precedes or follows it shift by one. */
  lemma BoundaryShift(p: Parser, input: seq<string>)
    requires |input| > 0 && input[0] != "--" && !IsStopper(p, input[0])
    ensures var b, c := Boundary(p, input), Boundary(p, input[1..]);
      && b == c + 1
      && (c < |input[1..]| ==> input[b] == input[1..][c] && input[b + 1..] == input[1..][c + 1..])
      && Directories(p, input[..b]) == Directories(p, [input[0]]) + Directories(p, input[1..][..c])
  {
    var b, c := Boundary(p, input), Boundary(p, input[1..]);
    assert b == c + 1;
    DirectoriesOfPrefix(p, input, b);
  }

  /** The directories of a non-empty prefix: those of its first argument, then of the rest. */
  lemma DirectoriesOfPrefix(p: Parser, xs: seq<string>, n: nat)
    requires 0 < n <= |xs|
    ensures Directories(p, xs[..n]) == Directories(p, [xs[0]]) + Directories(p, xs[1..][..n - 1])
  {
    assert xs[..n][0] == xs[0];
    assert xs[..n][1..] == xs[1..][..n - 1];
    assert [xs[0]][1..] == [];
  }

  /** How many of `args` match `q`. */
  function Occurrences(q: Parameter, args: seq<string>): (n: nat)
    ensures n <= |args|
    ensures n > 0 <==> exists i :: 0 <= i < |args| && Matches(q, args[i])
    decreases |args|
  {
    if |args| == 0 then 0
    else
      var rest := Occurrences(q, args[1..]);
      assert forall i :: 1 <= i < |args| ==> args[i] == args[1..][i - 1];
      (if Matches(q, args[0]) then 1 else 0) + rest
  }

  /**
    The value a run of `args` leaves in a field set by `q`: what the last
    match of `q` stores, or `current` when nothing matches.
   */
  function Setting(q: Parameter, args: seq<string>, env: Env, name: string, current: string): (v: string)
    ensures Occurrences(q, args) == 0 ==> v == current
    ensures Occurrences(q, args) > 0 ==>
      exists k :: && 0 <= k < |args| && Matches(q, args[k])
                  && (forall j :: k < j < |args| ==> !Matches(q, args[j]))
                  && v == ParseValueOr(q, args[k], env, name, "")
    decreases |args|
  {
    if |args| == 0 then current
    else
      var next := if Matches(q, args[0]) then ParseValueOr(q, args[0], env, name, "") else current;
      var v := Setting(q, args[1..], env, name, next);
      LastMatchShift(q, args, env, name, next, v);
      v
  }

  /** The last match in `args[1..]` is the last match in `args`; without one, `args[0]` is. */
  lemma LastMatchShift(q: Parameter, args: seq<string>, env: Env, name: string, next: string, v: string)
    requires |args| > 0
    requires Matches(q, args[0]) ==> next == ParseValueOr(q, args[0], env, name, "")
    requires Occurrences(q, args[1..]) == 0 ==> v == next
    requires Occurrences(q, args[1..]) > 0 ==>
      exists k :: && 0 <= k < |args[1..]| && Matches(q, args[1..][k])
                  && (forall j :: k < j < |args[1..]| ==> !Matches(q, args[1..][j]))
                  && v == ParseValueOr(q, args[1..][k], env, name, "")
    ensures Occurrences(q, args) > 0 ==>
      exists k :: && 0 <= k < |args| && Matches(q, args[k])
                  && (forall j :: k < j < |args| ==> !Matches(q, args[j]))
                  && v == ParseValueOr(q, args[k], env, name, "")
  {
    var tail := args[1..];
    if Occurrences(q, tail) > 0 {
      var k :| && 0 <= k < |tail| && Matches(q, tail[k])
               && (forall j :: k < j < |tail| ==> !Matches(q, tail[j]))
               && v == ParseValueOr(q, tail[k], env, name, "");
      assert args[k + 1] == tail[k];
      forall j | k + 1 < j < |args|
        ensures !Matches(q, args[j])
      {
        assert args[j] == tail[j - 1];
      }
    } else if Matches(q, args[0]) {
      forall j | 0 < j < |args|
        ensures !Matches(q, args[j])
      {
        assert args[j] == tail[j - 1];
      }
    }
  }

  /**
    The registry's flags and settings and the level the loop from `st`
    leaves, in terms of the arguments before the boundary: `-b` and `-n`
    set their flag for good, each `-v` adds 2, and the last `-s`/`-g` sets
    the shell and the SDK.
   */
  ghost predicate FlagsDecidedAtBoundary(p: Parser, env: Env, st: State, input: seq<string>, r: Scan)
  {
    var before := input[..Boundary(p, input)];
    && r.level == st.level + 2 * Occurrences(VerboseParam, before)
    && (r.Trigger? ==>
          && r.argv.blank == (st.argv.blank || Occurrences(BlankParam, before) > 0)
          && r.argv.noRun == (st.argv.noRun || Occurrences(DryParam, before) > 0)
          && r.argv.shell == Setting(ShellParam, before, env, p.shellEnv, st.argv.shell)
          && r.argv.goSdk == Setting(GoParam, before, env, p.gosdkEnv, st.argv.goSdk))
  }

  /** An ordinary argument's effect on the flags, the settings and the level. */
  lemma OrdinaryStepFields(p: Parser, env: Env, st: State, arg: string)
    requires !st.passthrough && arg != "--" && !IsStopper(p, arg)
    ensures Step(p, env, st, arg).Continue?
    ensures var next := Step(p, env, st, arg).state;
      && next.argv.blank == (st.argv.blank || Matches(BlankParam, arg))
      && next.argv.noRun == (st.argv.noRun || Matches(DryParam, arg))
      && next.level == st.level + (if Matches(VerboseParam, arg) then 2 else 0)
      && next.argv.shell == (if Matches(ShellParam, arg) then ParseValueOr(ShellParam, arg, env, p.shellEnv, "") else st.argv.shell)
      && next.argv.goSdk == (if Matches(GoParam, arg) then ParseValueOr(GoParam, arg, env, p.gosdkEnv, "") else st.argv.goSdk)
  {
    OrdinaryStep(p, env, st, arg);
    ParametersDisjoint(arg, 2, 3);
    ParametersDisjoint(arg, 2, 4);
    ParametersDisjoint(arg, 2, 5);
    ParametersDisjoint(arg, 2, 6);
    ParametersDisjoint(arg, 3, 4);
    ParametersDisjoint(arg, 3, 5);
    ParametersDisjoint(arg, 3, 6);
    ParametersDisjoint(arg, 4, 5);
    ParametersDisjoint(arg, 4, 6);
    ParametersDisjoint(arg, 5, 6);
    if !HasPrefix(arg, "-") {
      PlainArgumentMatchesNothing(arg);
    }
  }

  /** The loop from a normal-mode state leaves flags, settings and level as the arguments before the boundary say. */
  lemma {:induction false} RunFlagsToBoundary(p: Parser, env: Env, st: State, input: seq<string>)
    requires !st.passthrough
    ensures FlagsDecidedAtBoundary(p, env, st, input, Run(p, env, st, input))
    decreases |input|
  {
    if |input| == 0 {
      assert input[..0] == [];
    } else if input[0] == "--" {
      assert Boundary(p, input) == 0 && input[..0] == [];
      PassthroughVerbatim(p, env, st.(passthrough := true), input[1..]);
      ShellArgumentsInOrder(st.argv, input[1..]);
    } else if IsStopper(p, input[0]) {
      assert Boundary(p, input) == 0 && input[..0] == [];
      StopperStep(p, env, st, input[0]);
    } else {
      OrdinaryStepFields(p, env, st, input[0]);
      var next := Step(p, env, st, input[0]).state;
      RunFlagsToBoundary(p, env, next, input[1..]);
      assert Run(p, env, st, input) == Run(p, env, next, input[1..]);
      OrdinaryFlags(p, env, st, next, input, Run(p, env, st, input));
    }
  }

  /** An ordinary leading argument contributes its flag, setting or level step first. */
  lemma OrdinaryFlags(p: Parser, env: Env, st: State, next: State, input: seq<string>, r: Scan)
    requires |input| > 0 && input[0] != "--" && !IsStopper(p, input[0])
    requires next.argv.blank == (st.argv.blank || Matches(BlankParam, input[0]))
    requires next.argv.noRun == (st.argv.noRun || Matches(DryParam, input[0]))
    requires next.level == st.level + (if Matches(VerboseParam, input[0]) then 2 else 0)
    requires next.argv.shell == (if Matches(ShellParam, input[0]) then ParseValueOr(ShellParam, input[0], env, p.shellEnv, "") else st.argv.shell)
    requires next.argv.goSdk == (if Matches(GoParam, input[0]) then ParseValueOr(GoParam, input[0], env, p.gosdkEnv, "") else st.argv.goSdk)
    requires FlagsDecidedAtBoundary(p, env, next, input[1..], r)
    ensures FlagsDecidedAtBoundary(p, env, st, input, r)
  {
    BoundaryShift(p, input);
    var b, c := Boundary(p, input), Boundary(p, input[1..]);
    PrefixUnfold(input, b);
    assert input[1..][..c] == input[..b][1..];
  }

  /** A non-empty prefix starts with the first element and continues with a prefix of the rest. */
  lemma PrefixUnfold(xs: seq<string>, n: nat)
    requires 0 < n <= |xs|
    ensures |xs[..n]| > 0 && xs[..n][0] == xs[0] && xs[..n][1..] == xs[1..][..n - 1]
  {
  }

  /**
    From the start of the command line: each `-v` before the boundary adds
    2 to the level; when an action fires, `blank` and `noRun` are set iff a
    `-b` or `-n` came before the boundary, and the shell and SDK are what
    the last `-s` and `-g` there stored (empty when there was none).
   */
  lemma CommandLineSettings(p: Parser, env: Env, input: seq<string>, level: LogLevel)
    ensures var r := Run(p, env, Start(level), input); var b := Boundary(p, input);
      && r.level == level + 2 * Occurrences(VerboseParam, input[..b])
      && (r.Trigger? ==>
            && (r.argv.blank <==> exists i :: 0 <= i < b && Matches(BlankParam, input[i]))
            && (r.argv.noRun <==> exists i :: 0 <= i < b && Matches(DryParam, input[i]))
            && r.argv.shell == Setting(ShellParam, input[..b], env, p.shellEnv, "")
            && r.argv.goSdk == Setting(GoParam, input[..b], env, p.gosdkEnv, ""))
  {
    RunFlagsToBoundary(p, env, Start(level), input);
    var b := Boundary(p, input);
    assert forall i :: 0 <= i < b ==> input[..b][i] == input[i];
  }

  /**
    The gospace action fires iff no argument before the first `--` is a
    stopping argument.
   */
  lemma GospaceFiresIff(p: Parser, env: Env, input: seq<string>, level: LogLevel)
    ensures var r := Run(p, env, Start(level), input);
      (r.Trigger? && r.action == GospaceAction) <==>
        forall i :: 0 <= i < |input| && "--" !in input[..i] ==> !IsStopper(p, input[i])
  {
    RunToBoundary(p, env, Start(level), input);
    var b := Boundary(p, input);
    if b < |input| && input[b] != "--" {
      assert "--" !in input[..b] by {
        forall k | 0 <= k < b
          ensures input[..b][k] != "--"
        {
          assert input[..b][k] == input[k];
        }
      }
    } else if b < |input| {
      TerminatorInLongerPrefixes(input, b);
    }
  }

  /** Every prefix reaching past a `--` contains it. */
  lemma TerminatorInLongerPrefixes(input: seq<string>, b: nat)
    requires b < |input| && input[b] == "--"
    ensures forall i :: b < i <= |input| ==> "--" in input[..i]
  {
    forall i | b < i <= |input|
      ensures "--" in input[..i]
    {
      assert input[..i][b] == "--";
    }
  }

  /**
    When the loop ends without firing the gospace action, the first
    stopping argument before any `--` decided it, and every argument before
    it was ordinary.
   */
  lemma StoppedAtFirstStopper(p: Parser, env: Env, input: seq<string>, level: LogLevel)
    ensures var r := Run(p, env, Start(level), input); var b := Boundary(p, input);
      !(r.Trigger? && r.action == GospaceAction) ==>
        && b < |input| && IsStopper(p, input[b])
        && (forall i :: 0 <= i < b ==> input[i] != "--" && !IsStopper(p, input[i]))
        && StoppedBy(p, input[b], r)
  {
    RunToBoundary(p, env, Start(level), input);
  }

  /** What the argument at the boundary can be: `--`, or exactly one kind of stopping argument. */
  lemma BoundaryArgument(p: Parser, input: seq<string>)
    ensures var b := Boundary(p, input);
      b < |input| ==>
        && (input[b] == "--" ==> !Matches(HelpParam, input[b]) && !Matches(VersionParam, input[b]))
        && !(Matches(HelpParam, input[b]) && Matches(VersionParam, input[b]))
        && (!HasPrefix(input[b], "-") ==> MatchesNoParameter(input[b]) && p.resolver(input[b]).Failure?)
  {
    var b := Boundary(p, input);
    if b < |input| {
      TerminatorMatchesNothing(HelpParam);
      TerminatorMatchesNothing(VersionParam);
      ParametersDisjoint(input[b], 0, 1);
      if !HasPrefix(input[b], "-") {
        PlainArgumentMatchesNothing(input[b]);
      }
    }
  }

  /**
    Parsing the command line. The argument at `Boundary` decides: the end of
    the input or `--` fires the gospace action, help or version fires that
    action, and any other stopping argument returns status 0 with its error
    without firing anything.
   */
  function Parse(p: Parser, env: Env, input: seq<string>, level: LogLevel): (r: Parsed)
    ensures r.level >= level
    ensures var b := Boundary(p, input); var run := Run(p, env, Start(level), input);
      (b == |input| || input[b] == "--") ==>
        && run.Trigger? && r.reply == Fire(p, GospaceAction, run.argv)
        && run.argv.path == Directories(p, input[..b])
        && run.argv.shellArgv == (if b < |input| then input[b + 1..] else [])
    ensures var b := Boundary(p, input); var run := Run(p, env, Start(level), input);
      b < |input| && Matches(HelpParam, input[b]) ==>
        && run.Trigger? && r.reply == Fire(p, HelpAction, run.argv)
        && run.argv.path == Directories(p, input[..b])
        && run.argv.shellArgv == []
    ensures var b := Boundary(p, input); var run := Run(p, env, Start(level), input);
      b < |input| && Matches(VersionParam, input[b]) ==>
        && run.Trigger? && r.reply == Fire(p, VersionAction, run.argv)
        && run.argv.path == Directories(p, input[..b])
        && run.argv.shellArgv == []
    ensures var b := Boundary(p, input);
      b < |input| && input[b] != "--" && HasPrefix(input[b], "-") && MatchesNoParameter(input[b]) ==>
        r.reply == Reply(0, Some(UnknownArgument(input[b])))
    ensures var b := Boundary(p, input);
      b < |input| && !HasPrefix(input[b], "-") ==>
        p.resolver(input[b]).Failure? && r.reply == Reply(0, Some(p.resolver(input[b]).error))
  {
    RunToBoundary(p, env, Start(level), input);
    BoundaryArgument(p, input);
    match Run(p, env, Start(level), input)
    case Trigger(action, argv, after) => Parsed(Fire(p, action, argv), after)
    case Abort(message, after) => Parsed(Reply(0, Some(message)), after)
  }

  /** After `--`, every remaining argument reaches the shell verbatim. */
  lemma {:induction false} PassthroughVerbatim(p: Parser, env: Env, st: State, input: seq<string>)
    requires st.passthrough
    ensures Run(p, env, st, input) == Trigger(GospaceAction, AppendShellArguments(st.argv, input), st.level)
    decreases |input|
  {
    if |input| > 0 {
      PassthroughVerbatim(p, env, st.(argv := AppendShellArgument(st.argv, input[0])), input[1..]);
    }
  }

  /** The first `--` switches to passthrough; what follows is appended in order and never interpreted. */
  lemma TerminatorPassesRestThrough(p: Parser, env: Env, st: State, rest: seq<string>)
    requires !st.passthrough
    ensures Run(p, env, st, ["--"] + rest)
         == Trigger(GospaceAction, st.argv.(shellArgv := st.argv.shellArgv + rest), st.level)
  {
    assert (["--"] + rest)[1..] == rest;
    PassthroughVerbatim(p, env, st.(passthrough := true), rest);
    ShellArgumentsInOrder(st.argv, rest);
  }

  /** The loop over a prefix of the arguments, without the final firing. */
  function Advance(p: Parser, env: Env, st: State, input: seq<string>): Next
    decreases |input|
  {
    if |input| == 0 then Continue(st)
    else
      match Step(p, env, st, input[0])
      case Stop(s) => Stop(s)
      case Continue(next) => Advance(p, env, next, input[1..])
  }

  /** The loop over `xs + ys` is the loop over `xs` followed by the loop over `ys`. */
  lemma {:induction false} RunAppend(p: Parser, env: Env, st: State, xs: seq<string>, ys: seq<string>)
    ensures Run(p, env, st, xs + ys) ==
      match Advance(p, env, st, xs)
      case Stop(s) => s
      case Continue(next) => Run(p, env, next, ys)
    decreases |xs|
  {
    if |xs| == 0 {
      assert xs + ys == ys;
    } else {
      assert (xs + ys)[0] == xs[0];
      assert (xs + ys)[1..] == xs[1..] + ys;
      match Step(p, env, st, xs[0])
      case Stop(s) =>
      case Continue(next) =>
        RunAppend(p, env, next, xs[1..], ys);
    }
  }

  /**
    A help or version match outside passthrough fires at once, with the
    registry built so far; the arguments after it are never examined.
   */
  lemma TriggerStopsLoop(p: Parser, env: Env, input: seq<string>, i: nat, level: LogLevel)
    requires i < |input|
    requires Advance(p, env, Start(level), input[..i]).Continue?
    requires !Advance(p, env, Start(level), input[..i]).state.passthrough
    requires Matches(HelpParam, input[i]) || Matches(VersionParam, input[i])
    ensures var st := Advance(p, env, Start(level), input[..i]).state;
      Parse(p, env, input, level) ==
        Parsed(Fire(p, if Matches(HelpParam, input[i]) then HelpAction else VersionAction, st.argv), st.level)
  {
    var st := Advance(p, env, Start(level), input[..i]).state;
    assert input == input[..i] + input[i..];
    RunAppend(p, env, Start(level), input[..i], input[i..]);
    assert input[i..] == [input[i]] + input[i + 1..];
    TerminatorMatchesNothing(HelpParam);
    TerminatorMatchesNothing(VersionParam);
    assert Step(p, env, st, input[i]).Stop?;
  }

  /** For `-x...` with `x` not a dash, the letter `x` alone picks the parameter. */
  lemma LetterPicksParameter(arg: string)
    requires |arg| >= 2 && arg[0] == '-' && arg[1] != '-'
    ensures arg != "--"
    ensures Matches(HelpParam, arg) <==> arg[1] == 'h'
    ensures Matches(VersionParam, arg) <==> arg[1] == 'V'
    ensures Matches(DryParam, arg) <==> arg[1] == 'n'
    ensures Matches(BlankParam, arg) <==> arg[1] == 'b'
    ensures Matches(VerboseParam, arg) <==> arg[1] == 'v'
    ensures Matches(ShellParam, arg) <==> arg[1] == 's'
    ensures Matches(GoParam, arg) <==> arg[1] == 'g'
  {
    ShortLetterDecides(HelpParam, arg);
    ShortLetterDecides(VersionParam, arg);
    ShortLetterDecides(DryParam, arg);
    ShortLetterDecides(BlankParam, arg);
    ShortLetterDecides(VerboseParam, arg);
    ShortLetterDecides(ShellParam, arg);
    ShortLetterDecides(GoParam, arg);
  }

  /**
    The letter right after the dash decides and the rest of the argument is
    ignored: `-hV` asks for help and `-Vh` for the version.
   */
  lemma FirstLetterDecides(p: Parser, env: Env, st: State, rest: seq<string>)
    requires !st.passthrough
    ensures Run(p, env, st, ["-hV"] + rest) == Trigger(HelpAction, st.argv, st.level)
    ensures Run(p, env, st, ["-Vh"] + rest) == Trigger(VersionAction, st.argv, st.level)
  {
    LetterPicksParameter("-hV");
    LetterPicksParameter("-Vh");
  }

  /** The seven parameters, in the order the loop tests them. */
  const ParameterTable: seq<Parameter> :=
    [HelpParam, VersionParam, DryParam, BlankParam, VerboseParam, ShellParam, GoParam]

  /**
    No argument matches two parameters, so the order in which the loop tests
    the seven of them never changes which branch is taken.
   */
  lemma ParametersDisjoint(arg: string, i: nat, j: nat)
    requires i < j < |ParameterTable|
    ensures !(Matches(ParameterTable[i], arg) && Matches(ParameterTable[j], arg))
  {
    MatchesCharacters(ParameterTable[i], arg);
    MatchesCharacters(ParameterTable[j], arg);
    if |arg| >= 2 && arg[0] == '-' && arg[1] != '-' {
      LetterPicksParameter(arg);
    } else if |arg| >= 2 && arg[0] == '-' && arg[1] == '-' {
      LongNamesDisjoint(arg, i, j);
    }
  }

  /** A match of `--<long>` fixes the character at offset `k` of the long name. */
  lemma LongMatchCharacter(q: Parameter, arg: string, k: nat)
    requires q.short != '-' && k < |q.long|
    requires |arg| >= 2 && arg[1] == '-'
    ensures Matches(q, arg) ==> 2 + k < |arg| && arg[2 + k] == q.long[k]
  {
    MatchesCharacters(q, arg);
    if Matches(q, arg) {
      assert arg[2..2 + |q.long|][k] == arg[2 + k];
    }
  }

  /** No two long names are prefixes of one another. */
  lemma LongNamesDisjoint(arg: string, i: nat, j: nat)
    requires i < j < |ParameterTable|
    requires |arg| >= 2 && arg[0] == '-' && arg[1] == '-'
    ensures !(Matches(ParameterTable[i], arg) && Matches(ParameterTable[j], arg))
  {
    var a, b := ParameterTable[i], ParameterTable[j];
    LongMatchCharacter(a, arg, 0);
    LongMatchCharacter(b, arg, 0);
    if a.long[0] == b.long[0] {
      assert i == 1 && j == 4;
      LongMatchCharacter(a, arg, 3);
      LongMatchCharacter(b, arg, 3);
    }
  }

  /** `-n...` sets the dry-run flag, changes nothing else, and the loop goes on. */
  lemma DryFlagSetsNoRun(p: Parser, env: Env, st: State, arg: string, rest: seq<string>)
    requires !st.passthrough && |arg| >= 2 && arg[0] == '-' && arg[1] == 'n'
    ensures Run(p, env, st, [arg] + rest) == Run(p, env, st.(argv := st.argv.(noRun := true)), rest)
  {
    LetterPicksParameter(arg);
    assert ([arg] + rest)[1..] == rest;
  }

  /** `-b...` sets the blank flag, changes nothing else, and the loop goes on. */
  lemma BlankFlagSetsBlank(p: Parser, env: Env, st: State, arg: string, rest: seq<string>)
    requires !st.passthrough && |arg| >= 2 && arg[0] == '-' && arg[1] == 'b'
    ensures Run(p, env, st, [arg] + rest) == Run(p, env, st.(argv := st.argv.(blank := true)), rest)
  {
    LetterPicksParameter(arg);
    assert ([arg] + rest)[1..] == rest;
  }

  /** A dash argument matching no parameter aborts with status 0, and no callback fires. */
  lemma UnknownDashArgumentAborts(p: Parser, env: Env, arg: string, rest: seq<string>, level: LogLevel)
    requires arg != "--" && HasPrefix(arg, "-") && MatchesNoParameter(arg)
    ensures Parse(p, env, [arg] + rest, level) == Parsed(Reply(0, Some(UnknownArgument(arg))), level)
  {
  }

  /** A directory the resolver rejects aborts with that error. */
  lemma UnresolvedDirectoryAborts(p: Parser, env: Env, st: State, arg: string, rest: seq<string>)
    requires !st.passthrough && !HasPrefix(arg, "-")
    requires p.resolver(arg).Failure?
    ensures Run(p, env, st, [arg] + rest) == Abort(p.resolver(arg).error, st.level)
  {
    PlainArgumentMatchesNothing(arg);
    StopperStep(p, env, st, arg);
    assert ([arg] + rest)[0] == arg;
  }

  /** A resolved directory is appended and the loop goes on with the next argument. */
  lemma ResolvedDirectoryAppended(p: Parser, env: Env, st: State, arg: string, rest: seq<string>)
    requires !st.passthrough && !HasPrefix(arg, "-")
    requires p.resolver(arg).Success?
    ensures Run(p, env, st, [arg] + rest)
         == Run(p, env, st.(argv := AppendPath(st.argv, p.resolver(arg).value)), rest)
  {
    PlainArgumentMatchesNothing(arg);
    assert ([arg] + rest)[1..] == rest;
  }

  /** `-v...` raises the level by 2, changes nothing else, and the loop goes on. */
  lemma VerboseFlagRaisesLevel(p: Parser, env: Env, st: State, arg: string, rest: seq<string>)
    requires !st.passthrough && |arg| >= 2 && arg[0] == '-' && arg[1] == 'v'
    ensures Run(p, env, st, [arg] + rest) == Run(p, env, st.(level := st.level + 2), rest)
  {
    LetterPicksParameter(arg);
    assert ([arg] + rest)[1..] == rest;
  }

  /** `n` copies of `arg`. */
  function Repeat(arg: string, n: nat): (r: seq<string>)
    ensures |r| == n
    ensures forall i :: 0 <= i < n ==> r[i] == arg
  {
    if n == 0 then [] else [arg] + Repeat(arg, n - 1)
  }

  /** Each verbose flag raises the level by exactly 2, whatever letters follow `-v`. */
  lemma {:induction false} VerboseFlagsRaiseLevel(p: Parser, env: Env, st: State, arg: string, n: nat)
    requires !st.passthrough && |arg| >= 2 && arg[0] == '-' && arg[1] == 'v'
    ensures Run(p, env, st, Repeat(arg, n)) == Trigger(GospaceAction, st.argv, st.level + 2 * n)
    decreases n
  {
    if n > 0 {
      LetterPicksParameter(arg);
      assert Repeat(arg, n)[1..] == Repeat(arg, n - 1);
      VerboseFlagsRaiseLevel(p, env, st.(level := st.level + 2), arg, n - 1);
    }
  }

  /** `-vvv` is one argument and raises the level once; three `-v` reach `Trace` from `Off`. */
  lemma VerbosityCounting(p: Parser, env: Env)
    ensures Parse(p, env, ["-vvv"], Off).level == Off + 2
    ensures Parse(p, env, ["-v", "-v", "-v"], Off).level == Trace
  {
    VerboseFlagsRaiseLevel(p, env, Start(Off), "-vvv", 1);
    VerboseFlagsRaiseLevel(p, env, Start(Off), "-v", 3);
    assert Repeat("-v", 3) == ["-v", "-v", "-v"];
    assert Repeat("-vvv", 1) == ["-vvv"];
  }

  /** `-s...` stores its value (or the shell variable) and the loop goes on. */
  lemma ShellFlagSetsShell(p: Parser, env: Env, st: State, arg: string, rest: seq<string>)
    requires !st.passthrough && |arg| >= 2 && arg[0] == '-' && arg[1] == 's'
    ensures Run(p, env, st, [arg] + rest)
         == Run(p, env, st.(argv := st.argv.(shell := ParseValueOr(ShellParam, arg, env, p.shellEnv, ""))), rest)
  {
    LetterPicksParameter(arg);
    assert ([arg] + rest)[1..] == rest;
  }

  /** `-g...` stores its value (or the SDK variable) and the loop goes on. */
  lemma GoFlagSetsSdk(p: Parser, env: Env, st: State, arg: string, rest: seq<string>)
    requires !st.passthrough && |arg| >= 2 && arg[0] == '-' && arg[1] == 'g'
    ensures Run(p, env, st, [arg] + rest)
         == Run(p, env, st.(argv := st.argv.(goSdk := ParseValueOr(GoParam, arg, env, p.gosdkEnv, ""))), rest)
  {
    LetterPicksParameter(arg);
    assert ([arg] + rest)[1..] == rest;
  }

  /** A later `-s=<value>` overwrites an earlier one. */
  lemma LaterShellFlagWins(p: Parser, env: Env, st: State, x: string, y: string)
    requires !st.passthrough && |y| > 0
    ensures var r := Run(p, env, st, ["-s=" + x, "-s=" + y]); r.Trigger? && r.argv.shell == y
  {
    var first, second := "-s=" + x, "-s=" + y;
    var st1 := st.(argv := st.argv.(shell := ParseValueOr(ShellParam, first, env, p.shellEnv, "")));
    var st2 := st1.(argv := st1.argv.(shell := ParseValueOr(ShellParam, second, env, p.shellEnv, "")));
    assert [first, second] == [first] + [second];
    assert [second] == [second] + [];
    ShellFlagSetsShell(p, env, st, first, [second]);
    ShellFlagSetsShell(p, env, st1, second, []);
    assert Run(p, env, st2, []) == Trigger(GospaceAction, st2.argv, st2.level);
    ParseValueAfterKey("-s", y);
    assert "-s" + "=" + y == second;
    assert ParseValueOr(ShellParam, second, env, p.shellEnv, "") == y;
  }

  /** A bare `-s` takes the value of the shell variable. */
  lemma BareShellFlagReadsVariable(p: Parser, env: Env, st: State)
    requires !st.passthrough && |p.shellEnv| > 0
    ensures var r := Run(p, env, st, ["-s"]); r.Trigger? && r.argv.shell == Getenv(env, p.shellEnv)
  {
    var bare := st.(argv := st.argv.(shell := ParseValueOr(ShellParam, "-s", env, p.shellEnv, "")));
    assert ["-s"] == ["-s"] + [];
    ShellFlagSetsShell(p, env, st, "-s", []);
    assert Run(p, env, st, ["-s"]) == Trigger(GospaceAction, bare.argv, st.level);
    assert ParseValue("-s") == "" by {
      assert '=' !in "-s";
    }
  }

  /** A later `-g=<value>` overwrites an earlier one. */
  lemma LaterGoFlagWins(p: Parser, env: Env, st: State, x: string, y: string)
    requires !st.passthrough && |y| > 0
    ensures var r := Run(p, env, st, ["-g=" + x, "-g=" + y]); r.Trigger? && r.argv.goSdk == y
  {
    var first, second := "-g=" + x, "-g=" + y;
    var st1 := st.(argv := st.argv.(goSdk := ParseValueOr(GoParam, first, env, p.gosdkEnv, "")));
    var st2 := st1.(argv := st1.argv.(goSdk := ParseValueOr(GoParam, second, env, p.gosdkEnv, "")));
    assert [first, second] == [first] + [second];
    assert [second] == [second] + [];
    GoFlagSetsSdk(p, env, st, first, [second]);
    GoFlagSetsSdk(p, env, st1, second, []);
    assert Run(p, env, st2, []) == Trigger(GospaceAction, st2.argv, st2.level);
    ParseValueAfterKey("-g", y);
    assert "-g" + "=" + y == second;
    assert ParseValueOr(GoParam, second, env, p.gosdkEnv, "") == y;
  }

  /** A bare `-g` takes the value of the SDK variable. */
  lemma BareGoFlagReadsVariable(p: Parser, env: Env, st: State)
    requires !st.passthrough && |p.gosdkEnv| > 0
    ensures var r := Run(p, env, st, ["-g"]); r.Trigger? && r.argv.goSdk == Getenv(env, p.gosdkEnv)
  {
    var bare := st.(argv := st.argv.(goSdk := ParseValueOr(GoParam, "-g", env, p.gosdkEnv, "")));
    assert ["-g"] == ["-g"] + [];
    GoFlagSetsSdk(p, env, st, "-g", []);
    assert Run(p, env, st, ["-g"]) == Trigger(GospaceAction, bare.argv, st.level);
    assert ParseValue("-g") == "" by {
      assert '=' !in "-g";
    }
  }

  /**
    With the workspace resolver wired in, every directory handed to the
    gospace action exists.
   */
  lemma ResolvedPathsExist(p: Parser, host: Host, input: seq<string>, level: LogLevel)
    requires forall d :: p.resolver(d).Success? ==> PathExists(host.fs, p.resolver(d).value)
    ensures var r := Run(p, host.env, Start(level), input);
      r.Trigger? ==> forall i :: 0 <= i < |r.argv.path| ==> PathExists(host.fs, r.argv.path[i])
  {
    var r := Run(p, host.env, Start(level), input);
    if r.Trigger? {
      forall i | 0 <= i < |r.argv.path|
        ensures PathExists(host.fs, r.argv.path[i])
      {
        var j :| 0 <= j < |input| && p.resolver(input[j]) == Success(r.argv.path[i]);
      }
    }
  }
}
