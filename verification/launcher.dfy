/**
  How the entry point wires the pieces together: the parser resolves
  directory arguments with `ResolveGospace`, bare `-g`/`-s` read GOHOME and
  SHELL, and the gospace action resolves the shell and builds the workspace
  with `keepEnv` set to the negation of `-b`. Spawning the shell is not
  modelled.
 */
module Launcher {
  import opened Results
  import opened Strings
  import opened Paths
  import opened Spaces
  import opened Shells
  import opened Workspaces
  import opened FlagArguments
  import opened Parameters
  import opened FlagParser

  /** The parser of the entry point, for a given host. */
  function CommandLine(host: Host): (p: Parser)
    ensures p.gosdkEnv == SdkEnv && p.shellEnv == ShellEnv
    ensures forall d :: p.resolver(d) == ResolveGospace(host, d)
    ensures p.callbacks.Keys == {}
  {
    NewParser(SdkEnv, ShellEnv, d => ResolveGospace(host, d))
  }

  /** Every directory the gospace action receives exists on the host. */
  lemma ArgumentDirectoriesExist(host: Host, input: seq<string>, level: int)
    ensures var r := Run(CommandLine(host), host.env, Start(level), input);
      r.Trigger? ==> forall i :: 0 <= i < |r.argv.path| ==> PathExists(host.fs, r.argv.path[i])
  {
    var p := CommandLine(host);
    forall d | p.resolver(d).Success?
      ensures PathExists(host.fs, p.resolver(d).value)
    {
      assert p.resolver(d) == ResolveGospace(host, d);
    }
    ResolvedPathsExist(p, host, input, level);
  }

  /** What the gospace action hands to the process launcher, or why it stops. */
  datatype Prepared = Ready(shell: Shell, workspace: Workspace) | Refused(status: int, message: string)

  /**
    The gospace action up to the launch: a shell that cannot be resolved
    ends with status 1; otherwise the workspace is built, extending GOPATH
    unless `-b` was given.
   */
  function Prepare(host: Host, argv: Arguments): (r: Prepared)
    ensures r.Refused? <==> ResolveShell(host, argv.shell, argv.shellArgv).Failure?
    ensures r.Refused? ==> r.status == 1 && r.message == ResolveError
    ensures r.Ready? ==> ResolveShell(host, argv.shell, argv.shellArgv) == Success(r.shell)
    ensures r.Ready? ==> r.shell.args == argv.shellArgv && !DirExists(host.fs, r.shell.path)
    ensures r.Ready? ==> r.workspace == ParseWorkspace(host, argv.path, argv.goSdk, !argv.blank)
  {
    match ResolveShell(host, argv.shell, argv.shellArgv)
    case Failure(e) => Refused(1, e)
    case Success(sh) => Ready(sh, ParseWorkspace(host, argv.path, argv.goSdk, !argv.blank))
  }

  /**
    From the command line: when the gospace action fires and the shell
    resolves, the inherited GOPATH entries are dropped iff a `-b` came
    before the first `--`; the includes are the resolved directories after
    the first.
   */
  lemma BlankFlagDropsInheritedGopath(host: Host, input: seq<string>, level: int)
    ensures var r := Run(CommandLine(host), host.env, Start(level), input);
      var b := Boundary(CommandLine(host), input);
      r.Trigger? && r.action == GospaceAction && Prepare(host, r.argv).Ready? ==>
        var includes := if |r.argv.path| <= 1 then [] else r.argv.path[1..];
        Prepare(host, r.argv).workspace.goPath ==
          if exists i :: 0 <= i < b && Matches(BlankParam, input[i]) then includes
          else includes + Split(Getenv(host.env, WsEnv), ListSeparator)
  {
    CommandLineSettings(CommandLine(host), host.env, input, level);
  }

  /** With `-b` the inherited GOPATH is dropped; without it, it follows the includes. */
  lemma BlankControlsInheritedGopath(host: Host, argv: Arguments)
    requires Prepare(host, argv).Ready?
    ensures var ws := Prepare(host, argv).workspace;
      var includes := if |argv.path| <= 1 then [] else argv.path[1..];
      && (argv.blank ==> ws.goPath == includes)
      && (!argv.blank ==> ws.goPath == includes + Split(Getenv(host.env, WsEnv), ListSeparator))
  {
  }
}
