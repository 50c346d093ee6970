/**
  Shell resolution (`builder.use`, `builder.hasArtifact`, `builder.build`,
  `ResolveShell`) and the textual form of a shell (`Shell.String`).

  The builder's only state is its artifact, so a builder is modelled by that
  string and each chained `use` is a function from artifact to artifact.
 */
module Shells {
  import opened Results
  import opened Strings
  import opened Paths

  /** Fallback shell. */
  const ShellDefault := "/bin/sh"
  /** Variable naming the user's shell. */
  const ShellEnv := "SHELL"
  /** Variable listing the directories searched for binaries. */
  const PathEnv := "PATH"
  /** Message of the error returned when no candidate was usable. */
  const ResolveError := "Unable to find any suitable shell"

  /** An executable with its arguments. */
  datatype Shell = Shell(path: string, args: seq<string>)

  predicate HasArtifact(artifact: string)
  {
    |artifact| > 0
  }

  /**
    One `use` step: a builder that already holds an artifact ignores the
    candidate; otherwise a non-empty candidate is searched in PATH and its
    hit becomes the artifact unless it is a directory.
   */
  function Use(host: Host, artifact: string, path: string): (r: string)
    ensures HasArtifact(artifact) ==> r == artifact
    ensures |path| == 0 ==> r == artifact
    ensures !SearchPathEnvironment(host, PathEnv, path).found ==> r == artifact
    ensures DirExists(host.fs, SearchPathEnvironment(host, PathEnv, path).path) ==> r == artifact
    ensures r != artifact ==>
      && r == SearchPathEnvironment(host, PathEnv, path).path
      && PathExists(host.fs, r)
      && !DirExists(host.fs, r)
    ensures
      && !HasArtifact(artifact) && |path| > 0
      && SearchPathEnvironment(host, PathEnv, path).found
      && !DirExists(host.fs, SearchPathEnvironment(host, PathEnv, path).path)
      ==> r == SearchPathEnvironment(host, PathEnv, path).path
  {
    if HasArtifact(artifact) then artifact
    else if |path| == 0 then artifact
    else
      var hit := SearchPathEnvironment(host, PathEnv, path);
      if !hit.found then artifact
      else if DirExists(host.fs, hit.path) then artifact
      else hit.path
  }

  /** The artifact an empty builder would take from `path`, or "" when none. */
  function Offer(host: Host, path: string): string
  {
    Use(host, "", path)
  }

  /** `i` is the first candidate an empty builder accepts. */
  ghost predicate FirstUsable(host: Host, paths: seq<string>, i: int)
  {
    && 0 <= i < |paths|
    && HasArtifact(Offer(host, paths[i]))
    && forall j :: 0 <= j < i ==> !HasArtifact(Offer(host, paths[j]))
  }

  /** Chained `use` calls, left to right. */
  function UseAll(host: Host, artifact: string, paths: seq<string>): (r: string)
    ensures HasArtifact(artifact) ==> r == artifact
    ensures !HasArtifact(artifact) ==>
      (HasArtifact(r) <==> exists i :: 0 <= i < |paths| && HasArtifact(Offer(host, paths[i])))
    ensures !HasArtifact(artifact) && HasArtifact(r) ==>
      exists i :: FirstUsable(host, paths, i) && r == Offer(host, paths[i])
    decreases |paths|
  {
    if |paths| == 0 then artifact
    else
      var next := Use(host, artifact, paths[0]);
      var r := UseAll(host, next, paths[1..]);
      assert forall i :: 1 <= i < |paths| ==> paths[i] == paths[1..][i - 1];
      assert !HasArtifact(artifact) && HasArtifact(r) ==>
        exists i :: FirstUsable(host, paths, i) && r == Offer(host, paths[i]) by {
        if !HasArtifact(artifact) && HasArtifact(r) {
          if HasArtifact(next) {
            assert FirstUsable(host, paths, 0);
          } else {
            var k :| FirstUsable(host, paths[1..], k) && r == Offer(host, paths[1..][k]);
            assert FirstUsable(host, paths, k + 1);
          }
        }
      }
      r
  }

  /** Turning the builder into a result: its artifact, or the resolve error. */
  function Build(artifact: string): (r: Result<string>)
    ensures r.Success? <==> HasArtifact(artifact)
    ensures r.Success? ==> r.value == artifact
    ensures r.Failure? ==> r.error == ResolveError
  {
    if HasArtifact(artifact) then Success(artifact) else Failure(ResolveError)
  }

  /** The candidates in priority order: explicit path, $SHELL, the fallback. */
  function ShellCandidates(host: Host, path: string): (candidates: seq<string>)
    ensures |candidates| == 3
    ensures candidates[0] == path && candidates[1] == Getenv(host.env, ShellEnv) && candidates[2] == ShellDefault
  {
    [path, Getenv(host.env, ShellEnv), ShellDefault]
  }

  /**
    Resolving the shell: the first candidate whose PATH search gives an
    existing non-directory wins; the caller's arguments are kept unchanged.
   */
  function ResolveShell(host: Host, path: string, args: seq<string>): (r: Result<Shell>)
    ensures r.Success? ==>
      && r.value.args == args
      && HasArtifact(r.value.path)
      && PathExists(host.fs, r.value.path)
      && !DirExists(host.fs, r.value.path)
    ensures r.Success? ==>
      exists i :: FirstUsable(host, ShellCandidates(host, path), i) && r.value.path == Offer(host, ShellCandidates(host, path)[i])
    ensures r.Failure? <==> forall i :: 0 <= i < 3 ==> !HasArtifact(Offer(host, ShellCandidates(host, path)[i]))
    ensures r.Failure? ==> r.error == ResolveError
  {
    var artifact := UseAll(host, "", ShellCandidates(host, path));
    match Build(artifact)
    case Success(binary) => Success(Shell(binary, args))
    case Failure(e) => Failure(e)
  }

  /** An explicit shell that resolves to a usable binary is always chosen. */
  lemma ExplicitShellWins(host: Host, path: string, args: seq<string>)
    requires HasArtifact(Offer(host, path))
    ensures ResolveShell(host, path, args) == Success(Shell(Offer(host, path), args))
  {
  }

  /** With an unusable explicit path, a usable $SHELL wins whatever the fallback gives. */
  lemma ShellVariableSecond(host: Host, path: string, args: seq<string>)
    requires !HasArtifact(Offer(host, path))
    requires HasArtifact(Offer(host, Getenv(host.env, ShellEnv)))
    ensures ResolveShell(host, path, args) == Success(Shell(Offer(host, Getenv(host.env, ShellEnv)), args))
  {
  }

  /** A candidate resolving to a directory is passed over as if it were absent. */
  lemma DirectoryCandidateSkipped(host: Host, path: string, args: seq<string>)
    requires SearchPathEnvironment(host, PathEnv, path).found
    requires DirExists(host.fs, SearchPathEnvironment(host, PathEnv, path).path)
    ensures ResolveShell(host, path, args) == ResolveShell(host, "", args)
  {
  }

  /** Without an explicit shell or $SHELL, the fallback goes through the PATH search too. */
  lemma FallbackSearched(host: Host, args: seq<string>)
    requires ShellEnv !in host.env
    ensures ResolveShell(host, "", args) ==
      if HasArtifact(Offer(host, ShellDefault)) then Success(Shell(Offer(host, ShellDefault), args))
      else Failure(ResolveError)
  {
  }

  /** `Shell(<path>)`, or `Shell(<path> a1 a2 ...)` with single spaces. */
  function ShellString(s: Shell): (r: string)
    ensures HasPrefix(r, "Shell(" + s.path)
    ensures |r| > 0 && r[|r| - 1] == ')'
    ensures |s.args| == 0 ==> r == "Shell(" + s.path + ")"
  {
    var argv := if 0 < |s.args| then " " + Join(s.args, ' ') else "";
    "Shell(" + s.path + argv + ")"
  }

  /**
    The text between the parentheses, split on spaces, gives back the path
    and the arguments when none of them contains a space.
   */
  lemma ShellStringRoundTrip(s: Shell)
    requires ' ' !in s.path
    requires forall i :: 0 <= i < |s.args| ==> ' ' !in s.args[i]
    ensures var r := ShellString(s);
      && r[..6] == "Shell("
      && Split(r[6..|r| - 1], ' ') == [s.path] + s.args
  {
    var r := ShellString(s);
    var inner := r[6..|r| - 1];
    var parts := [s.path] + s.args;
    if |s.args| == 0 {
      assert inner == s.path;
      assert Join(parts, ' ') == s.path;
    } else {
      assert inner == s.path + [' '] + Join(s.args, ' ');
      JoinCons(s.path, s.args, ' ');
    }
    assert inner == Join(parts, ' ');
    SplitJoin(parts, ' ');
  }
}
