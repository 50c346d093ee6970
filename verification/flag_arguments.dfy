/** The registry of parsed command-line values (`Arguments`). */
module FlagArguments {

  datatype Arguments = Arguments(
    blank: bool,
    noRun: bool,
    goSdk: string,
    shell: string,
    shellArgv: seq<string>,
    path: seq<string>)

  /** The empty registry. */
  function NewArguments(): (a: Arguments)
    ensures !a.blank && !a.noRun
    ensures a.goSdk == "" && a.shell == ""
    ensures |a.shellArgv| == 0 && |a.path| == 0
  {
    Arguments(false, false, "", "", [], [])
  }

  /** Adds a value at the end of the shell arguments; nothing else changes. */
  function AppendShellArgument(a: Arguments, value: string): (r: Arguments)
    ensures |r.shellArgv| == |a.shellArgv| + 1
    ensures r.shellArgv[..|a.shellArgv|] == a.shellArgv && r.shellArgv[|a.shellArgv|] == value
    ensures r.(shellArgv := a.shellArgv) == a
  {
    a.(shellArgv := a.shellArgv + [value])
  }

  /** Adds a value at the end of the directories; nothing else changes. */
  function AppendPath(a: Arguments, value: string): (r: Arguments)
    ensures |r.path| == |a.path| + 1
    ensures r.path[..|a.path|] == a.path && r.path[|a.path|] == value
    ensures r.(path := a.path) == a
  {
    a.(path := a.path + [value])
  }

  /** Appending shell arguments one by one, in call order. */
  function AppendShellArguments(a: Arguments, values: seq<string>): Arguments
    decreases |values|
  {
    if |values| == 0 then a
    else AppendShellArguments(AppendShellArgument(a, values[0]), values[1..])
  }

  /** Appending directories one by one, in call order. */
  function AppendPaths(a: Arguments, values: seq<string>): Arguments
    decreases |values|
  {
    if |values| == 0 then a
    else AppendPaths(AppendPath(a, values[0]), values[1..])
  }

  /** A sequence of shell-argument appends yields the values in call order. */
  lemma {:induction false} ShellArgumentsInOrder(a: Arguments, values: seq<string>)
    ensures AppendShellArguments(a, values) == a.(shellArgv := a.shellArgv + values)
    decreases |values|
  {
    if |values| > 0 {
      var next := AppendShellArgument(a, values[0]);
      ShellArgumentsInOrder(next, values[1..]);
      assert next.shellArgv + values[1..] == a.shellArgv + values;
    }
  }

  /** A sequence of directory appends yields the values in call order. */
  lemma {:induction false} PathsInOrder(a: Arguments, values: seq<string>)
    ensures AppendPaths(a, values) == a.(path := a.path + values)
    decreases |values|
  {
    if |values| > 0 {
      var next := AppendPath(a, values[0]);
      PathsInOrder(next, values[1..]);
      assert next.path + values[1..] == a.path + values;
    }
  }
}
