/**
  Workspace construction (`ParseWorkspace`, `concatPath`, `extendPath`) and
  the derived GOPATH, GOBIN and PATH values.
 */
module Workspaces {
  import opened Strings
  import opened Paths

  /** Sub-directory added to PATH and used as GOBIN. */
  const BinDir := "bin"
  /** Variable pointing to a Go installation. */
  const SdkEnv := "GOHOME"
  /** Workspace variable for binaries. */
  const PkgEnv := "GOBIN"
  /** Variable listing the executable search directories. */
  const OsEnv := "PATH"
  /** Variable listing the workspace include directories. */
  const WsEnv := "GOPATH"

  /** The working directory, the include directories and the OS search directories. */
  datatype Workspace = Workspace(root: string, goPath: seq<string>, osPath: seq<string>)

  /** Appending the split of a path-list variable after the given entries. */
  function ExtendPath(env: Env, list: seq<string>, name: string): (r: seq<string>)
    ensures |r| == |list| + Count(Getenv(env, name), ListSeparator) + 1
    ensures r[..|list|] == list
    ensures Join(r[|list|..], ListSeparator) == Getenv(env, name)
  {
    var extension := Split(Getenv(env, name), ListSeparator);
    JoinSplit(Getenv(env, name), ListSeparator);
    assert (list + extension)[|list|..] == extension;
    list + extension
  }

  /**
    Combining a mandatory directory with a list: the directory comes first,
    and with an empty list the value is the directory alone.
   */
  function ConcatPath(list: seq<string>, directory: string): (r: string)
    ensures r == Join([directory] + list, ListSeparator)
    ensures |list| == 0 ==> r == directory
  {
    var postfix := Join(list, ListSeparator);
    if 0 == |list| then directory
    else
      JoinCons(directory, list, ListSeparator);
      directory + [ListSeparator] + postfix
  }

  /**
    Building the workspace from resolved directories: the first is the root
    (the startup directory when there is none) and the rest are includes;
    with `keepEnv` the inherited GOPATH entries follow the includes; PATH
    keeps its entries, after `<sdk>/bin` when an SDK is given.
   */
  function ParseWorkspace(host: Host, paths: seq<string>, sdk: string, keepEnv: bool): (ws: Workspace)
    ensures ws.root == if |paths| == 0 then host.cwd else paths[0]
    ensures ws.goPath == (if |paths| <= 1 then [] else paths[1..])
      + (if keepEnv then Split(Getenv(host.env, WsEnv), ListSeparator) else [])
    ensures |sdk| == 0 ==> ws.osPath == Split(Getenv(host.env, OsEnv), ListSeparator)
    ensures |sdk| > 0 ==> ws.osPath == [host.join(sdk, BinDir)] + Split(Getenv(host.env, OsEnv), ListSeparator)
  {
    var (workdir, includes) :=
      if |paths| == 0 then (host.cwd, [])
      else if |paths| == 1 then (paths[0], [])
      else (paths[0], paths[1..]);
    var gopath := if keepEnv then ExtendPath(host.env, includes, WsEnv) else includes;
    var ospath := if 0 == |sdk| then ExtendPath(host.env, [], OsEnv)
                  else ExtendPath(host.env, [host.join(sdk, BinDir)], OsEnv);
    Workspace(workdir, gopath, ospath)
  }

  function GenerateGOPATH(w: Workspace): (r: string)
    ensures |w.goPath| == 0 ==> r == w.root
  {
    ConcatPath(w.goPath, w.root)
  }

  /** The workspace's `bin` directory, through the shared `join`. */
  function GenerateGOBIN(host: Host, w: Workspace): (r: string)
    ensures r == host.join(w.root, BinDir)
  {
    host.join(w.root, BinDir)
  }

  function GeneratePATH(host: Host, w: Workspace): (r: string)
    ensures |w.osPath| == 0 ==> r == GenerateGOBIN(host, w)
  {
    ConcatPath(w.osPath, GenerateGOBIN(host, w))
  }

  /** The `GOPATH=<value>` pair handed to the shell. */
  function EnvGOPATH(w: Workspace): (r: string)
    ensures HasPrefix(r, "GOPATH=")
    ensures r[|"GOPATH="|..] == GenerateGOPATH(w)
  {
    WsEnv + "=" + GenerateGOPATH(w)
  }

  /** The `GOBIN=<value>` pair handed to the shell. */
  function EnvGOBIN(host: Host, w: Workspace): (r: string)
    ensures HasPrefix(r, "GOBIN=")
    ensures r[|"GOBIN="|..] == GenerateGOBIN(host, w)
  {
    PkgEnv + "=" + GenerateGOBIN(host, w)
  }

  /** No entry of a list holds the list separator. */
  predicate SeparatorFree(entries: seq<string>)
  {
    forall i :: 0 <= i < |entries| ==> ListSeparator !in entries[i]
  }

  /** Splitting the GOPATH value lists the root first, then the includes in order. */
  lemma GopathLists(w: Workspace)
    requires SeparatorFree([w.root] + w.goPath)
    ensures Split(GenerateGOPATH(w), ListSeparator) == [w.root] + w.goPath
  {
    SplitJoin([w.root] + w.goPath, ListSeparator);
  }

  /** Splitting the PATH value lists GOBIN first, then the OS search directories in order. */
  lemma PathLists(host: Host, w: Workspace)
    requires SeparatorFree([GenerateGOBIN(host, w)] + w.osPath)
    ensures Split(GeneratePATH(host, w), ListSeparator) == [GenerateGOBIN(host, w)] + w.osPath
  {
    SplitJoin([GenerateGOBIN(host, w)] + w.osPath, ListSeparator);
  }

  /**
    End to end: with `keepEnv`, the GOPATH value lists the root, the
    explicit includes, then the inherited entries, all in order.
   */
  lemma KeptGopathOrder(host: Host, paths: seq<string>, sdk: string)
    requires SeparatorFree(paths) && ListSeparator !in host.cwd
    ensures Split(GenerateGOPATH(ParseWorkspace(host, paths, sdk, true)), ListSeparator)
         == (if |paths| == 0 then [host.cwd] else paths) + Split(Getenv(host.env, WsEnv), ListSeparator)
  {
    var ws := ParseWorkspace(host, paths, sdk, true);
    var inherited := Split(Getenv(host.env, WsEnv), ListSeparator);
    var head := if |paths| == 0 then [host.cwd] else paths;
    RootThenIncludes(ws, head, inherited);
    SeparatorFreeAppend(head, inherited);
    GopathLists(ws);
  }

  /** Root and includes recombine into the directory list they were split from. */
  lemma RootThenIncludes(ws: Workspace, head: seq<string>, tail: seq<string>)
    requires |head| > 0 && ws.root == head[0]
    requires ws.goPath == (if |head| <= 1 then [] else head[1..]) + tail
    ensures [ws.root] + ws.goPath == head + tail
  {
    if |head| > 1 {
      assert [head[0]] + head[1..] == head;
    }
  }

  lemma SeparatorFreeAppend(a: seq<string>, b: seq<string>)
    requires SeparatorFree(a)
    requires forall i :: 0 <= i < |b| ==> ListSeparator !in b[i]
    ensures SeparatorFree(a + b)
  {
    forall i | 0 <= i < |a + b|
      ensures ListSeparator !in (a + b)[i]
    {
      if i >= |a| {
        assert (a + b)[i] == b[i - |a|];
      }
    }
  }

  /**
    End to end: with an SDK, the PATH value lists GOBIN, then `<sdk>/bin`,
    then the inherited PATH entries in their original order.
   */
  lemma SdkPathOrder(host: Host, paths: seq<string>, sdk: string, keepEnv: bool)
    requires |sdk| > 0
    requires ListSeparator !in host.join(sdk, BinDir)
    requires ListSeparator !in GenerateGOBIN(host, ParseWorkspace(host, paths, sdk, keepEnv))
    ensures Split(GeneratePATH(host, ParseWorkspace(host, paths, sdk, keepEnv)), ListSeparator)
         == [GenerateGOBIN(host, ParseWorkspace(host, paths, sdk, keepEnv)), host.join(sdk, BinDir)]
            + Split(Getenv(host.env, OsEnv), ListSeparator)
  {
    var ws := ParseWorkspace(host, paths, sdk, keepEnv);
    var gobin := GenerateGOBIN(host, ws);
    var inherited := Split(Getenv(host.env, OsEnv), ListSeparator);
    var all := [gobin] + ws.osPath;
    assert all == [gobin, host.join(sdk, BinDir)] + inherited;
    assert SeparatorFree(all) by {
      forall i | 0 <= i < |all|
        ensures ListSeparator !in all[i]
      {
        if i >= 2 {
          assert all[i] == inherited[i - 2];
        }
      }
    }
    PathLists(host, ws);
  }
}
