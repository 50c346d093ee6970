/**
  Workspace-location resolution (`ResolveGospace`): the working directory
  (or an absolute path) first, then the directories of CDPATH, then those of
  GOSPACES.
 */
module Spaces {
  import opened Results
  import opened Strings
  import opened Paths

  /** Variable holding alternative, launcher-specific lookup directories. */
  const SpacesEnv := "GOSPACES"
  /** Variable holding the shell's lookup directories. */
  const CdpathEnv := "CDPATH"

  function NoSuchDirectory(dir: string): string
  {
    "No such directory '" + dir + "'"
  }

  /** The absolute form of `dir` is an existing directory. */
  predicate IsLocalDirectory(host: Host, dir: string)
  {
    host.abs(dir).Some? && DirExists(host.fs, host.abs(dir).value)
  }

  /**
    Resolving a directory fragment. Only the first step checks for a
    directory; a hit in CDPATH or GOSPACES is only known to exist.
   */
  function ResolveGospace(host: Host, dir: string): (r: Result<string>)
    ensures IsLocalDirectory(host, dir) ==> r == Success(host.abs(dir).value)
    ensures r.Success? ==> PathExists(host.fs, r.value)
    ensures r.Failure? <==>
      && !IsLocalDirectory(host, dir)
      && !SearchPathEnvironment(host, CdpathEnv, dir).found
      && !SearchPathEnvironment(host, SpacesEnv, dir).found
    ensures r.Failure? ==> r.error == NoSuchDirectory(dir)
  {
    if IsLocalDirectory(host, dir) then Success(host.abs(dir).value)
    else
      var cdpath := SearchPathEnvironment(host, CdpathEnv, dir);
      if cdpath.found then Success(cdpath.path)
      else
        var spaces := SearchPathEnvironment(host, SpacesEnv, dir);
        if spaces.found then Success(spaces.path)
        else Failure(NoSuchDirectory(dir))
  }

  /** A local directory wins without any environment variable being consulted. */
  lemma LocalDirectoryIgnoresEnvironment(host: Host, env: Env, dir: string)
    requires IsLocalDirectory(host, dir)
    ensures ResolveGospace(host.(env := env), dir) == ResolveGospace(host, dir)
  {
  }

  /**
    An existing absolute directory that its own conversion leaves unchanged
    resolves to itself.
   */
  lemma AbsoluteDirectoryResolvesToItself(host: Host, dir: string)
    requires host.abs(dir) == Some(dir)
    requires DirExists(host.fs, dir)
    ensures ResolveGospace(host, dir) == Success(dir)
  {
  }

  /** After a local miss, a CDPATH hit is the result, on this host and whatever GOSPACES holds. */
  lemma CdpathBeforeGospaces(host: Host, spaces: string, dir: string)
    requires !IsLocalDirectory(host, dir)
    requires SearchPathEnvironment(host, CdpathEnv, dir).found
    ensures ResolveGospace(host, dir) == Success(SearchPathEnvironment(host, CdpathEnv, dir).path)
    ensures ResolveGospace(host.(env := host.env[SpacesEnv := spaces]), dir)
         == Success(SearchPathEnvironment(host, CdpathEnv, dir).path)
  {
    var h := host.(env := host.env[SpacesEnv := spaces]);
    assert Getenv(h.env, CdpathEnv) == Getenv(host.env, CdpathEnv);
    assert !IsLocalDirectory(h, dir);
    assert SearchPathEnvironment(h, CdpathEnv, dir) == SearchPathEnvironment(host, CdpathEnv, dir) by {
      assert h.fs == host.fs && h.abs == host.abs && h.join == host.join && h.isAbs == host.isAbs;
      assert Candidates(h.env, CdpathEnv) == Candidates(host.env, CdpathEnv);
      assert forall f :: Probe(h, f, dir) == Probe(host, f, dir);
    }
  }

  /** GOSPACES is consulted only when the local check and CDPATH both miss. */
  lemma GospacesAfterCdpath(host: Host, dir: string)
    requires !IsLocalDirectory(host, dir)
    requires !SearchPathEnvironment(host, CdpathEnv, dir).found
    ensures ResolveGospace(host, dir) ==
      if SearchPathEnvironment(host, SpacesEnv, dir).found
      then Success(SearchPathEnvironment(host, SpacesEnv, dir).path)
      else Failure(NoSuchDirectory(dir))
  {
  }

  /** An existing file at the absolute form of `dir` does not stop the search. */
  lemma LocalFileFallsThrough(host: Host, dir: string)
    requires host.abs(dir).Some? && PathExists(host.fs, host.abs(dir).value)
    requires host.fs[host.abs(dir).value] == File
    ensures ResolveGospace(host, dir).Success? <==>
      SearchPathEnvironment(host, CdpathEnv, dir).found || SearchPathEnvironment(host, SpacesEnv, dir).found
  {
  }

  /** A host with one file `/ws/f` and CDPATH set to `/ws`. */
  function FileInCdpathHost(): Host
  {
    Host(
      map[CdpathEnv := "/ws"],
      map["/ws/f" := File],
      "/",
      p => Some(p),
      (a, b) => a + "/" + b,
      p => |p| > 0 && p[0] == '/')
  }

  /** Resolution can return a path that is not a directory. */
  lemma ResolvedPathMayBeFile()
    ensures ResolveGospace(FileInCdpathHost(), "f") == Success("/ws/f")
    ensures !DirExists(FileInCdpathHost().fs, "/ws/f")
  {
    var host := FileInCdpathHost();
    assert !IsLocalDirectory(host, "f");
    assert !host.isAbs("f");
    SplitWithoutSeparator("/ws", ListSeparator);
    assert Candidates(host.env, CdpathEnv) == ["/ws"];
    assert host.join("/ws", "f") == "/ws/f";
    assert Probe(host, "/ws", "f") == Some("/ws/f");
  }
}
