/**
  The filesystem existence oracle and the search-path resolver
  (`SearchPathEnvironment`, `PathExists`, `DirExists`).

  The process environment, the filesystem and the path conversions of the
  host are explicit: the environment is a map from variable name to value,
  the filesystem maps every path that `stat` succeeds on to the kind of node
  it finds, and `abs`, `join` and `isAbs` are left uninterpreted.
 */
module Paths {
  import opened Results
  import opened Strings

  /** The kind of node a successful `stat` reports. */
  datatype Node = File | Dir

  type Env = map<string, string>

  /** Paths absent from the map are those whose `stat` fails, for any reason. */
  type FileSystem = map<string, Node>

  /** The separator of path-list variables such as PATH (`:` on Unix). */
  const ListSeparator: char := ':'

  /**
    Everything the library observes of the host: the environment, the
    filesystem, the working directory at startup, and the path conversions
    (`filepath.Abs`, which may fail; `filepath.Join`/`path.Join`;
    `filepath.IsAbs`).
   */
  datatype Host = Host(
    env: Env,
    fs: FileSystem,
    cwd: string,
    abs: string -> Option<string>,
    join: (string, string) -> string,
    isAbs: string -> bool)

  /** Reading a variable: an unset variable reads as the empty string. */
  function Getenv(env: Env, name: string): (value: string)
    ensures name !in env ==> value == ""
  {
    if name in env then env[name] else ""
  }

  /** Existence means a successful stat; every error counts as "does not exist". */
  predicate PathExists(fs: FileSystem, path: string)
  {
    path in fs
  }

  /** A successful stat that reports a directory. */
  predicate DirExists(fs: FileSystem, path: string)
  {
    path in fs && fs[path] == Dir
  }

  /** An existing directory is an existing path; an existing file is not a directory. */
  lemma DirExistsImpliesPathExists(fs: FileSystem, path: string)
    ensures DirExists(fs, path) ==> PathExists(fs, path)
    ensures PathExists(fs, path) && fs[path] == File ==> !DirExists(fs, path)
  {
  }

  /** The `(path, ok)` pair a search returns. */
  datatype Lookup = Lookup(path: string, found: bool)

  /** The candidate directories held by a path-list variable, in split order. */
  function Candidates(env: Env, name: string): (fragments: seq<string>)
    ensures |fragments| == Count(Getenv(env, name), ListSeparator) + 1
    ensures name !in env ==> fragments == [""]
  {
    Split(Getenv(env, name), ListSeparator)
  }

  /**
    What one candidate directory contributes: the absolute form of the
    candidate joined with `rel`, when that conversion succeeds and the
    result exists; nothing otherwise.
   */
  function Probe(host: Host, fragment: string, rel: string): (hit: Option<string>)
    ensures hit.Some? ==> PathExists(host.fs, hit.value)
    ensures hit.Some? ==> host.abs(host.join(fragment, rel)) == Some(hit.value)
  {
    match host.abs(host.join(fragment, rel))
    case Some(a) => if PathExists(host.fs, a) then Some(a) else None
    case None => None
  }

  /** `i` is the first candidate whose probe succeeds. */
  ghost predicate FirstHit(host: Host, fragments: seq<string>, rel: string, i: int)
  {
    && 0 <= i < |fragments|
    && Probe(host, fragments[i], rel).Some?
    && forall j :: 0 <= j < i ==> Probe(host, fragments[j], rel).None?
  }

  /** The loop over candidate directories, left to right, stopping at the first hit. */
  function SearchFragments(host: Host, fragments: seq<string>, rel: string): (r: Lookup)
    ensures r.found <==> exists i :: 0 <= i < |fragments| && Probe(host, fragments[i], rel).Some?
    ensures r.found ==> exists i :: FirstHit(host, fragments, rel, i) && Probe(host, fragments[i], rel) == Some(r.path)
    ensures r.found ==> PathExists(host.fs, r.path)
    ensures !r.found ==> r == Lookup("", false)
    decreases |fragments|
  {
    if |fragments| == 0 then Lookup("", false)
    else match Probe(host, fragments[0], rel)
      case Some(a) =>
        assert FirstHit(host, fragments, rel, 0);
        Lookup(a, true)
      case None =>
        var r := SearchFragments(host, fragments[1..], rel);
        assert forall i :: 1 <= i < |fragments| ==> fragments[i] == fragments[1..][i - 1];
        assert r.found ==> exists i :: FirstHit(host, fragments, rel, i) && Probe(host, fragments[i], rel) == Some(r.path) by {
          if r.found {
            var k :| FirstHit(host, fragments[1..], rel, k) && Probe(host, fragments[1..][k], rel) == Some(r.path);
            assert FirstHit(host, fragments, rel, k + 1);
          }
        }
        r
  }

  /** An absolute `rel` that exists is returned as it is. */
  predicate ShortCircuits(host: Host, rel: string)
  {
    host.isAbs(rel) && PathExists(host.fs, rel)
  }

  /**
    Searching for `rel` in the directories listed by the variable `name`:
    an existing absolute `rel` is returned unchanged; otherwise the first
    candidate (in split order) whose joined absolute path exists wins, and
    when none does the result is `("", false)`.
   */
  function SearchPathEnvironment(host: Host, name: string, rel: string): (r: Lookup)
    ensures ShortCircuits(host, rel) ==> r == Lookup(rel, true)
    ensures r.found ==> PathExists(host.fs, r.path)
    ensures !r.found ==> r == Lookup("", false)
    ensures !r.found <==>
      && !ShortCircuits(host, rel)
      && forall i :: 0 <= i < |Candidates(host.env, name)| ==> Probe(host, Candidates(host.env, name)[i], rel).None?
    ensures r.found && !ShortCircuits(host, rel) ==>
      exists i :: FirstHit(host, Candidates(host.env, name), rel, i) && Probe(host, Candidates(host.env, name)[i], rel) == Some(r.path)
  {
    var fragments := Candidates(host.env, name);
    if ShortCircuits(host, rel) then Lookup(rel, true)
    else SearchFragments(host, fragments, rel)
  }

  /** Candidates after the first hit are never examined. */
  lemma {:induction false} LaterCandidatesIgnored(host: Host, xs: seq<string>, ys: seq<string>, rel: string)
    requires exists i :: 0 <= i < |xs| && Probe(host, xs[i], rel).Some?
    ensures SearchFragments(host, xs + ys, rel) == SearchFragments(host, xs, rel)
    decreases |xs|
  {
    assert (xs + ys)[0] == xs[0];
    if Probe(host, xs[0], rel).None? {
      var i :| 0 <= i < |xs| && Probe(host, xs[i], rel).Some?;
      assert xs[1..][i - 1] == xs[i];
      assert (xs + ys)[1..] == xs[1..] + ys;
      LaterCandidatesIgnored(host, xs[1..], ys, rel);
    }
  }

  /** An existing absolute path is found whatever the environment holds. */
  lemma ShortCircuitIgnoresEnvironment(host: Host, env: Env, name: string, rel: string)
    requires ShortCircuits(host, rel)
    ensures SearchPathEnvironment(host.(env := env), name, rel) == SearchPathEnvironment(host, name, rel)
    ensures SearchPathEnvironment(host, name, rel) == Lookup(rel, true)
  {
  }

  /**
    An unset variable still contributes exactly one empty candidate, so
    the search reduces to probing `Join("", rel)`.
   */
  lemma UnsetVariableSearchesEmptyCandidate(host: Host, name: string, rel: string)
    requires name !in host.env
    requires !ShortCircuits(host, rel)
    ensures SearchPathEnvironment(host, name, rel) ==
      match Probe(host, "", rel)
      case Some(a) => Lookup(a, true)
      case None => Lookup("", false)
  {
  }

  /** A failing conversion skips its candidate instead of ending the search. */
  lemma FailedConversionSkipsCandidate(host: Host, fragments: seq<string>, rel: string)
    requires |fragments| > 0
    requires host.abs(host.join(fragments[0], rel)).None?
    ensures SearchFragments(host, fragments, rel) == SearchFragments(host, fragments[1..], rel)
  {
  }
}
