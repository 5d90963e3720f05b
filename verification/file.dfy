/**
 * Config-file discovery of the Viper configuration library: search the
 * configured directories, in order, for `configName.<ext>` with `ext` taken
 * from the supported extensions in order, falling back to a bare
 * `configName` when an explicit config type is set.
 *
 * The receiver fields the search reads are the `Config` value; the package
 * list `SupportedExts` is the parameter `exts`; `filepath.Join` is the
 * parameter `join`, about which nothing is assumed.
 */
module Viper {
  import opened Wrappers
  import opened Fs

  /** `filepath.Join` of a directory and a file name. */
  type Joiner = (string, string) -> string

  /** The fields of the `Viper` receiver that the search reads. */
  datatype Config = Config(configPaths: seq<string>, configName: string, configType: string, fs: FS)

  /** Returned when no directory holds a config file: the base name and the searched directories. */
  datatype ConfigFileNotFoundError = ConfigFileNotFoundError(name: string, locations: seq<string>)

  /** The pair `(bool, error)` returned by `exists`; `None` is a nil error. */
  datatype ExistsResult = ExistsResult(found: bool, err: Option<StatError>)

  // ---------------------------------------------------------------------------
  // exists

  /**
   * `exists` as written: true exactly for a stat-able non-directory. The error
   * it returns is the not-exist error for an absent path and nil for every
   * other outcome, other stat failures included.
   */
  function Exists(fs: FS, path: string): (r: ExistsResult)
    ensures r.found <==> IsNonDirectory(fs, path)
    ensures r.err == Some(ErrNotExist) <==> path !in fs
    ensures r.err == None <==> path in fs
  {
    var s := Stat(fs, path);
    if s.Info? then ExistsResult(!s.info.isDir, None)
    else if s.err != ErrNotExist then ExistsResult(false, None)
    else ExistsResult(false, Some(s.err))
  }

  /**
   * `exists` with the error test the other way round: absence is the expected
   * case and yields a nil error; any other stat failure is passed on.
   */
  function ExistsCorrected(fs: FS, path: string): (r: ExistsResult)
    ensures r.found <==> IsNonDirectory(fs, path)
    ensures r.err == Some(ErrOther) <==> path in fs && fs[path] == Unreadable
    ensures r.err == None <==> path !in fs || fs[path] != Unreadable
  {
    var s := Stat(fs, path);
    if s.Info? then ExistsResult(!s.info.isDir, None)
    else if s.err == ErrNotExist then ExistsResult(false, None)
    else ExistsResult(false, Some(s.err))
  }

  /**
   * The two versions of `exists` report the error of a missing path and of an
   * unreadable path the opposite way, while agreeing on the answer itself.
   */
  lemma ExistsErrorPolarity(fs: FS, path: string)
    ensures path !in fs ==> Exists(fs, path).err == Some(ErrNotExist) && ExistsCorrected(fs, path).err == None
    ensures path in fs && fs[path] == Unreadable ==>
              Exists(fs, path).err == None && ExistsCorrected(fs, path).err == Some(ErrOther)
    ensures Exists(fs, path).found == ExistsCorrected(fs, path).found
  {
  }

  // ---------------------------------------------------------------------------
  // searchInPath

  /** The candidate for one extension: `filepath.Join(in, configName + "." + ext)`. */
  function ExtCandidate(join: Joiner, dir: string, name: string, ext: string): (path: string) {
    join(dir, name + "." + ext)
  }

  /**
   * The loop over the supported extensions in `searchInPath`: the first
   * extension whose candidate exists gives the returned path.
   */
  function SearchExts(fs: FS, exts: seq<string>, join: Joiner, dir: string, name: string): (r: Option<string>)
    ensures r.Some? ==> IsNonDirectory(fs, r.value)
    ensures r.Some? ==> exists i :: 0 <= i < |exts| && r.value == ExtCandidate(join, dir, name, exts[i])
    decreases |exts|
  {
    if exts == [] then None
    else if Exists(fs, ExtCandidate(join, dir, name, exts[0])).found then Some(ExtCandidate(join, dir, name, exts[0]))
    else
      var r := SearchExts(fs, exts[1..], join, dir, name);
      assert r.Some? ==> exists i :: 0 <= i < |exts[1..]| && r.value == ExtCandidate(join, dir, name, exts[1..][i]);
      r
  }

  /**
   * `searchInPath`: the first existing extension candidate; failing that, the
   * bare name when a config type is set and it exists; failing that, "".
   */
  function SearchInPath(v: Config, exts: seq<string>, join: Joiner, dir: string): (r: string)
    ensures r != "" ==> IsNonDirectory(v.fs, r)
  {
    match SearchExts(v.fs, exts, join, dir, v.configName)
    case Some(p) => p
    case None =>
      if v.configType != "" && Exists(v.fs, join(dir, v.configName)).found then join(dir, v.configName)
      else ""
  }

  // ---------------------------------------------------------------------------
  // findConfigFile

  /** The loop over the search directories in `findConfigFile`: the first non-empty `searchInPath`. */
  function FindIn(v: Config, exts: seq<string>, join: Joiner, paths: seq<string>): (r: Option<string>)
    ensures r.Some? ==> r.value != "" && IsNonDirectory(v.fs, r.value)
    ensures r.Some? ==> exists k :: 0 <= k < |paths| && r.value == SearchInPath(v, exts, join, paths[k])
    decreases |paths|
  {
    if paths == [] then None
    else
      var file := SearchInPath(v, exts, join, paths[0]);
      if file != "" then Some(file)
      else
        var r := FindIn(v, exts, join, paths[1..]);
        assert r.Some? ==> exists k :: 0 <= k < |paths[1..]| && r.value == SearchInPath(v, exts, join, paths[1..][k]);
        r
  }

  /**
   * `findConfigFile`: a path that exists as a non-directory, or an error
   * naming the base name and every configured directory.
   */
  function FindConfigFile(v: Config, exts: seq<string>, join: Joiner): (r: Result<string, ConfigFileNotFoundError>)
    ensures r.Ok? ==> r.value != "" && IsNonDirectory(v.fs, r.value)
    ensures r.Err? ==> r.error == ConfigFileNotFoundError(v.configName, v.configPaths)
  {
    match FindIn(v, exts, join, v.configPaths)
    case Some(p) => Ok(p)
    case None => Err(ConfigFileNotFoundError(v.configName, v.configPaths))
  }

  // ---------------------------------------------------------------------------
  // Reference definition: the search as one flat, ordered candidate list

  /** The first path of `cs` that names a non-directory entry: positional priority, nothing else. */
  function FirstNonDirectory(fs: FS, cs: seq<string>): (r: Option<string>)
    ensures r.None? <==> forall k :: 0 <= k < |cs| ==> !IsNonDirectory(fs, cs[k])
    ensures r.Some? ==> exists k :: 0 <= k < |cs| && cs[k] == r.value && IsNonDirectory(fs, cs[k]) &&
                                    forall j :: 0 <= j < k ==> !IsNonDirectory(fs, cs[j])
    ensures forall k :: 0 <= k < |cs| && IsNonDirectory(fs, cs[k]) && (forall j :: 0 <= j < k ==> !IsNonDirectory(fs, cs[j]))
                        ==> r == Some(cs[k])
    decreases |cs|
  {
    if cs == [] then None
    else if IsNonDirectory(fs, cs[0]) then Some(cs[0])
    else
      var r := FirstNonDirectory(fs, cs[1..]);
      assert forall k :: 1 <= k < |cs| ==> cs[k] == cs[1..][k - 1];
      r
  }

  /** The extension candidates of one directory, in the order of `exts`. */
  function ExtCandidates(exts: seq<string>, join: Joiner, dir: string, name: string): (cs: seq<string>)
    ensures |cs| == |exts|
    ensures forall i :: 0 <= i < |exts| ==> cs[i] == ExtCandidate(join, dir, name, exts[i])
    decreases |exts|
  {
    if exts == [] then [] else [ExtCandidate(join, dir, name, exts[0])] + ExtCandidates(exts[1..], join, dir, name)
  }

  /** Every candidate of one directory: the extension candidates, then the bare name if a config type is set. */
  function Candidates(v: Config, exts: seq<string>, join: Joiner, dir: string): (cs: seq<string>)
    ensures |cs| == |exts| + (if v.configType != "" then 1 else 0)
  {
    ExtCandidates(exts, join, dir, v.configName) + (if v.configType != "" then [join(dir, v.configName)] else [])
  }

  /** Every candidate of every search directory: directory order first, then candidate order. */
  function AllCandidates(v: Config, exts: seq<string>, join: Joiner, paths: seq<string>): (cs: seq<string>)
    ensures |cs| == |paths| * (|exts| + (if v.configType != "" then 1 else 0))
    decreases |paths|
  {
    if paths == [] then []
    else
      var rest := AllCandidates(v, exts, join, paths[1..]);
      var per := |exts| + (if v.configType != "" then 1 else 0);
      assert |paths| * per == per + (|paths| - 1) * per;
      Candidates(v, exts, join, paths[0]) + rest
  }

  /** A first match in a prefix decides the first match of the whole list. */
  lemma {:induction false} FirstNonDirectoryAppend(fs: FS, a: seq<string>, b: seq<string>)
    ensures FirstNonDirectory(fs, a + b) == if FirstNonDirectory(fs, a).Some? then FirstNonDirectory(fs, a) else FirstNonDirectory(fs, b)
    decreases |a|
  {
    if a != [] {
      assert (a + b)[0] == a[0];
      assert (a + b)[1..] == a[1..] + b;
      FirstNonDirectoryAppend(fs, a[1..], b);
    } else {
      assert a + b == b;
    }
  }

  // ---------------------------------------------------------------------------
  // Properties of searchInPath

  /** The extension loop returns the first existing extension candidate, in the order of `exts`. */
  lemma {:induction false} SearchExtsFirstMatch(fs: FS, exts: seq<string>, join: Joiner, dir: string, name: string)
    ensures SearchExts(fs, exts, join, dir, name) == FirstNonDirectory(fs, ExtCandidates(exts, join, dir, name))
    decreases |exts|
  {
    if exts != [] {
      var cs := ExtCandidates(exts, join, dir, name);
      assert cs[1..] == ExtCandidates(exts[1..], join, dir, name);
      SearchExtsFirstMatch(fs, exts[1..], join, dir, name);
    }
  }

  /**
   * `searchInPath` returns the first candidate of the directory that names a
   * non-directory entry, or "" when there is none.
   */
  lemma SearchInPathFirstMatch(v: Config, exts: seq<string>, join: Joiner, dir: string)
    ensures SearchInPath(v, exts, join, dir) == FirstNonDirectory(v.fs, Candidates(v, exts, join, dir)).GetOr("")
  {
    var ecs := ExtCandidates(exts, join, dir, v.configName);
    var tail := if v.configType != "" then [join(dir, v.configName)] else [];
    SearchExtsFirstMatch(v.fs, exts, join, dir, v.configName);
    FirstNonDirectoryAppend(v.fs, ecs, tail);
    if v.configType != "" {
      assert tail[1..] == [];
    }
  }

  /** Within a directory, the earliest listed extension whose candidate exists wins over later ones. */
  lemma SearchInPathExtensionPriority(v: Config, exts: seq<string>, join: Joiner, dir: string, i: nat)
    requires i < |exts|
    requires IsNonDirectory(v.fs, ExtCandidate(join, dir, v.configName, exts[i]))
    requires forall j :: 0 <= j < i ==> !IsNonDirectory(v.fs, ExtCandidate(join, dir, v.configName, exts[j]))
    ensures SearchInPath(v, exts, join, dir) == ExtCandidate(join, dir, v.configName, exts[i])
  {
    var cs := Candidates(v, exts, join, dir);
    SearchInPathFirstMatch(v, exts, join, dir);
    assert cs[i] == ExtCandidate(join, dir, v.configName, exts[i]);
    assert forall j :: 0 <= j < i ==> cs[j] == ExtCandidate(join, dir, v.configName, exts[j]);
  }

  /**
   * The bare name is accepted only when a config type is set: without one the
   * result is "" or an extension candidate; with one, and no extension
   * candidate existing, an existing bare name is the result.
   */
  lemma SearchInPathFallbackGated(v: Config, exts: seq<string>, join: Joiner, dir: string)
    ensures v.configType == "" ==>
              var r := SearchInPath(v, exts, join, dir);
              r == "" || exists i :: 0 <= i < |exts| && r == ExtCandidate(join, dir, v.configName, exts[i])
    ensures v.configType != "" &&
            (forall i :: 0 <= i < |exts| ==> !IsNonDirectory(v.fs, ExtCandidate(join, dir, v.configName, exts[i]))) &&
            IsNonDirectory(v.fs, join(dir, v.configName))
            ==> SearchInPath(v, exts, join, dir) == join(dir, v.configName)
  {
  }

  /**
   * When the empty path does not stat as a non-directory, `searchInPath`
   * returns "" exactly when no candidate of the directory exists, the bare
   * name counting only when a config type is set.
   */
  lemma SearchInPathEmptyIffNoCandidate(v: Config, exts: seq<string>, join: Joiner, dir: string)
    requires !IsNonDirectory(v.fs, "")
    ensures SearchInPath(v, exts, join, dir) == "" <==>
              (forall i :: 0 <= i < |exts| ==> !IsNonDirectory(v.fs, ExtCandidate(join, dir, v.configName, exts[i]))) &&
              (v.configType != "" ==> !IsNonDirectory(v.fs, join(dir, v.configName)))
  {
    SearchExtsFirstMatch(v.fs, exts, join, dir, v.configName);
  }

  // ---------------------------------------------------------------------------
  // Properties of findConfigFile

  /**
   * The first directory, in `configPaths` order, whose search is non-empty
   * gives the result, whatever later directories hold.
   */
  lemma {:induction false} FindInFirstDirectoryWins(v: Config, exts: seq<string>, join: Joiner, paths: seq<string>, k: nat)
    requires k < |paths|
    requires SearchInPath(v, exts, join, paths[k]) != ""
    requires forall j :: 0 <= j < k ==> SearchInPath(v, exts, join, paths[j]) == ""
    ensures FindIn(v, exts, join, paths) == Some(SearchInPath(v, exts, join, paths[k]))
    decreases k
  {
    if k > 0 {
      assert SearchInPath(v, exts, join, paths[0]) == "";
      assert forall j :: 0 <= j < k - 1 ==> paths[1..][j] == paths[j + 1];
      FindInFirstDirectoryWins(v, exts, join, paths[1..], k - 1);
    }
  }

  /** The directory loop finds nothing exactly when every directory's search is empty. */
  lemma {:induction false} FindInNoneIffAllEmpty(v: Config, exts: seq<string>, join: Joiner, paths: seq<string>)
    ensures FindIn(v, exts, join, paths).None? <==> forall k :: 0 <= k < |paths| ==> SearchInPath(v, exts, join, paths[k]) == ""
    decreases |paths|
  {
    if paths != [] {
      FindInNoneIffAllEmpty(v, exts, join, paths[1..]);
      assert forall k :: 1 <= k < |paths| ==> paths[k] == paths[1..][k - 1];
    }
  }

  /** `findConfigFile` returns the search result of the first directory whose search is non-empty. */
  lemma FindConfigFileFirstDirectoryWins(v: Config, exts: seq<string>, join: Joiner, k: nat)
    requires k < |v.configPaths|
    requires SearchInPath(v, exts, join, v.configPaths[k]) != ""
    requires forall j :: 0 <= j < k ==> SearchInPath(v, exts, join, v.configPaths[j]) == ""
    ensures FindConfigFile(v, exts, join) == Ok(SearchInPath(v, exts, join, v.configPaths[k]))
  {
    FindInFirstDirectoryWins(v, exts, join, v.configPaths, k);
  }

  /**
   * `findConfigFile` fails exactly when every directory's search is empty (so
   * always for no directories), and the error carries the base name and the
   * directories.
   */
  lemma FindConfigFileNotFound(v: Config, exts: seq<string>, join: Joiner)
    ensures FindConfigFile(v, exts, join).Err? <==>
              forall k :: 0 <= k < |v.configPaths| ==> SearchInPath(v, exts, join, v.configPaths[k]) == ""
    ensures v.configPaths == [] ==> FindConfigFile(v, exts, join) == Err(ConfigFileNotFoundError(v.configName, []))
  {
    FindInNoneIffAllEmpty(v, exts, join, v.configPaths);
  }

  /** Directories after the first hit are never consulted: appending more of them changes nothing. */
  lemma {:induction false} FindInIgnoresLaterPaths(v: Config, exts: seq<string>, join: Joiner, paths: seq<string>, more: seq<string>)
    requires FindIn(v, exts, join, paths).Some?
    ensures FindIn(v, exts, join, paths + more) == FindIn(v, exts, join, paths)
    decreases |paths|
  {
    assert (paths + more)[0] == paths[0];
    if SearchInPath(v, exts, join, paths[0]) == "" {
      assert (paths + more)[1..] == paths[1..] + more;
      FindInIgnoresLaterPaths(v, exts, join, paths[1..], more);
    }
  }

  /**
   * End to end, when the empty path does not stat as a non-directory: the
   * directory loop returns the first path, directory by directory and within
   * a directory extension by extension then the bare name, that names a
   * non-directory entry.
   */
  lemma {:induction false} FindInFirstMatch(v: Config, exts: seq<string>, join: Joiner, paths: seq<string>)
    requires !IsNonDirectory(v.fs, "")
    ensures FindIn(v, exts, join, paths) == FirstNonDirectory(v.fs, AllCandidates(v, exts, join, paths))
    decreases |paths|
  {
    if paths != [] {
      var cs := Candidates(v, exts, join, paths[0]);
      SearchInPathFirstMatch(v, exts, join, paths[0]);
      FirstNonDirectoryAppend(v.fs, cs, AllCandidates(v, exts, join, paths[1..]));
      FindInFirstMatch(v, exts, join, paths[1..]);
    }
  }

  /**
   * `findConfigFile` is the first non-directory entry among all candidates of all
   * directories, in priority order, and otherwise the not-found error.
   */
  lemma FindConfigFileFirstCandidate(v: Config, exts: seq<string>, join: Joiner)
    requires !IsNonDirectory(v.fs, "")
    ensures FindConfigFile(v, exts, join) ==
              match FirstNonDirectory(v.fs, AllCandidates(v, exts, join, v.configPaths))
              case Some(p) => Ok(p)
              case None => Err(ConfigFileNotFoundError(v.configName, v.configPaths))
  {
    FindInFirstMatch(v, exts, join, v.configPaths);
  }
}
