/**
 * Worked searches over two directories with a slash-joining `filepath.Join`,
 * proved through the general lemmas of the locator.
 */
module Scenarios {
  import opened Wrappers
  import opened Fs
  import opened Viper

  /** `filepath.Join` for a clean, non-empty directory and a plain file name. */
  function SlashJoin(dir: string, file: string): (path: string) {
    dir + "/" + file
  }

  const Dirs: seq<string> := ["/etc/app", "/home/user/.app"]
  const Exts: seq<string> := ["yaml", "json"]

  /** Only the second directory holds a config file: its first existing extension is found. */
  lemma SecondDirectoryFound()
    ensures FindConfigFile(Config(Dirs, "config", "", map["/home/user/.app/config.json" := File]), Exts, SlashJoin)
            == Ok("/home/user/.app/config.json")
  {
    var v := Config(Dirs, "config", "", map["/home/user/.app/config.json" := File]);
    assert ExtCandidate(SlashJoin, Dirs[0], "config", Exts[0]) == "/etc/app/config.yaml";
    assert ExtCandidate(SlashJoin, Dirs[0], "config", Exts[1]) == "/etc/app/config.json";
    assert ExtCandidate(SlashJoin, Dirs[1], "config", Exts[0]) == "/home/user/.app/config.yaml";
    assert ExtCandidate(SlashJoin, Dirs[1], "config", Exts[1]) == "/home/user/.app/config.json";
    assert SearchInPath(v, Exts, SlashJoin, Dirs[0]) == "";
    SearchInPathExtensionPriority(v, Exts, SlashJoin, Dirs[1], 1);
    FindConfigFileFirstDirectoryWins(v, Exts, SlashJoin, 1);
  }

  /** Two extensions exist in the first directory: the earlier listed one wins. */
  lemma EarlierExtensionWins()
    ensures FindConfigFile(Config(Dirs, "config", "", map["/etc/app/config.yaml" := File, "/etc/app/config.json" := File]), Exts, SlashJoin)
            == Ok("/etc/app/config.yaml")
  {
    var v := Config(Dirs, "config", "", map["/etc/app/config.yaml" := File, "/etc/app/config.json" := File]);
    assert ExtCandidate(SlashJoin, Dirs[0], "config", Exts[0]) == "/etc/app/config.yaml";
    SearchInPathExtensionPriority(v, Exts, SlashJoin, Dirs[0], 0);
    FindConfigFileFirstDirectoryWins(v, Exts, SlashJoin, 0);
  }

  /** Nothing exists anywhere: the error names the base name and both directories. */
  lemma NothingFound()
    ensures FindConfigFile(Config(Dirs, "config", "", map[]), Exts, SlashJoin)
            == Err(ConfigFileNotFoundError("config", Dirs))
  {
  }

  /** An explicit config type admits the bare name when no extension matches. */
  lemma BareNameWithConfigType()
    ensures FindConfigFile(Config(Dirs, "config", "conf", map["/etc/app/config" := File]), Exts, SlashJoin)
            == Ok("/etc/app/config")
  {
    var v := Config(Dirs, "config", "conf", map["/etc/app/config" := File]);
    assert ExtCandidate(SlashJoin, Dirs[0], "config", Exts[0]) == "/etc/app/config.yaml";
    assert ExtCandidate(SlashJoin, Dirs[0], "config", Exts[1]) == "/etc/app/config.json";
    assert SlashJoin(Dirs[0], "config") == "/etc/app/config";
    SearchInPathFallbackGated(v, Exts, SlashJoin, Dirs[0]);
    FindConfigFileFirstDirectoryWins(v, Exts, SlashJoin, 0);
  }

  /** A directory named like a candidate is skipped: the search moves on to the next extension. */
  lemma DirectoryIsSkipped()
    ensures FindConfigFile(Config(Dirs, "config", "", map["/etc/app/config.yaml" := Dir, "/etc/app/config.json" := File]), Exts, SlashJoin)
            == Ok("/etc/app/config.json")
  {
    var v := Config(Dirs, "config", "", map["/etc/app/config.yaml" := Dir, "/etc/app/config.json" := File]);
    assert ExtCandidate(SlashJoin, Dirs[0], "config", Exts[0]) == "/etc/app/config.yaml";
    assert ExtCandidate(SlashJoin, Dirs[0], "config", Exts[1]) == "/etc/app/config.json";
    SearchInPathExtensionPriority(v, Exts, SlashJoin, Dirs[0], 1);
    FindConfigFileFirstDirectoryWins(v, Exts, SlashJoin, 0);
  }
}
