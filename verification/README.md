# Viper config-file locator in Dafny

This project models how the Viper configuration library finds its config file
(`file.go`). `findConfigFile` walks the configured search directories
(`configPaths`) in order and calls `searchInPath` on each one. `searchInPath`
tries `configName.<ext>` for every extension of `SupportedExts`, in list
order. When an explicit `configType` is set and no extension matched, it also
tries the bare `configName`. A candidate counts only if `exists` says so, and
`exists` accepts a path only if `fs.Stat` succeeds on it and it is not a
directory. The first hit wins. If no directory yields a hit, the result is a
`ConfigFileNotFoundError` carrying the base name and the searched directories.

All three routines are pure, so they are modelled as functions. The two Go
loops with early return become recursive functions over the sequences.

- `Fs` (fs.dfy) models the filesystem as a map from path to `File`, `Dir` or
  `Unreadable`. A path that is not a key does not exist. `Unreadable` is a
  path whose stat fails with an error other than not-exist. `Stat` is
  `fs.Stat` over that map.
- `Viper` (file.dfy) holds the receiver fields as a `Config` value
  (`configPaths`, `configName`, `configType`, `fs`). `SupportedExts` is the
  parameter `exts`. `filepath.Join` is the parameter `join`, a function about
  which nothing is assumed, so every lemma holds for any join.
  The module also holds a reference definition: `FirstNonDirectory` is the first
  path of a flat candidate list that names a non-directory entry.
  `AllCandidates` builds that list for a directory list, directory by
  directory, each with its extension candidates followed by the bare name.
  The lemmas connect the nested early-return loops to this positional
  priority.
- `Scenarios` (scenarios.dfy) holds worked searches over
  `/etc/app` and `/home/user/.app` with a slash-joining `join`.
- `Wrappers` (wrappers.dfy) provides `Option` and `Result`. On failure,
  `findConfigFile` returns `("", err)`; the model returns `Err(err)`.

`exists` (file.go:46-56) returns the not-exist error for an absent path and
swallows every other stat failure. That is the reverse of the usual Go idiom
(see Findings). The model follows the code in `Viper.Exists`, and the search
calls it exactly as file.go:31 and file.go:38 do. `Viper.ExistsCorrected` is
the intended variant. `Viper.ExistsErrorPolarity` proves both give the same
answer, so the search returns the same paths with either one, because the
callers discard the error.

## Model

| member | source | states |
|---|---|---|
| `Viper.Exists` | file.go:47-56 | Found exactly when the path can be stat'ed and is not a directory. The error is the not-exist error exactly when the path is absent, and nil for every other outcome, including other stat failures. |
| `Viper.ExistsCorrected` | file.go:47-56 | Same answer as `exists`, but with the intended errors: nil for a missing path, the stat error for any other stat failure. |
| `Viper.ExistsErrorPolarity` | file.go:52-55 | The written and the intended `exists` report the errors of missing and unreadable paths the opposite way, and always agree on the boolean. |
| `Viper.SearchExts` | file.go:29-35 | A path found by the extension loop names a non-directory entry and is `join(in, configName + "." + ext)` for one of the listed extensions. |
| `Viper.ExtCandidates` | file.go:29-31 | There is one extension candidate per listed extension, in the same order. |
| `Viper.SearchInPath` | file.go:27-44 | A non-empty result names a `File` entry, so a directory is never returned. |
| `Viper.FindIn` | file.go:18-23 | A path found by the directory loop is non-empty and names a non-directory entry. It is the `searchInPath` result of one of the listed directories, for every filesystem. |
| `Viper.FindConfigFile` | file.go:15-25 | A returned path is non-empty and names a non-directory entry. A failure carries `configName` and `configPaths`. |
| `Viper.FirstNonDirectory` | file.go:13-14 | Reference first-match: `None` exactly when no listed path names a non-directory entry. Otherwise the result is the first such path, every earlier path naming a directory or nothing, and that path is the only possible result. |
| `Viper.SearchExtsFirstMatch` | file.go:29-35 | The extension loop returns the first existing extension candidate, in `SupportedExts` order. |
| `Viper.SearchInPathFirstMatch` | file.go:27-44 | `searchInPath` is the first non-directory entry of the directory's extension candidates followed by the bare name (the bare name only when `configType` is set), or "" if there is none. |
| `Viper.SearchInPathExtensionPriority` | file.go:29-35 | The earliest listed extension whose candidate exists wins over later ones. |
| `Viper.SearchInPathFallbackGated` | file.go:37-41 | Without `configType`, the result is "" or an extension candidate. With `configType` set, no extension candidate existing and the bare name existing, the result is the bare name. |
| `Viper.SearchInPathEmptyIffNoCandidate` | file.go:27-44 | If the empty path does not stat as a non-directory, the result is "" exactly when no candidate exists. The bare name counts as a candidate only when `configType` is set. |
| `Viper.FindInFirstDirectoryWins` | file.go:18-23 | The first directory, in list order, whose search is non-empty gives the result, whatever later directories hold. |
| `Viper.FindInNoneIffAllEmpty` | file.go:18-24 | The directory loop finds nothing exactly when every directory's search returns "". |
| `Viper.FindInIgnoresLaterPaths` | file.go:18-23 | Once a directory has matched, appending more directories does not change the result, so later directories are never consulted. |
| `Viper.FindConfigFileFirstDirectoryWins` | file.go:15-25 | `findConfigFile` returns the search result of the first directory whose search is non-empty. |
| `Viper.FindConfigFileNotFound` | file.go:24 | `findConfigFile` fails exactly when every directory's search is empty, and always fails for an empty `configPaths`, with an error carrying the name and the (empty) path list. |
| `Viper.FindInFirstMatch` | file.go:18-44 | If the empty path does not stat as a non-directory, the directory loop returns the first non-directory entry of all candidates, ordered by directory first and then by candidate. |
| `Viper.FindConfigFileFirstCandidate` | file.go:13-44 | End to end: `findConfigFile` is `Ok` of that first non-directory candidate. When there is none, it is the not-found error carrying the name and the paths. |
| `Scenarios.SecondDirectoryFound` | file.go:15-44 | Only `/home/user/.app/config.json` exists, and it is the result. |
| `Scenarios.EarlierExtensionWins` | file.go:29-35 | `config.yaml` and `config.json` both exist in `/etc/app`, and `config.yaml` (listed first) is the result. |
| `Scenarios.NothingFound` | file.go:24 | Nothing exists, and the error names `config` and both directories. |
| `Scenarios.BareNameWithConfigType` | file.go:37-41 | With a config type set and no extension matching, `/etc/app/config` is the result. |
| `Scenarios.DirectoryIsSkipped` | file.go:47-51 | `/etc/app/config.yaml` is a directory, so the search moves on to `/etc/app/config.json`. |

## Findings

| source | as written | input that shows it | evidently intended | confidence | as-written member | corrected member |
|---|---|---|---|---|---|---|
| file.go:52-55 | `exists` returns a nil error for stat failures other than not-exist, and returns the not-exist error for an absent path. The test is the wrong way round. | An absent path on an empty filesystem gives the not-exist error. An unreadable path gives a nil error. | An absent path is the expected case and gives a nil error. Any other stat failure is passed on. The doc comment at file.go:46 treats absence as a plain "false" answer, and the usual Go idiom returns `false, nil` for not-exist and `false, err` otherwise. | medium, not executed. Both callers discard the error, so no search result changes. | `Viper.Exists`, `Viper.ExistsErrorPolarity` | `Viper.ExistsCorrected` |

## Left out

- `osFS` and its `Open`, `Glob`, `ReadDir`, `ReadFile` and `Stat` methods (file.go:58-78) are one-line pass-throughs to the operating system. The filesystem is the map of `Fs` instead.
- Logger calls (file.go:16, 28, 30, 32) are output only and do not affect the result.
- The path cleaning of `filepath.Join` is not modelled. `join` is an arbitrary function parameter. The scenarios use `dir + "/" + file`.
- The rendering of the searched paths by `fmt.Sprintf("%s", ...)` (file.go:24) is not modelled. The error carries the sequence of paths itself.
- The real `io/fs` stat behaviour and the operating system's error taxonomy are reduced to four outcomes: non-directory entry, directory, not-exist and any other error.
- The definition of `SupportedExts` is not part of this model; it is the parameter `exts`. The build tag (file.go:1) is not modelled.
- `findConfigFile` returns the empty string alongside the error. The model's `Err` carries no path.
- Viper.SearchInPathEmptyIffNoCandidate: assumes the empty path does not stat as a non-directory. Without that, `join` could yield "" for a path "" that stats as a file, and `searchInPath` would return "", which looks like "not found". Every conforming `fs.FS` rejects "" with `fs.ErrNotExist` or `fs.ErrInvalid`, and `os.Stat("")` fails with not-exist, so the premise holds for real filesystems.
- Viper.FindInFirstMatch: assumes the empty path does not stat as a non-directory, for the same reason.
- Viper.FindConfigFileFirstCandidate: assumes the empty path does not stat as a non-directory, for the same reason.
