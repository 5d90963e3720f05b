/**
 * The read-only filesystem the locator consults, reduced to what `fs.Stat`
 * can report about a path: a non-directory entry, a directory, absence
 * (`fs.ErrNotExist`) or some other failure (permission denied, I/O error).
 */
module Fs {

  /**
   * What a present path holds. `File` stands for every entry that stats as a
   * non-directory (regular file, symlink to one, device, pipe, socket);
   * `Unreadable` is a path whose stat fails with an error other than not-exist.
   */
  datatype Entry = File | Dir | Unreadable

  /** A filesystem: every present path is a key; a path that is not a key does not exist. */
  type FS = map<string, Entry>

  /** The part of `fs.FileInfo` the locator reads. */
  datatype FileInfo = FileInfo(isDir: bool)

  /** The two kinds of stat failure the locator tells apart. */
  datatype StatError = ErrNotExist | ErrOther

  datatype StatResult = Info(info: FileInfo) | Failed(err: StatError)

  /** `fs.Stat(f, path)` over the map. */
  function Stat(fs: FS, path: string): (r: StatResult) {
    if path !in fs then Failed(ErrNotExist)
    else match fs[path]
      case File => Info(FileInfo(false))
      case Dir => Info(FileInfo(true))
      case Unreadable => Failed(ErrOther)
  }

  /** `path` can be stat'ed and is not a directory: what the locator accepts as a config file. */
  predicate IsNonDirectory(fs: FS, path: string) {
    path in fs && fs[path] == File
  }
}
