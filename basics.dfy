/** Values shared by the dedup cache, the scan loop and the per-file watchers. */
module Basics {

  datatype Option<T> = None | Some(value: T)

  /** An error value as the filesystem or a cache backend returns it; only its identity matters. */
  datatype IoError = IoError(message: string)

  /** The full path of a directory entry, `path.Join(dir, name)`. It is kept as its two
      parts, so distinct (directory, name) pairs always give distinct paths; the lexical
      cleaning that `path.Join` performs is not modelled. */
  datatype Path = Join(dir: string, name: string)

  /** One entry of a directory listing: its base name and whether it is a directory. */
  datatype Entry = Entry(name: string, isDir: bool)

  /** The full path the scan loop builds for entry `e` of directory `dir`. */
  function FullPath(dir: string, e: Entry): Path
  {
    Join(dir, e.name)
  }

  /** No two positions of `s` hold the same element. */
  ghost predicate Distinct<T>(s: seq<T>)
  {
    forall i, j :: 0 <= i < j < |s| ==> s[i] != s[j]
  }
}
