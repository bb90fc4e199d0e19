/** The filesystem as howto sees it, as plain data: what `os.Stat`
    reports for a path, what `os.ReadFile` returns, and the sequence of
    callbacks that `filepath.WalkDir` makes (in its lexical walk order). */
module Fs {
  import opened Wrappers

  /** What `DirEntry.Info` reports: nanoseconds since the epoch and bytes. */
  datatype FileInfo = FileInfo(modTime: int, size: int)

  /** One invocation of the `WalkDir` callback. */
  datatype WalkEntry =
    | WalkError(path: string, err: string)  // the callback's `err` argument is non-nil
    | Dir(path: string)                     // a directory, the root included
    | File(path: string,                    // anything that is not a directory
           name: string,                    // `DirEntry.Name()`
           rel: string,                     // `filepath.Rel(root, path)`
           info: Result<FileInfo>,          // `DirEntry.Info()`
           content: Result<string>)         // `os.ReadFile(path)`

  /** What a path is. `Absent` is a stat error satisfying `os.IsNotExist`. */
  datatype Node =
    | Absent
    | StatError(err: string)
    | Present(isDir: bool, walk: seq<WalkEntry>, content: Result<string>)

  type FileSystem = map<string, Node>

  function Lookup(fs: FileSystem, path: string): Node {
    if path in fs then fs[path] else Absent
  }
}
