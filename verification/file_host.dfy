/**
 * The parts of the filesystem and of `pathlib` that choosing a wallpaper
 * consults, as functions: both generations that pick from a directory see
 * the disk only through these.
 */
module FileHost {
  datatype Host = Host(
    present: string -> bool,          // `exists()`
    isDir: string -> bool,
    isFile: string -> bool,
    isImage: string -> bool,          // `is_valid_image`
    listDir: string -> seq<string>,   // `iterdir`, as full paths
    resolve: string -> string,        // `expanduser().resolve()`
    parent: string -> string,         // `.parent`
    within: (string, string) -> bool) // `is_relative_to`

  /** The directories a recency-exclude list names, resolved. */
  function ExcludeDirs(host: Host, excludes: seq<string>): (r: seq<string>)
    ensures |r| == |excludes| && forall k :: 0 <= k < |r| ==> r[k] == host.resolve(excludes[k])
  {
    seq(|excludes|, k requires 0 <= k < |excludes| => host.resolve(excludes[k]))
  }

  /** `dir == ex or dir.is_relative_to(ex)` for some excluded directory `ex`. */
  predicate Excluded(host: Host, dir: string, dirs: seq<string>) {
    exists k :: 0 <= k < |dirs| && (dir == dirs[k] || host.within(dir, dirs[k]))
  }
}
