/** The one directory the resolver works in, as the set of names it holds,
    and the outcome type shared by the watcher and the batch renamer. */
module FileSystem {
  import opened Wrappers

  /** What happened to one candidate: it was renamed, or it was skipped
      with a reason (the text the source records or shows). */
  datatype Outcome =
    | Renamed(src: string, dst: string)
    | Skipped(src: string, reason: string)

  /** `str(e)` of the FileNotFoundError that `os.rename(src, dst)` raises
      when `src` is missing. */
  function NoSuchFile(src: string, dst: string): string
  {
    "[Errno 2] No such file or directory: '" + src + "' -> '" + dst + "'"
  }

  /** The outcome recorded when `src` is renamed to `dst` in a directory
      holding `files` (where `refused` says which renames the system
      refuses), and the names present afterwards. */
  predicate RenameEffect(files: set<string>, refused: map<string, string>, src: string, dst: string,
                         o: Outcome, files': set<string>)
  {
    if src !in files then o == Skipped(src, NoSuchFile(src, dst)) && files' == files
    else if src in refused then o == Skipped(src, refused[src]) && files' == files
    else o == Renamed(src, dst) && files' == files - {src} + {dst}
  }

  class Directory {
    /** The names of the entries present in the directory. */
    var files: set<string>
    /** Names the operating system refuses to rename (permission denied,
        cross-device link, ...), each with the text of the error raised. */
    const refused: map<string, string>

    constructor (files: set<string>, refused: map<string, string>)
      ensures this.files == files && this.refused == refused
    {
      this.files := files;
      this.refused := refused;
    }

    /** `Path.exists()`. */
    function Exists(name: string): bool
      reads this
    {
      name in files
    }

    /** `os.rename(src, dst)` / `Path.rename(dst)` on a POSIX system: one
        atomic move that replaces `dst` if present; on failure it raises,
        which is returned here as the error text. */
    method Rename(src: string, dst: string) returns (error: Option<string>)
      modifies this
      ensures src !in old(files) ==> error == Some(NoSuchFile(src, dst)) && files == old(files)
      ensures src in old(files) && src in refused ==> error == Some(refused[src]) && files == old(files)
      ensures src in old(files) && src !in refused ==> error == None && files == old(files) - {src} + {dst}
    {
      if src !in files {
        error := Some(NoSuchFile(src, dst));
      } else if src in refused {
        error := Some(refused[src]);
      } else {
        files := files - {src} + {dst};
        error := None;
      }
    }
  }
}
