# FixPipeline: the zip-to-apk rename resolver

FixPipeline turns CI downloads that arrive as `.zip` files back into `.apk`
files. It renames them in place. It has two entry points, and this project
models the logic the two share in Dafny:

- **The automatic watcher** (`FixPipelineHandler` in fixpipeline.py).
  - It ignores events while paused and events for directories.
  - It keeps only names whose lower-cased suffix is `.zip`.
  - It matches the name loosely against the configured target names.
  - It picks the first free name among `stem.apk`, `stem(1).apk`,
    `stem(2).apk`, ..., and renames once.
  - It records the destination and shows a notification.
- **The manual batch renamer** (`rename_zip_to_apk`). It exists twice with
  the same text: at the top level of zip_to_apk.py and inside `run_gui` in
  fixpipeline.py.
  - Each chosen path is checked for existence, then for the `.zip` suffix.
  - The path then gets a free `.apk` name and is renamed.
  - Every outcome lands, in order, in `successes` or in `failures`.
  - The report built from the two lists is modelled as well
    (`pick_and_rename`).

The model works on one directory, `FileSystem.Directory`. It holds the set
of names present. A map lists the names whose rename the operating system
refuses, each with the error text raised; this stands in for the exceptions
the source catches.

File names follow POSIX `pathlib` as CPython 3.12 and earlier define it (module
`PurePaths`):
- The suffix starts at the last dot, unless that dot is the first or the
  last character of the name.
- `with_suffix` refuses an empty name, and a suffix that holds '/' or is
  neither empty nor a dot followed by at least one character.

The two collision loops differ (module `Naming`):
- **The watcher** builds `stem + "(n)" + ".apk"` from the string. These
  names are pairwise distinct (`TaggedInjective`), so the loop ends after at
  most `|files|` collisions (`TaggedBound`).
- **The batch renamer** builds `base(n)` and then calls
  `with_suffix(".apk")`.
  - For a base without an inner dot, this gives the same names as the
    watcher (`BatchTryUndotted`).
  - For a base with an inner dot, `with_suffix` cuts the name at that dot,
    so every numbered try is the same name (`BatchTryDotted`).
  - If that name and the plain try are both taken, the source's
    `while dst.exists()` never ends (`HangsForever`). `DottedNameHangs` shows
    this for `a.b.zip` next to `a.apk`.
  - The model does not change that behaviour. In that case the batch method
    stops and reports `hung`, with the paths before it already processed.

## Model

| member | source | states |
|---|---|---|
| Config.DefaultConfig | fixpipeline.py:34-43 | the default document has exactly the keys watch_dir, notifications and target_files, with notifications on and the four release/debug targets |
| Config.Merge | fixpipeline.py:149 | `{**defaults, **loaded}`: the keys are the union, every loaded key keeps the loaded value, every other default key keeps its default |
| Config.LoadConfig | fixpipeline.py:143-152 | without a readable file the defaults are returned unchanged; with one, loaded values override defaults key by key and the three default keys are always present |
| FileSystem.Directory.Rename | zip_to_apk.py:49 | a missing source raises the "No such file or directory" error, a refused rename raises its error, and both leave the directory unchanged; otherwise the source name is replaced by the destination name |
| Watcher.FixPipelineHandler.constructor | fixpipeline.py:48-51 | a new handler keeps the config, has processed nothing, is not paused and has shown no notification |
| Watcher.FixPipelineHandler.Pause | fixpipeline.py:53-54 | sets the paused flag and changes neither the config, the processed set nor the notifications |
| Watcher.FixPipelineHandler.Resume | fixpipeline.py:56-57 | clears the paused flag and changes nothing else |
| Watcher.FixPipelineHandler.IsTargetApk | fixpipeline.py:77-86 | true exactly when, for some target (both lower-cased), the target occurs in the name or the name with every ".zip" removed occurs in the target |
| Watcher.FragmentOfTargetMatches | fixpipeline.py:84 | any `stem.zip` whose lower-cased stem occurs in a lower-cased target and holds no ".zip" of its own is accepted, so the test is looser than an exact match |
| Watcher.StrayNameMatchesDefaults | fixpipeline.py:84 | "p.zip" matches the default targets, because "p" occurs in "app-production-release.apk" |
| Naming.WatchTry | fixpipeline.py:92-98 | the n-th name the watcher tries is `stem.apk` for n = 0 and `stem(n).apk` after that, built from the pathlib stem |
| Naming.TaggedInjective | fixpipeline.py:97-98 | different counters give different candidate names |
| Naming.TaggedBound | fixpipeline.py:95-99 | if the first n candidates are all taken, the directory holds at least n names, which bounds the collision loop |
| Watcher.WatchDestination | fixpipeline.py:92-99 | the loop ends, and the name it returns is the first free candidate: all earlier candidates exist and the returned one does not |
| Watcher.WatchFixedMovesOneName | fixpipeline.py:102-112 | a successful fix removes the source, adds a destination that was absent before, keeps the number of entries and changes no other name; a failed one changes nothing |
| Watcher.FixPipelineHandler.FixApkFile | fixpipeline.py:88-120 | the destination is the first free candidate; it is added to the processed set only on success; exactly one notification, success or error, is appended when notifications are on; no error escapes |
| Watcher.FixPipelineHandler.OnCreated | fixpipeline.py:59-75 | the handler acts exactly when it is not paused, the event is not for a directory, the name's lower-cased suffix is ".zip", the file still exists and it matches a target; otherwise the directory, processed set and notifications are unchanged |
| Batch.BatchDestination | zip_to_apk.py:40-47 | reports a hang exactly when the source loop would spin forever; otherwise the name returned is the first free try and all earlier tries exist |
| Naming.BatchTryUndotted | zip_to_apk.py:40-46 | for a base without an inner dot the batch tries `base.apk`, `base(1).apk`, ... exactly like the watcher |
| Naming.BatchTryDotted | zip_to_apk.py:46 | for a base with an inner dot every numbered try is the base cut at its last dot plus ".apk" |
| Naming.DottedTriesCoincide | zip_to_apk.py:45-47 | for such a base all numbered tries are the same name |
| Naming.HangsForever | zip_to_apk.py:45-47 | when the plain try and the first numbered try of a dotted base are taken, every try is taken, so the loop never exits |
| Naming.FirstFreeNoHang | fixpipeline.py:331-333 | a first free try exists only when the loop does not hang |
| Batch.DottedNameHangs | zip_to_apk.py:40-47 | "a.b.zip" in a directory that holds "a.apk" makes the loop spin forever |
| Batch.RenameOne | zip_to_apk.py:30-52 | a missing path gives "File not found" and an existing non-".zip" path gives "Not a .zip file", both without touching the directory; otherwise the first free try is the destination of one rename; a hang is reported only where the source would hang |
| Batch.DirectoryPathNotAZip | zip_to_apk.py:31-38 | the paths "", "." and "..", which name the current directory or its parent, exist and have no suffix, so each is recorded as "Not a .zip file" and the directory is unchanged |
| Batch.DirectoryPathNoSuffix | zip_to_apk.py:36 | "", "." and ".." have an empty suffix, so none of them passes the ".zip" test |
| Batch.BatchStepMovesOneName | zip_to_apk.py:49-50 | every outcome belongs to its path; a skipped path leaves the directory unchanged; a renamed one removes the source, adds a destination that was absent before, and changes no other name |
| Batch.RenameZipToApk | zip_to_apk.py:24-54 | every processed path, in order, is one loop pass; each pass starts where the previous one ended; successes and failures are exactly the renamed and skipped outcomes in input order; without a hang every path is processed (the copy at fixpipeline.py:310-340 has the same text) |
| Batch.PairsPartition | zip_to_apk.py:50-52 | every outcome goes to exactly one of the two lists, so their lengths add up to the number of paths processed |
| Batch.RunKeepsCount | zip_to_apk.py:29-52 | over a whole batch the directory keeps its number of entries, and each outcome names its own input path |
| Batch.ReleaseScenario | zip_to_apk.py:40-47 | "app-production-release.zip" becomes "app-production-release.apk", and a second copy arriving after it becomes "app-production-release(1).apk" |
| Report.BuildReport | zip_to_apk.py:67-81 | the lines built step by step are `Report.Lines`: the "Renamed:" section, a blank line only between two non-empty sections, the "Skipped/Failed:" section, or the placeholder; each entry shows `Path(x).name`, which is empty for "." (the copy at fixpipeline.py:353-366 differs only in its tick, cross and dash characters) |
| Report.ReportPlaceholder | zip_to_apk.py:80-81 | the report is exactly ["No files processed."] if and only if both lists are empty |
| Report.ReportLength | zip_to_apk.py:68-78 | a non-empty report has one header per non-empty list, one line per entry, and one separator when both lists are non-empty, and nothing else |
| Report.ReportSuccessLines | zip_to_apk.py:69-72 | with successes, the report starts with "Renamed:" followed by one line per success in input order |
| Report.ReportFailureLines | zip_to_apk.py:73-78 | with failures, the report ends with "Skipped/Failed:" and one line per failure in input order, after a blank line if there were successes |
| Report.LineKind | zip_to_apk.py:68-81 | every line is a header of a non-empty list, the separator between two non-empty lists, the placeholder of an empty report, or an entry line starting with a space |
| Report.ReportHeaders | zip_to_apk.py:69-76 | "Renamed:" appears iff there are successes, "Skipped/Failed:" iff there are failures, and the blank line iff there are both |
| PurePaths.LastDotIsLast | zip_to_apk.py:36 | no dot follows the dot that `rfind` finds |
| PurePaths.SuffixShape | zip_to_apk.py:36 | a suffix is a final dot and at least one non-dot character, never the whole name; there is none when the name's only dots are its first or last character |
| PurePaths.StemSuffixSplit | fixpipeline.py:97 | the stem followed by the suffix is the name, and only the empty name has an empty stem |
| PurePaths.WithSuffix | zip_to_apk.py:40-41 | for a non-empty name and a suffix pathlib accepts (no '/', empty or a dot and at least one more character), `with_suffix(s)` is the stem followed by `s` |
| PurePaths.WithSuffixRoundTrip | zip_to_apk.py:41 | after `with_suffix(".apk")` the suffix is ".apk" and the stem is unchanged |
| PurePaths.SimpleSuffixRoundTrip | zip_to_apk.py:36-40 | a non-empty stem plus a one-dot suffix splits back into exactly those two parts |
| PurePaths.LastDotAppend | zip_to_apk.py:46 | appending text without a dot, such as "(n)", does not move the last dot |
| Text.RemoveAll | fixpipeline.py:84 | `replace(pat, "")` never lengthens the string and is the identity when `pat` does not occur |
| Text.RemoveAllTrailing | fixpipeline.py:84 | deleting ".zip" from a name whose only occurrence is at its end gives back the stem |
| Text.DecimalValue | zip_to_apk.py:46 | the decimal text of the counter reads back as the counter |
| Text.DecimalInjective | fixpipeline.py:98 | different counters have different decimal texts |
| Text.DecimalNoLeadingZero | zip_to_apk.py:46 | the decimal text of a counter never starts with '0' unless the counter is 0 |

## Left out

- The tray application, its menu and icon drawing, and all tkinter windows, dialogs and message boxes. The model stops at the list of report lines; `"\n".join` and the window title are left out.
- The batch is given its list of paths. The file dialog and the early return for an empty selection are not part of this model.
- Notification delivery through plyer, its timeout and its own caught failure. A notification is kept only as a title/message pair appended to `notices`.
- The console `print` lines, the watchdog `Observer` thread, start/stop/toggle of monitoring, and the two-second settle delay in `on_created`.
- The psutil already-running scan, the argparse command line, the pip install fallback and the package metadata.
- Reading and writing the JSON configuration file. Only the merge of a loaded document over the defaults is modelled.
- Races between the existence checks and the rename. The directory is single-threaded, so a missing-source error cannot happen after the existence check.
- Paths with directories. Every path is a bare name (no '/') in one directory. "", "." and ".." name the directory itself or its parent: the batch finds them present and not `.zip` files (`Batch.DirectoryPathNotAZip`), and the report shows `Path(x).name`, which is "" for "." and the name itself otherwise.
- Watcher.FixPipelineHandler.OnCreated: requires `target_files` to be a list of strings, and only that shape is modelled. In the source a JSON string would make its characters the targets and a JSON object its keys, and any other shape (a number, a boolean, null, a list holding non-strings) raises outside any `except`, which ends the event callback.
- Watcher.FixPipelineHandler.IsTargetApk: carries the same requirement that `target_files` is a list of strings, for the same reason.
- Text.Lower: only ASCII letters are lower-cased. Python's full Unicode case mapping is not modelled.
- Batch.RenameZipToApk: where the source loops forever, the model stops and sets `hung` instead of never returning.
- Batch.BatchDestination: decides the hang before entering the loop, rather than spinning.
- Watcher.FixPipelineHandler.FixApkFile: the outcome it reports is ghost, because the source returns nothing. The empty name, whose `with_suffix` raises, is kept as an error notification even though `on_created` never passes it.
- The processed set is written by `fix_apk_file` but never read by the source, so no property depends on it beyond how it is updated.
