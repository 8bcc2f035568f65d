/** The automatic mode of fixpipeline.py: `FixPipelineHandler`, which
    receives file-creation events for the watched folder and renames a
    matching `.zip` download to a free `.apk` name. */
module Watcher {
  import opened Wrappers
  import opened Text
  import opened PurePaths
  import opened FileSystem
  import opened Naming
  import opened Config

  /** One target against one file name, both lower-cased:
      `target in filename or filename.replace('.zip', '') in target`. */
  predicate MatchesOne(filename: string, target: string)
  {
    Contains(filename, target) || Contains(target, RemoveAll(filename, ".zip"))
  }

  /** The file name matches some configured target, ignoring case. */
  predicate IsTarget(name: string, targets: seq<string>)
  {
    exists i :: 0 <= i < |targets| && MatchesOne(Lower(name), Lower(targets[i]))
  }

  /** A download named after a fragment of a target is recognised: the
      target's own stem ("app-production-release.zip" for
      "app-production-release.apk"), but equally any shorter piece of it.
      The name must not hold ".zip" anywhere but at its end. */
  lemma FragmentOfTargetMatches(stem: string, targets: seq<string>, t: int)
    requires 0 <= t < |targets|
    requires Contains(Lower(targets[t]), Lower(stem))
    requires forall i :: 0 <= i < |stem| ==> !OccursAt(Lower(stem) + ".zip", ".zip", i)
    ensures IsTarget(stem + ".zip", targets)
  {
    LowerAppend(stem, ".zip");
    LowerAt(stem);
    LowerZip();
    RemoveAllTrailing(Lower(stem), ".zip");
    assert MatchesOne(Lower(stem + ".zip"), Lower(targets[t]));
  }

  /** The loose match in practice: "p.zip" is taken for a build of every
      default target, because "p" occurs in "app-production-release.apk". */
  lemma StrayNameMatchesDefaults()
    ensures IsTarget("p.zip", DefaultTargets)
  {
    var t := DefaultTargets[0];
    var target := Lower(t);
    LowerAt(t);
    assert t[1] == 'p';
    assert target[1] == 'p';
    assert target[1..2] == "p";
    assert Lower("p") == "p" by {
      LowerAt("p");
    }
    assert OccursAt(target, "p", 1);
    var name := "p" + ".zip";
    assert name[0] == 'p';
    assert !OccursAt(name, ".zip", 0);
    FragmentOfTargetMatches("p", DefaultTargets, 0);
    assert name == "p.zip";
  }

  /** A desktop notification, as handed to `show_notification`. */
  datatype Notice = Notice(title: string, message: string)

  /** The notification `fix_apk_file` shows for an outcome. */
  function FixNotice(o: Outcome): Notice
  {
    match o
    case Renamed(src, dst) => Notice("FixPipeline - APK Fixed!", "Converted " + src + " to " + dst)
    case Skipped(src, reason) => Notice("FixPipeline - Error", "Could not convert " + src + ": " + reason)
  }

  /** `str(e)` of the ValueError `with_suffix` raises for the empty path. */
  const EmptyNameError: string := "PosixPath('.') has an empty name"

  /** What `fix_apk_file` does to the directory: the first free name among
      `stem.apk`, `stem(1).apk`, ... is chosen, then one rename is tried. */
  ghost predicate WatchFixed(files: set<string>, refused: map<string, string>, name: string,
                             o: Outcome, files': set<string>)
  {
    if name == [] then o == Skipped(name, EmptyNameError) && files' == files
    else exists n: nat :: WatchFirstFree(files, name, n) && RenameEffect(files, refused, name, WatchTry(name, n), o, files')
  }

  /** The destination loop of `fix_apk_file`: `with_suffix('.apk')`, then
      `stem(1).apk`, `stem(2).apk`, ... until a name is free. `collisions`
      counts the names found taken, so the source's `counter` is
      `collisions + 1`. */
  method WatchDestination(dir: Directory, name: string) returns (dst: string, collisions: nat)
    requires name != []
    ensures WatchFirstFree(dir.files, name, collisions)
    ensures dst == WatchTry(name, collisions)
  {
    dst := WithSuffix(name, ".apk");
    collisions := 0;
    while dir.Exists(dst)
      invariant collisions <= |dir.files|
      invariant dst == WatchTry(name, collisions)
      invariant forall j :: 0 <= j < collisions ==> WatchTry(name, j) in dir.files
      decreases |dir.files| - collisions
    {
      WatchTakenExtend(dir.files, name, collisions);
      WatchBound(dir.files, name, collisions + 1);
      collisions := collisions + 1;
      var stem := Stem(name);
      dst := stem + CounterTag(collisions) + ".apk";
    }
  }

  /** A successful watcher rename moves exactly one name to a name that
      was free, so nothing is overwritten and no other entry changes. */
  lemma WatchFixedMovesOneName(files: set<string>, refused: map<string, string>, name: string,
                               o: Outcome, files': set<string>)
    requires WatchFixed(files, refused, name, o, files')
    ensures o.src == name
    ensures o.Skipped? ==> files' == files
    ensures o.Renamed? ==>
      && name in files && name !in files'
      && o.dst !in files && o.dst in files'
      && |files'| == |files|
      && forall x :: x != name && x != o.dst ==> (x in files' <==> x in files)
  {
    if name != [] {
      var n: nat :| WatchFirstFree(files, name, n) && RenameEffect(files, refused, name, WatchTry(name, n), o, files');
    }
  }

  class FixPipelineHandler {
    var config: Document
    /** Destinations of the renames done so far (recorded, never consulted). */
    var processedFiles: set<string>
    var isPaused: bool
    /** Notifications shown so far, oldest first. */
    var notices: seq<Notice>
    /** The watched folder. */
    const dir: Directory

    constructor (config: Document, dir: Directory)
      ensures this.config == config && this.dir == dir
      ensures processedFiles == {} && !isPaused && notices == []
    {
      this.config := config;
      this.dir := dir;
      processedFiles := {};
      isPaused := false;
      notices := [];
    }

    method Pause()
      modifies this
      ensures isPaused
      ensures config == old(config) && processedFiles == old(processedFiles) && notices == old(notices)
    {
      isPaused := true;
    }

    method Resume()
      modifies this
      ensures !isPaused
      ensures config == old(config) && processedFiles == old(processedFiles) && notices == old(notices)
    {
      isPaused := false;
    }

    /** The configured target names, `config['target_files']`. */
    function Targets(): seq<string>
      reads this
      requires HasTargetList(config)
    {
      config["target_files"].items
    }

    /** `is_target_apk`: scan the lower-cased targets, stopping at the first match. */
    method IsTargetApk(name: string) returns (r: bool)
      requires HasTargetList(config)
      ensures r == IsTarget(name, Targets())
    {
      var filename := Lower(name);
      var targets := Targets();
      var lowered := seq(|targets|, i requires 0 <= i < |targets| => Lower(targets[i]));
      var i := 0;
      while i < |lowered|
        invariant 0 <= i <= |lowered|
        invariant forall j :: 0 <= j < i ==> !MatchesOne(filename, lowered[j])
      {
        var target := lowered[i];
        if Contains(filename, target) || Contains(target, RemoveAll(filename, ".zip")) {
          return true;
        }
        i := i + 1;
      }
      assert forall j :: 0 <= j < |targets| ==> !MatchesOne(filename, Lower(targets[j])) by {
        forall j | 0 <= j < |targets| ensures !MatchesOne(filename, Lower(targets[j])) {
          assert lowered[j] == Lower(targets[j]);
        }
      }
      return false;
    }

    /** What a call of `fix_apk_file(name)` leaves behind, given the
        directory, processed set and notices before it. */
    ghost predicate FixedFrom(files: set<string>, processed: set<string>, shown: seq<Notice>,
                              name: string, o: Outcome)
      reads this, dir
    {
      && WatchFixed(files, dir.refused, name, o, dir.files)
      && processedFiles == (if o.Renamed? then processed + {o.dst} else processed)
      && notices == shown + (if NotificationsOn(config) then [FixNotice(o)] else [])
    }

    /** `fix_apk_file`: pick a free `.apk` name, rename, record and notify;
        every exception is caught and reported as a notification. */
    method FixApkFile(name: string) returns (ghost outcome: Outcome)
      modifies this, dir
      ensures config == old(config) && isPaused == old(isPaused)
      ensures FixedFrom(old(dir.files), old(processedFiles), old(notices), name, outcome)
    {
      var result: Outcome;
      if name == [] {
        result := Skipped(name, EmptyNameError);
      } else {
        var dst, collisions := WatchDestination(dir, name);
        ghost var before := dir.files;
        var error := dir.Rename(name, dst);
        if error.None? {
          result := Renamed(name, dst);
        } else {
          result := Skipped(name, error.value);
        }
        assert RenameEffect(before, dir.refused, name, WatchTry(name, collisions), result, dir.files);
        assert WatchFixed(before, dir.refused, name, result, dir.files);
        if error.None? {
          processedFiles := processedFiles + {dst};
        }
      }
      if NotificationsOn(config) {
        notices := notices + [FixNotice(result)];
      }
      outcome := result;
    }

    /** The event is acted on: not paused, not a directory, a `.zip`
        name (any case) that still exists and matches a target. */
    ghost predicate Acts(paused: bool, isDirectory: bool, name: string, files: set<string>)
      reads this
      requires HasTargetList(config)
    {
      !paused && !isDirectory && IsZip(name) && name in files && IsTarget(name, Targets())
    }

    /** `on_created` for an event on `name`; the two-second settle delay is
        not modelled. */
    method OnCreated(name: string, isDirectory: bool) returns (ghost outcome: Option<Outcome>)
      requires HasTargetList(config)
      modifies this, dir
      ensures config == old(config) && isPaused == old(isPaused)
      ensures outcome.Some? <==> Acts(old(isPaused), isDirectory, name, old(dir.files))
      ensures outcome.None? ==>
        dir.files == old(dir.files) && processedFiles == old(processedFiles) && notices == old(notices)
      ensures outcome.Some? ==> FixedFrom(old(dir.files), old(processedFiles), old(notices), name, outcome.value)
    {
      outcome := None;
      if isPaused || isDirectory {
        return;
      }
      if Lower(Suffix(name)) != ".zip" {
        return;
      }
      if !dir.Exists(name) {
        return;
      }
      var matches := IsTargetApk(name);
      if matches {
        var o := FixApkFile(name);
        outcome := Some(o);
      }
    }
  }
}
