/** The manual mode: `rename_zip_to_apk(file_paths)`, defined at the top
    level of zip_to_apk.py and, with the same text, inside `run_gui` in
    fixpipeline.py. Each chosen path is checked, given a free `.apk` name
    and renamed; the outcomes are split into successes and failures. */
module Batch {
  import opened Text
  import opened PurePaths
  import opened FileSystem
  import opened Naming

  const FileNotFound: string := "File not found"
  const NotAZip: string := "Not a .zip file"

  /** The batch reaches `path` with the directory holding `files` and its
      destination loop never ends: `while dst.exists()` spins forever. */
  predicate StartsHang(files: set<string>, path: string)
  {
    path in files && IsZip(path) && Hangs(files, Stem(path))
  }

  /** The paths that name a directory rather than an entry of it: "" and
      "." are the directory itself, ".." its parent. Each exists and has no
      suffix. */
  predicate IsDirectoryPath(path: string)
  {
    path == "" || path == "." || path == ".."
  }

  /** A path naming a directory has no suffix, so it is never a `.zip` path. */
  lemma DirectoryPathNoSuffix(path: string)
    ensures IsDirectoryPath(path) ==> Suffix(path) == [] && !IsZip(path)
  {
    if IsDirectoryPath(path) {
      assert Suffix(path) == [];
      assert Lower([]) == [];
    }
  }

  /** `Path(path).exists()` for a bare name. */
  predicate Present(files: set<string>, path: string)
  {
    IsDirectoryPath(path) || path in files
  }

  /** One pass of the loop body for `path`, from `files` to `files'`,
      recording `o`: the existence check first, then the suffix check,
      then the destination, which is try `n` for the first free `n`, and
      one rename. (A free try exists only when the loop does not hang:
      see `FirstFreeNoHang`.) */
  predicate BatchStep(files: set<string>, refused: map<string, string>, path: string,
                      n: nat, o: Outcome, files': set<string>)
  {
    if !Present(files, path) then o == Skipped(path, FileNotFound) && files' == files
    else if !IsZip(path) then o == Skipped(path, NotAZip) && files' == files
    else
      && BatchFirstFree(files, Stem(path), n)
      && RenameEffect(files, refused, path, BatchTry(Stem(path), n), o, files')
  }

  /** "", "." and ".." name a directory: it exists and has no suffix, so
      the path is skipped as not a `.zip` file and nothing changes. */
  lemma DirectoryPathNotAZip(files: set<string>, refused: map<string, string>, path: string, n: nat,
                             o: Outcome, files': set<string>)
    requires IsDirectoryPath(path)
    requires BatchStep(files, refused, path, n, o, files')
    ensures o == Skipped(path, NotAZip) && files' == files
  {
  }

  /** The destination loop: `base.with_suffix(".apk")`, then
      `base.with_name(f"{base.name}({counter})").with_suffix(".apk")` while
      the name exists. `collisions` counts the names found taken, so the
      source's `counter` is `collisions + 1`. Where the source loops
      forever, `hung` is set and the loop is not entered. */
  method BatchDestination(dir: Directory, base: string) returns (dst: string, collisions: nat, hung: bool)
    requires base != []
    ensures hung <==> Hangs(dir.files, base)
    ensures !hung ==> BatchFirstFree(dir.files, base, collisions) && dst == BatchTry(base, collisions)
  {
    dst := WithSuffix(base, ".apk");
    collisions := 0;
    hung := Hangs(dir.files, base);
    if hung {
      return;
    }
    while dir.Exists(dst)
      invariant collisions <= |dir.files|
      invariant dst == BatchTry(base, collisions)
      invariant forall j :: 0 <= j < collisions ==> BatchTry(base, j) in dir.files
      decreases |dir.files| - collisions
    {
      BatchTakenExtend(dir.files, base, collisions);
      if HasInnerDot(base) {
        if collisions >= 1 {
          assert false;
        }
        assert dst in dir.files;
      } else {
        forall j | 0 <= j < collisions + 1 ensures Tagged(base, j) in dir.files {
          BatchTryUndotted(base, j);
        }
        TaggedBound(dir.files, base, collisions + 1);
      }
      collisions := collisions + 1;
      dst := WithSuffix(base + CounterTag(collisions), ".apk");
    }
  }

  /** The body of the loop over `file_paths` for one path, including its
      `except` clause. When `hung` is set the source never gets past the
      destination loop, so `outcome` is a placeholder that no caller keeps:
      `RenameZipToApk` stops without recording it. */
  method RenameOne(dir: Directory, path: string) returns (outcome: Outcome, collisions: nat, hung: bool)
    modifies dir
    ensures hung ==> StartsHang(old(dir.files), path) && dir.files == old(dir.files)
    ensures !hung ==> BatchStep(old(dir.files), dir.refused, path, collisions, outcome, dir.files)
  {
    hung, collisions := false, 0;
    if !Present(dir.files, path) {
      outcome := Skipped(path, FileNotFound);
      return;
    }
    if Lower(Suffix(path)) != ".zip" {
      outcome := Skipped(path, NotAZip);
      return;
    }
    DirectoryPathNoSuffix(path);
    var base := WithSuffix(path, "");
    assert base == Stem(path);
    var dst;
    dst, collisions, hung := BatchDestination(dir, base);
    if hung {
      outcome := Skipped(path, "");
      return;
    }
    ghost var before := dir.files;
    var error := dir.Rename(path, dst);
    if error.None? {
      outcome := Renamed(path, dst);
    } else {
      outcome := Skipped(path, error.value);
    }
    assert BatchFirstFree(before, base, collisions);
    assert RenameEffect(before, dir.refused, path, BatchTry(base, collisions), outcome, dir.files);
  }

  /** One pass of the loop, as a record: the directory before and after
      it, the path, the number of taken names passed over and the outcome. */
  datatype Step = Step(before: set<string>, path: string, tries: nat, outcome: Outcome, after: set<string>)

  /** The record describes what the loop body does. */
  predicate StepOk(refused: map<string, string>, s: Step)
  {
    BatchStep(s.before, refused, s.path, s.tries, s.outcome, s.after)
  }

  /** The steps of a run follow each other, from the directory `start` to `end`. */
  predicate Chained(start: set<string>, run: seq<Step>, end: set<string>)
  {
    if run == [] then end == start
    else
      && run[0].before == start
      && run[|run| - 1].after == end
      && forall k :: 0 < k < |run| ==> run[k].before == run[k - 1].after
  }

  /** The `(str(src), str(dst))` pairs of the renamed entries, in order. */
  function RenamedPairs(run: seq<Step>): seq<(string, string)>
  {
    if run == [] then []
    else
      RenamedPairs(run[..|run| - 1]) +
      match run[|run| - 1].outcome
      case Renamed(src, dst) => [(src, dst)]
      case Skipped(_, _) => []
  }

  /** The `(file_path, reason)` pairs of the skipped entries, in order. */
  function SkippedPairs(run: seq<Step>): seq<(string, string)>
  {
    if run == [] then []
    else
      SkippedPairs(run[..|run| - 1]) +
      match run[|run| - 1].outcome
      case Renamed(_, _) => []
      case Skipped(src, reason) => [(src, reason)]
  }

  /** Every outcome lands in exactly one of the two lists. */
  lemma {:induction false} PairsPartition(run: seq<Step>)
    ensures |RenamedPairs(run)| + |SkippedPairs(run)| == |run|
  {
    if run != [] {
      PairsPartition(run[..|run| - 1]);
    }
  }

  /** A step never overwrites: the directory keeps its number of entries,
      and a rename moves the source to a name that was free. */
  lemma BatchStepMovesOneName(files: set<string>, refused: map<string, string>, path: string,
                              n: nat, o: Outcome, files': set<string>)
    requires BatchStep(files, refused, path, n, o, files')
    ensures o.src == path
    ensures o.Skipped? ==> files' == files
    ensures o.Renamed? ==>
      && path in files && path !in files'
      && o.dst !in files && o.dst in files'
      && |files'| == |files|
      && forall x :: x != path && x != o.dst ==> (x in files' <==> x in files)
  {
  }

  /** Along a chained run of valid steps every outcome belongs to its own
      step's path and the directory never gains or loses an entry: nothing
      is overwritten. */
  lemma {:induction false} RunKeepsCount(refused: map<string, string>, start: set<string>, run: seq<Step>,
                                         end: set<string>)
    requires Chained(start, run, end)
    requires forall k :: 0 <= k < |run| ==> StepOk(refused, run[k])
    ensures |end| == |start|
    ensures forall i :: 0 <= i < |run| ==> run[i].outcome.src == run[i].path
    decreases |run|
  {
    if run != [] {
      var m := |run| - 1;
      var s := run[m];
      var mid := if m == 0 then start else run[m - 1].after;
      assert Chained(start, run[..m], mid);
      RunKeepsCount(refused, start, run[..m], mid);
      BatchStepMovesOneName(s.before, refused, s.path, s.tries, s.outcome, s.after);
    }
  }

  /** A valid step for the next path, starting where the run ends,
      extends the run. */
  lemma RunSnoc(refused: map<string, string>, paths: seq<string>, start: set<string>, run: seq<Step>, s: Step)
    requires |run| < |paths|
    requires forall k :: 0 <= k < |run| ==> run[k].path == paths[k] && StepOk(refused, run[k])
    requires Chained(start, run, s.before)
    requires s.path == paths[|run|] && StepOk(refused, s)
    ensures forall k :: 0 <= k < |run| + 1 ==> (run + [s])[k].path == paths[k] && StepOk(refused, (run + [s])[k])
    ensures Chained(start, run + [s], s.after)
  {
    assert forall k :: 0 <= k < |run| ==> (run + [s])[k] == run[k];
  }

  /** A renamed entry adds one success and no failure. */
  lemma PairsRenamed(run: seq<Step>, s: Step)
    requires s.outcome.Renamed?
    ensures RenamedPairs(run + [s]) == RenamedPairs(run) + [(s.outcome.src, s.outcome.dst)]
    ensures SkippedPairs(run + [s]) == SkippedPairs(run)
  {
    assert (run + [s])[..|run|] == run;
  }

  /** A skipped entry adds one failure and no success. */
  lemma PairsSkipped(run: seq<Step>, s: Step)
    requires s.outcome.Skipped?
    ensures RenamedPairs(run + [s]) == RenamedPairs(run)
    ensures SkippedPairs(run + [s]) == SkippedPairs(run) + [(s.outcome.src, s.outcome.reason)]
  {
    assert (run + [s])[..|run|] == run;
  }

  /** The first numbered try ends in "(1).apk". */
  lemma FirstCounterTag()
    ensures CounterTag(1) + ".apk" == "(1).apk"
  {
    assert Decimal(1) == "1";
  }

  /** The release download on its own becomes "app-production-release.apk";
      a second download of the same name, arriving after the first was
      renamed, becomes "app-production-release(1).apk" and leaves the first
      result in place. */
  lemma ReleaseScenario()
    ensures var base := "app-production-release";
      var zip := base + ".zip";
      && IsZip(zip) && Stem(zip) == base
      && BatchFirstFree({zip}, base, 0)
      && BatchTry(base, 0) == base + ".apk"
      && BatchFirstFree({zip, base + ".apk"}, base, 1)
      && BatchTry(base, 1) == base + "(1).apk"
  {
    var base := "app-production-release";
    var zip := base + ".zip";
    ReleaseNames();
    BatchTryUndotted(base, 0);
    BatchTryUndotted(base, 1);
    FirstCounterTag();
    assert (base + ".apk")[|base| + 1] != zip[|base| + 1];
    assert |base + "(1).apk"| != |zip|;
  }

  /** The release download is a ".zip" whose stem holds no dot. */
  lemma ReleaseNames()
    ensures var base := "app-production-release";
      && IsZip(base + ".zip") && Stem(base + ".zip") == base
      && base != [] && !HasInnerDot(base)
  {
    var base := "app-production-release";
    SimpleSuffixRoundTrip(base, ".zip");
    LowerZip();
    assert DotFree(base);
    LastDotAppend([], base);
    assert [] + base == base;
  }

  /** The endless loop in practice: with "a.apk" present, "a.b.zip" has
      base "a.b", whose plain try and every numbered try are "a.apk". */
  lemma DottedNameHangs()
    ensures StartsHang({"a.b.zip", "a.apk"}, "a.b.zip")
  {
    var zip, base := "a.b.zip", "a.b";
    assert zip == base + ".zip";
    SimpleSuffixRoundTrip(base, ".zip");
    LowerZip();
    assert base[1] == '.';
    assert HasInnerDot(base);
    assert LastDot(base) == 1 by {
      LastDotIsLast(base);
    }
    BatchTryDotted(base, 1);
    assert base[..1] == "a";
    assert Stem(base) == "a";
    assert "a" + ".apk" == "a.apk";
    assert BatchTry(base, 0) == "a.apk" && BatchTry(base, 1) == "a.apk";
  }

  /** `rename_zip_to_apk(file_paths)`. `run[i]` records the pass over
      `paths[i]`. When `hung` is set the source would loop forever on
      `paths[|run|]` and never return; the paths before it have been
      processed. */
  method RenameZipToApk(dir: Directory, paths: seq<string>)
    returns (successes: seq<(string, string)>, failures: seq<(string, string)>, hung: bool,
             ghost run: seq<Step>)
    modifies dir
    ensures |run| <= |paths|
    ensures forall i :: 0 <= i < |run| ==> run[i].path == paths[i] && StepOk(dir.refused, run[i])
    ensures Chained(old(dir.files), run, dir.files)
    ensures !hung <==> |run| == |paths|
    ensures hung ==> StartsHang(dir.files, paths[|run|])
    ensures successes == RenamedPairs(run) && failures == SkippedPairs(run)
    ensures |successes| + |failures| == |run|
  {
    successes, failures, hung := [], [], false;
    run := [];
    var i := 0;
    while i < |paths|
      invariant 0 <= i <= |paths| && |run| == i
      invariant forall k :: 0 <= k < i ==> run[k].path == paths[k] && StepOk(dir.refused, run[k])
      invariant Chained(old(dir.files), run, dir.files)
      invariant successes == RenamedPairs(run) && failures == SkippedPairs(run)
    {
      ghost var before := dir.files;
      var outcome, collisions, stuck := RenameOne(dir, paths[i]);
      if stuck {
        hung := true;
        break;
      }
      ghost var step := Step(before, paths[i], collisions, outcome, dir.files);
      RunSnoc(dir.refused, paths, old(dir.files), run, step);
      match outcome {
        case Renamed(src, dst) =>
          PairsRenamed(run, step);
          successes := successes + [(src, dst)];
        case Skipped(src, reason) =>
          PairsSkipped(run, step);
          failures := failures + [(src, reason)];
      }
      run := run + [step];
      i := i + 1;
    }
    PairsPartition(run);
  }
}
