/** The summary `pick_and_rename` shows after a batch: a "Renamed:"
    section, a "Skipped/Failed:" section, or a placeholder line. The
    message box itself is not modelled, only the list of lines handed to
    `"\n".join`. */
module Report {

  /** The glyphs of the two copies of the report: zip_to_apk.py uses
      U+2713, U+2717 and U+2014; the copy in fixpipeline.py holds those
      characters' UTF-8 bytes read as Mac Roman, three characters each. */
  datatype Marks = Marks(tick: string, cross: string, dash: string)

  const ZipToApkMarks: Marks := Marks("\U{2713}", "\U{2717}", "\U{2014}")
  const FixPipelineMarks: Marks :=
    Marks("\U{201A}\U{00FA}\U{00EC}", "\U{201A}\U{00FA}\U{00F3}", "\U{201A}\U{00C4}\U{00EE}")

  const RenamedHeader: string := "Renamed:"
  const FailedHeader: string := "Skipped/Failed:"
  const NothingProcessed: string := "No files processed."

  /** `Path(path).name` for a bare name: "." has an empty name, every other
      bare name is its own name. */
  function Name(path: string): string
  {
    if path == "." then "" else path
  }

  /** The line of one success, `f"  {tick} {Path(src).name} -> {Path(dst).name}"`. */
  function RenamedLine(m: Marks, entry: (string, string)): string
  {
    "  " + m.tick + " " + Name(entry.0) + " -> " + Name(entry.1)
  }

  /** The line of one failure, `f"  {cross} {Path(fp).name} {dash} {reason}"`. */
  function FailedLine(m: Marks, entry: (string, string)): string
  {
    "  " + m.cross + " " + Name(entry.0) + " " + m.dash + " " + entry.1
  }

  /** One entry line per success, in order. */
  function RenamedLines(m: Marks, successes: seq<(string, string)>): (r: seq<string>)
    ensures |r| == |successes|
    ensures forall i :: 0 <= i < |r| ==> r[i] == RenamedLine(m, successes[i])
  {
    seq(|successes|, i requires 0 <= i < |successes| => RenamedLine(m, successes[i]))
  }

  /** One entry line per failure, in order. */
  function FailedLines(m: Marks, failures: seq<(string, string)>): (r: seq<string>)
    ensures |r| == |failures|
    ensures forall i :: 0 <= i < |r| ==> r[i] == FailedLine(m, failures[i])
  {
    seq(|failures|, i requires 0 <= i < |failures| => FailedLine(m, failures[i]))
  }

  /** The "Renamed:" section: empty without successes, else the header
      and one line per success. */
  function RenamedSection(m: Marks, successes: seq<(string, string)>): seq<string>
  {
    if successes == [] then [] else [RenamedHeader] + RenamedLines(m, successes)
  }

  /** The "Skipped/Failed:" section: empty without failures, else the
      header and one line per failure, after a blank line when `separated`
      (something was reported before it). */
  function FailedSection(m: Marks, failures: seq<(string, string)>, separated: bool): seq<string>
  {
    if failures == [] then []
    else (if separated then [""] else []) + [FailedHeader] + FailedLines(m, failures)
  }

  /** The report lines for a batch: the two sections, or the placeholder line
      when both are empty. */
  function Lines(m: Marks, successes: seq<(string, string)>, failures: seq<(string, string)>): seq<string>
  {
    var body := RenamedSection(m, successes) + FailedSection(m, failures, successes != []);
    if body == [] then [NothingProcessed] else body
  }

  /** The placeholder is the whole report exactly when there is nothing to
      report: a report with entries has at least a header and one line. */
  lemma ReportPlaceholder(m: Marks, successes: seq<(string, string)>, failures: seq<(string, string)>)
    ensures Lines(m, successes, failures) == [NothingProcessed] <==> successes == [] && failures == []
  {
    if successes != [] || failures != [] {
      ReportLength(m, successes, failures);
    }
  }

  /** A report with entries is the success section followed by the
      failure section, so its length is the sum of the two: nothing else is
      shown. */
  lemma ReportLength(m: Marks, successes: seq<(string, string)>, failures: seq<(string, string)>)
    requires successes != [] || failures != []
    ensures |Lines(m, successes, failures)|
            == (if successes == [] then 0 else |successes| + 1)
               + (if failures == [] then 0 else |failures| + 1)
               + (if successes != [] && failures != [] then 1 else 0)
  {
  }

  /** The successes come first: the header, then one line per success in
      input order. */
  lemma ReportSuccessLines(m: Marks, successes: seq<(string, string)>, failures: seq<(string, string)>)
    requires successes != []
    ensures |Lines(m, successes, failures)| > |successes|
    ensures Lines(m, successes, failures)[..|successes| + 1] == [RenamedHeader] + RenamedLines(m, successes)
  {
    var a := RenamedSection(m, successes);
    var lines := a + FailedSection(m, failures, true);
    assert Lines(m, successes, failures) == lines;
    assert lines[..|a|] == a;
  }

  /** Where the failure section starts: after the success section and the
      blank line that separates the two, if there are successes. */
  function FailuresAt(successes: seq<(string, string)>): nat
  {
    if successes == [] then 0 else |successes| + 2
  }

  /** The failures close the report: their header, then one line per
      failure in input order; when there were successes a blank line comes
      just before them. */
  lemma ReportFailureLines(m: Marks, successes: seq<(string, string)>, failures: seq<(string, string)>)
    requires failures != []
    ensures FailuresAt(successes) < |Lines(m, successes, failures)|
    ensures successes != [] ==> Lines(m, successes, failures)[|successes| + 1] == ""
    ensures Lines(m, successes, failures)[FailuresAt(successes)..] == [FailedHeader] + FailedLines(m, failures)
  {
    var a := RenamedSection(m, successes);
    var b := FailedSection(m, failures, successes != []);
    var lines := a + b;
    assert Lines(m, successes, failures) == lines;
    if successes == [] {
      assert lines == b;
    } else {
      assert lines[|a|..] == b;
      assert b == [""] + ([FailedHeader] + FailedLines(m, failures));
      assert lines[|a| + 1..] == b[1..];
    }
  }

  /** Entry lines start with a space: they are indented by two. */
  lemma EntryLinesIndented(m: Marks, e: (string, string))
    ensures |RenamedLine(m, e)| >= 2 && RenamedLine(m, e)[0] == ' '
    ensures |FailedLine(m, e)| >= 2 && FailedLine(m, e)[0] == ' '
  {
    assert RenamedLine(m, e) == "  " + (m.tick + " " + Name(e.0) + " -> " + Name(e.1));
    assert FailedLine(m, e) == "  " + (m.cross + " " + Name(e.0) + " " + m.dash + " " + e.1);
  }

  /** A line of the "Renamed:" section is its header or an entry line. */
  lemma RenamedSectionLine(m: Marks, successes: seq<(string, string)>, k: int)
    requires 0 <= k < |RenamedSection(m, successes)|
    ensures var line := RenamedSection(m, successes)[k];
      (line == RenamedHeader && successes != []) || (|line| >= 2 && line[0] == ' ')
  {
    var lines := RenamedLines(m, successes);
    assert RenamedSection(m, successes) == [RenamedHeader] + lines;
    if k > 0 {
      assert ([RenamedHeader] + lines)[k] == lines[k - 1];
      EntryLinesIndented(m, successes[k - 1]);
    }
  }

  /** A line of the "Skipped/Failed:" section is the blank separator, its
      header or an entry line. */
  lemma FailedSectionLine(m: Marks, failures: seq<(string, string)>, separated: bool, k: int)
    requires 0 <= k < |FailedSection(m, failures, separated)|
    ensures var line := FailedSection(m, failures, separated)[k];
      || (line == FailedHeader && failures != [])
      || (line == "" && separated && failures != [])
      || (|line| >= 2 && line[0] == ' ')
  {
    var head := (if separated then [""] else []) + [FailedHeader];
    var lines := FailedLines(m, failures);
    assert FailedSection(m, failures, separated) == head + lines;
    if k >= |head| {
      assert (head + lines)[k] == lines[k - |head|];
      EntryLinesIndented(m, failures[k - |head|]);
    }
  }

  /** Every line of a report is a header of a non-empty list, the blank
      separator between two non-empty sections, the placeholder of an empty
      report, or an entry line (which starts with a space). */
  lemma LineKind(m: Marks, successes: seq<(string, string)>, failures: seq<(string, string)>, k: int)
    requires 0 <= k < |Lines(m, successes, failures)|
    ensures var line := Lines(m, successes, failures)[k];
      || (line == RenamedHeader && successes != [])
      || (line == FailedHeader && failures != [])
      || (line == "" && successes != [] && failures != [])
      || (line == NothingProcessed && successes == [] && failures == [])
      || (|line| >= 2 && line[0] == ' ')
  {
    var a := RenamedSection(m, successes);
    var b := FailedSection(m, failures, successes != []);
    if a + b != [] {
      assert Lines(m, successes, failures) == a + b;
      if k < |a| {
        assert (a + b)[k] == a[k];
        RenamedSectionLine(m, successes, k);
      } else {
        assert (a + b)[k] == b[k - |a|];
        FailedSectionLine(m, failures, successes != [], k - |a|);
      }
    }
  }

  /** Each header is shown exactly when its list is non-empty, and the
      blank separator exactly when both are. */
  lemma ReportHeaders(m: Marks, successes: seq<(string, string)>, failures: seq<(string, string)>)
    ensures RenamedHeader in Lines(m, successes, failures) <==> successes != []
    ensures FailedHeader in Lines(m, successes, failures) <==> failures != []
    ensures "" in Lines(m, successes, failures) <==> successes != [] && failures != []
  {
    var lines := Lines(m, successes, failures);
    if successes != [] {
      ReportSuccessLines(m, successes, failures);
      assert lines[0] == RenamedHeader;
    }
    if failures != [] {
      ReportFailureLines(m, successes, failures);
      assert lines[FailuresAt(successes)] == FailedHeader;
    }
    forall k | 0 <= k < |lines|
      ensures successes == [] ==> lines[k] != RenamedHeader
      ensures failures == [] ==> lines[k] != FailedHeader
      ensures successes == [] || failures == [] ==> lines[k] != ""
    {
      LineKind(m, successes, failures, k);
      assert RenamedHeader[0] == 'R' && FailedHeader[0] == 'S' && NothingProcessed[0] == 'N';
    }
  }

  /** The report-building code of `pick_and_rename`, step by step. */
  method BuildReport(m: Marks, successes: seq<(string, string)>, failures: seq<(string, string)>)
    returns (lines: seq<string>)
    ensures lines == Lines(m, successes, failures)
  {
    lines := [];
    if successes != [] {
      lines := lines + [RenamedHeader];
      for i := 0 to |successes|
        invariant lines == [RenamedHeader] + RenamedLines(m, successes[..i])
      {
        assert RenamedLines(m, successes[..i + 1]) == RenamedLines(m, successes[..i]) + [RenamedLine(m, successes[i])];
        lines := lines + [RenamedLine(m, successes[i])];
      }
      assert successes[..|successes|] == successes;
    }
    if failures != [] {
      if lines != [] {
        lines := lines + [""];
      }
      ghost var start := lines;
      lines := lines + [FailedHeader];
      for i := 0 to |failures|
        invariant lines == start + [FailedHeader] + FailedLines(m, failures[..i])
      {
        assert FailedLines(m, failures[..i + 1]) == FailedLines(m, failures[..i]) + [FailedLine(m, failures[i])];
        lines := lines + [FailedLine(m, failures[i])];
      }
      assert failures[..|failures|] == failures;
    }
    if lines == [] {
      lines := [NothingProcessed];
    }
  }
}
