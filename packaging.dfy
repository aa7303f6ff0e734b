/** Packaging a chart directory with `helm package` and finding the archive
    it produced (entrypoint.py, _package_chart). The helm run itself is not
    modelled: a `PackageRun` records what the action observes of it. */
module Packaging {
  import opened Outcomes
  import opened Text

  /** The words helm prints before the path of the archive it saved. */
  const MARKER: string := "saved it to:"

  /** One entry of the glob listing of the workspace archives, with its
      modification time. */
  datatype Archive = Archive(path: string, mtime: int)

  /** What the action observes of one `helm package` run: whether it exited
      with status 0, what it printed on standard output, which paths are
      regular files afterwards (os.path.isfile), and the listing, in the
      order glob returns it, of the archives in the workspace. The output is
      `result.stdout` as text mode decodes it: universal newlines have
      already turned "\r\n" and a lone "\r" into "\n". */
  datatype PackageRun = PackageRun(
    succeeded: bool,
    stdout: string,
    files: set<string>,
    archives: seq<Archive>)

  /** The lines scanned: the stripped output split at every line feed. */
  function Lines(stdout: string): (lines: seq<string>)
    ensures |lines| >= 1
    ensures Join(lines, "\n") == Strip(stdout)
    ensures forall k :: 0 <= k < |lines| ==> !Contains(lines[k], "\n")
  {
    Split(Strip(stdout), "\n")
  }

  /** The path a line announces: the stripped text after the last marker of
      the line, or None when the line holds no marker. */
  function SavedPath(line: string): (r: Option<string>)
    ensures r.None? <==> !Contains(line, MARKER)
    ensures r.Some? ==> IsStripped(r.value)
  {
    if Contains(line, MARKER) then Some(Strip(Last(Split(line, MARKER)))) else None
  }

  /** The path each output line announces, line by line. */
  function Announced(lines: seq<string>): (saved: seq<Option<string>>)
    ensures |saved| == |lines|
    ensures forall k :: 0 <= k < |lines| ==> saved[k] == SavedPath(lines[k])
  {
    seq(|lines|, k requires 0 <= k < |lines| => SavedPath(lines[k]))
  }

  /** An announced path that is a regular file: os.path.isfile of the path,
      which is false for the empty path whatever the file system holds. */
  predicate IsFileIn(saved: Option<string>, files: set<string>) {
    saved.Some? && saved.value != "" && saved.value in files
  }

  /** The position of the first announcement of a regular file, if any. */
  function FirstFile(saved: seq<Option<string>>, files: set<string>): (r: Option<nat>)
    ensures r.Some? ==> r.value < |saved| && IsFileIn(saved[r.value], files)
    ensures r.Some? ==> forall j :: 0 <= j < r.value ==> !IsFileIn(saved[j], files)
    ensures r.None? <==> forall j :: 0 <= j < |saved| ==> !IsFileIn(saved[j], files)
    decreases |saved|
  {
    if saved == [] then None
    else if IsFileIn(saved[0], files) then Some(0)
    else
      match FirstFile(saved[1..], files) {
        case None =>
          assert forall j :: 1 <= j < |saved| ==> saved[1..][j - 1] == saved[j];
          None
        case Some(i) => Some(i + 1)
      }
  }

  /** max(listing, key=mtime): Python keeps the first element whose key is
      largest, replacing it only by a strictly larger one. */
  function NewestIndex(archives: seq<Archive>): (r: nat)
    requires |archives| > 0
    ensures r < |archives|
    ensures forall j :: 0 <= j < |archives| ==> archives[j].mtime <= archives[r].mtime
    ensures forall j :: 0 <= j < r ==> archives[j].mtime < archives[r].mtime
    decreases |archives|
  {
    if |archives| == 1 then 0
    else
      var i := NewestIndex(archives[..|archives| - 1]);
      assert forall j :: 0 <= j < |archives| - 1 ==> archives[..|archives| - 1][j] == archives[j];
      if archives[|archives| - 1].mtime > archives[i].mtime then |archives| - 1 else i
  }

  /** The paths of the archive listing. */
  function ArchivePaths(archives: seq<Archive>): set<string> {
    set k | 0 <= k < |archives| :: archives[k].path
  }

  /** What _package_chart returns or how it ends the run: a failing helm run
      ends it; otherwise the first announced path that is a file; otherwise
      the newest archive of the listing; and an empty listing ends it. */
  function ResolveArchive(run: PackageRun): (r: Result<string>)
    ensures r == Fail(PackageFailed) <==> !run.succeeded
    ensures r == Fail(NoArchive) <==>
              run.succeeded && FirstFile(Announced(Lines(run.stdout)), run.files).None? && run.archives == []
    ensures r.Fail? ==> r.why in {PackageFailed, NoArchive}
    ensures r.Ok? ==> r.value in run.files || r.value in ArchivePaths(run.archives)
    ensures var saved := Announced(Lines(run.stdout));
            var first := FirstFile(saved, run.files);
            r.Ok? && first.Some? ==> r.value == saved[first.value].value
    ensures r.Ok? && FirstFile(Announced(Lines(run.stdout)), run.files).None? ==>
              r.value in ArchivePaths(run.archives)
  {
    if !run.succeeded then Fail(PackageFailed)
    else
      var saved := Announced(Lines(run.stdout));
      match FirstFile(saved, run.files) {
        case Some(i) => Ok(saved[i].value)
        case None =>
          if run.archives == [] then Fail(NoArchive)
          else
            var newest := NewestIndex(run.archives);
            assert run.archives[newest].path in ArchivePaths(run.archives);
            Ok(run.archives[newest].path)
      }
  }

  /** _package_chart after `helm package` has run: the scan of the output
      line by line, with the fallback to the newest archive. */
  method PackageChart(run: PackageRun) returns (r: Result<string>)
    ensures r == ResolveArchive(run)
  {
    if !run.succeeded {
      // check=True: a non-zero exit raises, and the uncaught exception ends
      // the process with status 1
      return Fail(PackageFailed);
    }
    var announced := ScanLines(Lines(run.stdout), run.files);
    if announced.Some? {
      return Ok(announced.value);
    }
    if run.archives == [] {
      return Fail(NoArchive);
    }
    r := Ok(run.archives[NewestIndex(run.archives)].path);
  }

  /** The loop of _package_chart over the output lines: the path of the
      first line that announces a file, or None when no line does. */
  method ScanLines(lines: seq<string>, files: set<string>) returns (found: Option<string>)
    ensures var first := FirstFile(Announced(lines), files);
            (found.None? <==> first.None?) &&
            (found.Some? ==> found == Announced(lines)[first.value])
  {
    for i := 0 to |lines|
      invariant NoFileBefore(lines, files, i)
    {
      found := AnnouncedFile(lines[i], files);
      if found.Some? {
        ScanFound(lines, files, i);
        return;
      }
      NoFileExtend(lines, files, i);
    }
    ScanExhausted(lines, files);
    found := None;
  }

  /** No line before the i-th announces a file. */
  predicate NoFileBefore(lines: seq<string>, files: set<string>, i: nat)
    requires i <= |lines|
  {
    forall j :: 0 <= j < i ==> !IsFileIn(SavedPath(lines[j]), files)
  }

  lemma NoFileExtend(lines: seq<string>, files: set<string>, i: nat)
    requires i < |lines| && NoFileBefore(lines, files, i)
    requires !IsFileIn(SavedPath(lines[i]), files)
    ensures NoFileBefore(lines, files, i + 1)
  {
  }

  lemma ScanFound(lines: seq<string>, files: set<string>, i: nat)
    requires i < |lines| && IsFileIn(SavedPath(lines[i]), files)
    requires NoFileBefore(lines, files, i)
    ensures FirstFile(Announced(lines), files) == Some(i)
    ensures Announced(lines)[i] == SavedPath(lines[i])
  {
    FirstFileAt(Announced(lines), files, i);
  }

  lemma ScanExhausted(lines: seq<string>, files: set<string>)
    requires NoFileBefore(lines, files, |lines|)
    ensures FirstFile(Announced(lines), files) == None
  {
  }

  /** The test of one output line: the path after its marker, when the line
      has one and that path is a regular file. */
  method AnnouncedFile(line: string, files: set<string>) returns (found: Option<string>)
    ensures found.Some? <==> IsFileIn(SavedPath(line), files)
    ensures found.Some? ==> found == SavedPath(line)
  {
    found := None;
    if Contains(line, MARKER) {
      var path := Strip(Last(Split(line, MARKER)));
      assert SavedPath(line) == Some(path);
      // os.path.isfile: never true of the empty path
      if path != "" && path in files {
        found := Some(path);
      }
    }
  }

  // ---------------------------------------------------------------------
  // Properties

  /** The marker overlaps no shifted copy of itself: its only ":" is its last
      character. */
  lemma MarkerColonOnlyLast(d: int)
    requires 0 <= d < |MARKER| - 1
    ensures MARKER[d] != ':'
  {
  }

  /** Two occurrences of the marker are at least its length apart. */
  lemma MarkersDoNotOverlap(s: string, k: int, p: int)
    requires OccursAt(s, MARKER, k) && OccursAt(s, MARKER, p)
    requires k < p
    ensures p >= k + |MARKER|
  {
    if p < k + |MARKER| {
      var d := k + |MARKER| - 1 - p;
      assert s[k + |MARKER| - 1] == s[k..k + |MARKER|][|MARKER| - 1];
      assert s[p + d] == s[p..p + |MARKER|][d];
      MarkerColonOnlyLast(d);
    }
  }

  /** An occurrence inside a suffix is an occurrence of the marker in that
      suffix. */
  lemma OccursInSuffix(s: string, from: nat, p: int)
    requires from <= p && OccursAt(s, MARKER, p)
    ensures from <= |s| && Contains(s[from..], MARKER)
  {
    var tail := s[from..];
    assert tail[p - from..p - from + |MARKER|] == s[p..p + |MARKER|];
    assert OccursAt(tail, MARKER, p - from);
  }

  /** The path of a line is read after the line's LAST marker: for any text
      before it, the path of `before + MARKER + after` is the stripped
      `after` when `after` holds no marker of its own. */
  lemma SavedPathAfterLastMarker(before: string, after: string)
    requires !Contains(after, MARKER)
    ensures SavedPath(before + MARKER + after) == Some(Strip(after))
  {
    var line := before + MARKER + after;
    var p := MarkerBetween(before, after);
    var k := LastPieceFollowsSep(line, MARKER);
    LastPieceHasNoSep(line, MARKER);
    LastMarkerUnique(line, k, p);
  }

  /** The marker of `before + MARKER + after` sits at |before|, with `after`
      following it. */
  lemma MarkerBetween(before: string, after: string) returns (p: nat)
    ensures p == |before|
    ensures OccursAt(before + MARKER + after, MARKER, p)
    ensures (before + MARKER + after)[p + |MARKER|..] == after
  {
    var line := before + MARKER + after;
    p := |before|;
    assert line[p..p + |MARKER|] == MARKER;
  }

  /** Two markers of a line that each have no marker after them are the same
      marker. */
  lemma LastMarkerUnique(line: string, k: nat, p: nat)
    requires OccursAt(line, MARKER, k) && OccursAt(line, MARKER, p)
    requires !Contains(line[k + |MARKER|..], MARKER)
    requires !Contains(line[p + |MARKER|..], MARKER)
    ensures k == p
  {
    if k < p {
      MarkersDoNotOverlap(line, k, p);
      OccursInSuffix(line, k + |MARKER|, p);
    } else if k > p {
      MarkersDoNotOverlap(line, p, k);
      OccursInSuffix(line, p + |MARKER|, k);
    }
  }

  /** A successful scan returns the path of the first line that announces a
      file, whatever the archive listing holds. */
  lemma AnnouncedFileWins(run: PackageRun, i: nat)
    requires run.succeeded
    requires var saved := Announced(Lines(run.stdout));
             i < |saved| && IsFileIn(saved[i], run.files) &&
             forall j :: 0 <= j < i ==> !IsFileIn(saved[j], run.files)
    ensures ResolveArchive(run) == Ok(SavedPath(Lines(run.stdout)[i]).value)
  {
    FirstFileAt(Announced(Lines(run.stdout)), run.files, i);
  }

  /** The first announcement of a file is the one FirstFile finds. */
  lemma FirstFileAt(saved: seq<Option<string>>, files: set<string>, i: nat)
    requires i < |saved| && IsFileIn(saved[i], files)
    requires forall j :: 0 <= j < i ==> !IsFileIn(saved[j], files)
    ensures FirstFile(saved, files) == Some(i)
  {
    var r := FirstFile(saved, files);
    assert r.Some?;
    assert !(r.value < i);
    assert !(r.value > i);
  }

  /** Without an announced file the newest archive is pushed: no archive of
      the listing is newer, and any as new comes later in the listing. */
  lemma FallbackIsNewest(run: PackageRun)
    requires run.succeeded && run.archives != []
    requires FirstFile(Announced(Lines(run.stdout)), run.files).None?
    ensures var n := NewestIndex(run.archives);
            ResolveArchive(run) == Ok(run.archives[n].path) &&
            (forall j :: 0 <= j < |run.archives| ==> run.archives[j].mtime <= run.archives[n].mtime) &&
            (forall j :: 0 <= j < n ==> run.archives[j].mtime < run.archives[n].mtime)
  {
  }

  /** Each path of the listing names a `.tgz` file, as the pattern `*.tgz`
      ensures. */
  predicate ListsArchives(archives: seq<Archive>) {
    forall k :: 0 <= k < |archives| ==> EndsWith(archives[k].path, ".tgz")
  }

  /** What is pushed after packaging is either a path helm announced and that
      is a file, or a `.tgz` of the listing. */
  lemma ResolvedIsFileOrArchive(run: PackageRun)
    requires ListsArchives(run.archives)
    ensures var r := ResolveArchive(run);
            r.Ok? ==> r.value in run.files || EndsWith(r.value, ".tgz")
    ensures var r := ResolveArchive(run);
            r.Ok? ==> (r.value != "" && r.value in run.files && Some(r.value) in Announced(Lines(run.stdout))) ||
                      (r.value in ArchivePaths(run.archives) && EndsWith(r.value, ".tgz"))
  {
    var saved := Announced(Lines(run.stdout));
    var first := FirstFile(saved, run.files);
    if run.succeeded && first.Some? {
      assert saved[first.value] in saved;
    }
  }

  /** The confirmation helm prints, `<before>saved it to: <path>` and a line
      feed, yields that path when it is a file. */
  lemma ConfirmationYieldsPath(run: PackageRun, before: string, path: string)
    requires run.succeeded && run.stdout == before + MARKER + " " + path + "\n"
    requires before != "" && !IsSpace(before[0]) && '\n' !in before
    requires path != "" && IsStripped(path) && '\n' !in path && !Contains(path, MARKER)
    requires path in run.files
    ensures ResolveArchive(run) == Ok(path)
  {
    var line := before + MARKER + " " + path;
    ConfirmationIsOneLine(before, path);
    PathOfConfirmation(before, path);
    var saved := Announced([line]);
    assert saved[0] == Some(path);
    FirstFileAt(saved, run.files, 0);
  }

  /** The output of one confirmation is a single line. */
  lemma ConfirmationIsOneLine(before: string, path: string)
    requires before != "" && !IsSpace(before[0]) && '\n' !in before
    requires path != "" && IsStripped(path) && '\n' !in path
    ensures Lines(before + MARKER + " " + path + "\n") == [before + MARKER + " " + path]
  {
    var line := before + MARKER + " " + path;
    assert line[0] == before[0];
    assert line[|line| - 1] == path[|path| - 1];
    assert '\n' !in MARKER + " ";
    OneLine(line);
  }

  /** Text without a line feed, and with no blank at either end, followed by
      one line feed, is read as that one line. */
  lemma OneLine(line: string)
    requires line != "" && IsStripped(line) && '\n' !in line
    ensures Lines(line + "\n") == [line]
  {
    assert "" + line + "\n" == line + "\n";
    StripPadded("", line, "\n");
    NoCharNoContains(line, '\n');
  }

  /** The path of a confirmation line is the text after "saved it to: ". */
  lemma PathOfConfirmation(before: string, path: string)
    requires IsStripped(path) && !Contains(path, MARKER)
    ensures SavedPath(before + MARKER + " " + path) == Some(path)
  {
    SpaceThenPath(path);
    assert before + MARKER + " " + path == before + MARKER + (" " + path);
    SavedPathAfterLastMarker(before, " " + path);
    StripAfterSpace(path);
  }

  /** A blank before a stripped text is all that strip removes. */
  lemma StripAfterSpace(path: string)
    requires IsStripped(path)
    ensures Strip(" " + path) == path
  {
    if path == "" {
      assert IsBlank(" ");
      StripEmptyIffBlank(" ");
    } else {
      assert " " + path + "" == " " + path;
      StripPadded(" ", path, "");
    }
  }

  /** A character that is not in a text is no substring of it. */
  lemma NoCharNoContains(s: string, c: char)
    requires c !in s
    ensures !Contains(s, [c])
  {
    forall k | 0 <= k <= |s| - 1 ensures !OccursAt(s, [c], k) {
      assert s[k..k + 1][0] == s[k];
    }
  }

  /** A path after a blank holds no marker when the path holds none. */
  lemma SpaceThenPath(path: string)
    requires !Contains(path, MARKER)
    ensures !Contains(" " + path, MARKER)
  {
    var t := " " + path;
    forall k | 0 <= k <= |t| - |MARKER| ensures !OccursAt(t, MARKER, k) {
      if k == 0 {
        assert t[0..|MARKER|][0] == ' ' != MARKER[0];
      } else {
        assert t[k..k + |MARKER|] == path[k - 1..k - 1 + |MARKER|];
        assert !OccursAt(path, MARKER, k - 1);
      }
    }
  }
}
