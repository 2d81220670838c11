/**
 * The engine's breaking-change guard (`check-breaking.js`): it reads the commits since the
 * last `engine-v*` tag, flags those whose message carries a breaking-change marker, asks
 * whether a critical contract file changed, and exits with status 1 exactly when a critical
 * file changed and no commit was flagged. Git and the file system are given as inputs: the
 * `git log` output (`None` when the command fails), the set of critical files present, and
 * each file's `git log -- <file>` output.
 */
module BreakingGuard {
  import opened Wrappers
  import opened Strings
  import opened Seqs

  const CriticalFiles: seq<string> := [
    "packages/core/types/SiteData.ts",
    "packages/core/types/index.ts",
    "packages/core/app/types.ts"
  ]

  const BreakingMarkers: seq<string> := [
    "BREAKING CHANGE:",
    "BREAKING-CHANGE:",
    "breaking:",
    "breaking("
  ]

  /** `hasBreakingChange`: some marker occurs in the message, both lower-cased. */
  predicate HasBreakingChange(message: string) {
    exists k | 0 <= k < |BreakingMarkers| :: Contains(LowerAscii(message), LowerAscii(BreakingMarkers[k]))
  }

  /** Each marker is detected wherever it occurs in a message. */
  lemma MarkerDetected(before: string, k: nat, after: string)
    requires k < |BreakingMarkers|
    ensures HasBreakingChange(before + BreakingMarkers[k] + after)
  {
    var marker := BreakingMarkers[k];
    LowerAsciiConcat(before + marker, after);
    LowerAsciiConcat(before, marker);
    ContainsMiddle(LowerAscii(before), LowerAscii(marker), LowerAscii(after));
  }

  /** Detection ignores letter case. */
  lemma DetectionIgnoresCase(message: string)
    ensures HasBreakingChange(LowerAscii(message)) <==> HasBreakingChange(message)
  {
    LowerAsciiIdempotent(message);
  }

  /** Every marker contains a `b`, so a message with no `b` or `B` is never flagged. */
  lemma WithoutBNotFlagged(message: string)
    requires 'b' !in LowerAscii(message)
    ensures !HasBreakingChange(message)
  {
    forall k | 0 <= k < |BreakingMarkers|
      ensures !Contains(LowerAscii(message), LowerAscii(BreakingMarkers[k]))
    {
      var marker := LowerAscii(BreakingMarkers[k]);
      assert marker[0] == 'b';
      if Contains(LowerAscii(message), marker) {
        ContainsChars(LowerAscii(message), marker, 'b');
      }
    }
  }

  /** The `feat!:` form the failure advice recommends is not one of the markers: such a
      commit is not flagged unless its description happens to contain a marker. */
  lemma FeatBangNotDetected(description: string)
    requires 'b' !in LowerAscii(description)
    ensures !HasBreakingChange("feat!: " + description)
  {
    LowerAsciiConcat("feat!: ", description);
    assert LowerAscii("feat!: ") == "feat!: ";
    WithoutBNotFlagged("feat!: " + description);
  }

  /** `getCommitsSinceLastRelease`: the trimmed output's non-empty lines; none when git fails. */
  function Commits(output: Option<string>): (commits: seq<string>)
    ensures output.None? ==> commits == []
    ensures output.Some? ==> commits == NonEmpty(Split(Trim(output.value), '\n'))
    ensures forall i | 0 <= i < |commits| :: commits[i] != "" && '\n' !in commits[i]
  {
    match output
    case None => []
    case Some(out) => NonEmpty(Split(Trim(out), '\n'))
  }

  /** `filter(Boolean)` on strings: the non-empty lines, in their order. */
  function NonEmpty(lines: seq<string>): (r: seq<string>)
    ensures forall i | 0 <= i < |r| :: r[i] != "" && r[i] in lines
    ensures forall i | 0 <= i < |lines| && lines[i] != "" :: lines[i] in r
    ensures IsSubsequence(r, lines)
  {
    if lines == [] then []
    else
      var rest := NonEmpty(lines[1..]);
      assert forall i | 1 <= i < |lines| :: lines[i] == lines[1..][i - 1];
      if lines[0] == "" then
        SubsequenceSkip(rest, lines[1..], lines[0]);
        assert [lines[0]] + lines[1..] == lines;
        rest
      else
        assert ([lines[0]] + rest)[1..] == rest;
        [lines[0]] + rest
  }

  /** The filter keeps every non-empty line as often as it occurs: appending a line appends it
      to the result exactly when it is non-empty. */
  lemma {:induction false} NonEmptyAppend(lines: seq<string>, line: string)
    ensures NonEmpty([]) == []
    ensures NonEmpty(lines + [line]) == NonEmpty(lines) + (if line == "" then [] else [line])
    decreases |lines|
  {
    if lines == [] {
      assert [] + [line] == [line];
      assert [line][1..] == [];
    } else {
      var all := lines + [line];
      assert all[0] == lines[0];
      assert all[1..] == lines[1..] + [line];
      NonEmptyAppend(lines[1..], line);
    }
  }

  datatype Commit = Commit(hash: string, message: string)

  /** `const [hash, ...rest] = commit.split('|'); const message = rest.join('|')` */
  function ParseCommit(line: string): Commit {
    var parts := Split(line, '|');
    Commit(parts[0], Join(parts[1..], '|'))
  }

  /** A line is cut at its first `|`: the hash is what precedes it, the message all that
      follows, inner `|` included. */
  lemma ParseCommitAtFirstBar(hash: string, message: string)
    requires '|' !in hash
    ensures ParseCommit(hash + "|" + message) == Commit(hash, message)
  {
    SplitAtFirst(hash, message, '|');
    JoinSplit(message, '|');
  }

  /** A line without `|`, such as a continuation line of a commit body, has an empty message
      and is never flagged. */
  lemma LineWithoutBarNotFlagged(line: string)
    requires '|' !in line
    ensures ParseCommit(line).message == ""
    ensures !HasBreakingChange(ParseCommit(line).message)
  {
    SplitWithoutSeparator(line, '|');
    WithoutBNotFlagged("");
  }

  /** What is printed for a flagged commit. */
  datatype Report = Report(shortHash: string, subject: string)

  /** `hash.substring(0, 7)` */
  function ShortHash(hash: string): (r: string)
    ensures |r| == if |hash| < 7 then |hash| else 7
    ensures r == hash[..|r|]
  {
    if |hash| <= 7 then hash else hash[..7]
  }

  function ReportOf(c: Commit): Report {
    Report(ShortHash(c.hash), Split(c.message, '\n')[0])
  }

  /** The flagged commits' reports, in log order. */
  function Reports(commits: seq<string>): (r: seq<Report>)
    ensures |r| <= |commits|
    ensures r == [] <==> forall i | 0 <= i < |commits| :: !HasBreakingChange(ParseCommit(commits[i]).message)
  {
    if commits == [] then []
    else
      var init := Reports(commits[..|commits| - 1]);
      var c := ParseCommit(commits[|commits| - 1]);
      assert forall i | 0 <= i < |commits| - 1 :: commits[..|commits| - 1][i] == commits[i];
      if HasBreakingChange(c.message) then init + [ReportOf(c)] else init
  }

  /** A commit line has no newline, so its report shows the whole message. */
  lemma ReportShowsWholeMessage(line: string)
    requires '\n' !in line
    ensures ReportOf(ParseCommit(line)).subject == ParseCommit(line).message
  {
    var parts := Split(line, '|');
    JoinSplit(line, '|');
    var message := Join(parts[1..], '|');
    if |parts| > 1 {
      assert line == parts[0] + "|" + message;
      assert forall i | 0 <= i < |message| :: message[i] == line[|parts[0]| + 1 + i];
    }
    SplitWithoutSeparator(message, '\n');
  }

  /** One more commit adds its report exactly when it is flagged. */
  lemma ReportsStep(commits: seq<string>, i: nat)
    requires i < |commits|
    ensures var c := ParseCommit(commits[i]);
      Reports(commits[..i + 1]) == Reports(commits[..i]) + (if HasBreakingChange(c.message) then [ReportOf(c)] else [])
  {
    assert commits[..i + 1][..i] == commits[..i];
  }

  /** The `forEach` over the commits. */
  method FindBreakingCommits(commits: seq<string>) returns (hasBreaking: bool, breakingCommits: seq<Report>)
    ensures breakingCommits == Reports(commits)
    ensures hasBreaking <==> exists i | 0 <= i < |commits| :: HasBreakingChange(ParseCommit(commits[i]).message)
  {
    hasBreaking := false;
    breakingCommits := [];
    for i := 0 to |commits|
      invariant breakingCommits == Reports(commits[..i])
      invariant hasBreaking <==> breakingCommits != []
    {
      ReportsStep(commits, i);
      var parts := Split(commits[i], '|');
      var hash := parts[0];
      var message := Join(parts[1..], '|');
      if HasBreakingChange(message) {
        hasBreaking := true;
        breakingCommits := breakingCommits + [Report(ShortHash(hash), Split(message, '\n')[0])];
      }
    }
    assert commits[..|commits|] == commits;
  }

  /** `checkCriticalFileChanges` over the given files: the first present file decides, true
      when its log is non-blank; a failing `git log` ends the check with false. */
  function CriticalChanged(files: seq<string>, present: set<string>, gitLog: string -> Option<string>): bool {
    if files == [] then false
    else if files[0] !in present then CriticalChanged(files[1..], present, gitLog)
    else
      match gitLog(files[0])
      case None => false
      case Some(out) => if Trim(out) != "" then true else CriticalChanged(files[1..], present, gitLog)
  }

  /** A change is reported exactly when some present file has a non-blank log and every present
      file before it was checked without error: missing files are skipped and errors fail open. */
  lemma {:induction false} CriticalChangedIff(files: seq<string>, present: set<string>, gitLog: string -> Option<string>)
    ensures CriticalChanged(files, present, gitLog) <==>
      exists i | 0 <= i < |files| ::
        && files[i] in present && gitLog(files[i]).Some? && Trim(gitLog(files[i]).value) != ""
        && forall j | 0 <= j < i && files[j] in present :: gitLog(files[j]).Some?
  {
    if files != [] {
      CriticalChangedIff(files[1..], present, gitLog);
      if CriticalChanged(files, present, gitLog) {
        if files[0] in present && gitLog(files[0]).Some? && Trim(gitLog(files[0]).value) != "" {
          assert files[0] in present;
        } else {
          var i :| 0 <= i < |files[1..]| &&
            files[1..][i] in present && gitLog(files[1..][i]).Some? && Trim(gitLog(files[1..][i]).value) != ""
            && forall j | 0 <= j < i && files[1..][j] in present :: gitLog(files[1..][j]).Some?;
          assert forall j | 1 <= j < i + 1 :: files[j] == files[1..][j - 1];
        }
      } else {
        forall i | 0 <= i < |files| && files[i] in present && gitLog(files[i]).Some? && Trim(gitLog(files[i]).value) != ""
          ensures exists j | 0 <= j < i && files[j] in present :: gitLog(files[j]).None?
        {
          if i == 0 {
          } else if files[0] in present && gitLog(files[0]).None? {
            assert 0 <= 0 < i && files[0] in present;
          } else {
            assert files[1..][i - 1] == files[i];
            var j :| 0 <= j < i - 1 && files[1..][j] in present && gitLog(files[1..][j]).None?;
            assert files[j + 1] == files[1..][j];
          }
        }
      }
    }
  }

  /** `checkCriticalFileChanges`: the loop with its early returns. */
  method CheckCriticalFileChanges(present: set<string>, gitLog: string -> Option<string>) returns (changed: bool)
    ensures changed == CriticalChanged(CriticalFiles, present, gitLog)
  {
    for i := 0 to |CriticalFiles|
      invariant CriticalChanged(CriticalFiles, present, gitLog) == CriticalChanged(CriticalFiles[i..], present, gitLog)
    {
      var file := CriticalFiles[i];
      assert CriticalFiles[i..][1..] == CriticalFiles[i + 1..];
      if file !in present {
        continue;
      }
      var changes := gitLog(file);
      if changes.None? {
        return false;
      }
      if Trim(changes.value) != "" {
        return true;
      }
    }
    return false;
  }

  /** `main`: the exit status. */
  method RunGuard(output: Option<string>, present: set<string>, gitLog: string -> Option<string>)
    returns (exitCode: int, breakingCommits: seq<Report>)
    ensures exitCode == 1 <==>
      && Commits(output) != []
      && CriticalChanged(CriticalFiles, present, gitLog)
      && forall i | 0 <= i < |Commits(output)| :: !HasBreakingChange(ParseCommit(Commits(output)[i]).message)
    ensures exitCode == 0 || exitCode == 1
    ensures breakingCommits == Reports(Commits(output))
  {
    var commits := Commits(output);
    if |commits| == 0 {
      return 0, [];
    }
    var hasBreaking;
    hasBreaking, breakingCommits := FindBreakingCommits(commits);
    var criticalFilesChanged := CheckCriticalFileChanges(present, gitLog);
    if criticalFilesChanged && !hasBreaking {
      return 1, breakingCommits;
    }
    return 0, breakingCommits;
  }

  /** With no critical file present, or with git failing, the guard always passes. */
  lemma FailsOpen(output: Option<string>, gitLog: string -> Option<string>)
    ensures !CriticalChanged(CriticalFiles, {}, gitLog)
    ensures Commits(None) == []
  {
  }
}
