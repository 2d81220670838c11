/**
 * The interactive part of `create-project`: the three questions (folder name, display
 * name, template), their validators, and the loops that re-ask until an answer is accepted.
 * The answers are given as the sequence of lines typed at the prompt.
 */
module ScaffoldPrompts {
  import opened Wrappers
  import opened Strings

  /** The characters `[a-z0-9-]` admits. */
  predicate IsFolderNameChar(c: char) {
    ('a' <= c <= 'z') || ('0' <= c <= '9') || c == '-'
  }

  /** `/^[a-z0-9-]+$/.test(s)`, matched one character at a time. */
  predicate MatchesFolderPattern(s: string)
    decreases |s|
  {
    s != [] && IsFolderNameChar(s[0]) && (|s| == 1 || MatchesFolderPattern(s[1..]))
  }

  lemma {:induction false} FolderPatternMeaning(s: string)
    ensures MatchesFolderPattern(s) <==> s != [] && forall i | 0 <= i < |s| :: IsFolderNameChar(s[i])
    decreases |s|
  {
    if |s| > 1 {
      FolderPatternMeaning(s[1..]);
      assert forall i | 1 <= i < |s| :: s[i] == s[1..][i - 1];
    }
  }

  /** `validateFolderName`: non-empty, and made only of lower-case ASCII letters, digits and `-`. */
  function ValidateFolderName(name: string): (ok: bool)
    ensures ok <==> name != [] && forall i | 0 <= i < |name| :: IsFolderNameChar(name[i])
  {
    FolderPatternMeaning(name);
    if name == [] then false else MatchesFolderPattern(name)
  }

  /** `validateDisplayName` */
  predicate ValidateDisplayName(name: string) {
    |name| > 0
  }

  /** Answers are trimmed before the check, so a display name is accepted exactly when the
      typed line is not blank. */
  lemma DisplayNameAfterTrim(line: string)
    ensures ValidateDisplayName(Trim(line)) <==> !IsBlank(line)
  {
    TrimBlankIff(line);
  }

  datatype Template = Baseline | Routeline

  /** The template's directory name under `engine/templates`, and its menu number. */
  function TemplateName(t: Template): string {
    match t
    case Baseline => "baseline"
    case Routeline => "routeline"
  }

  function MenuNumber(t: Template): string {
    match t
    case Baseline => "1"
    case Routeline => "2"
  }

  /** The template question's answer: `'1'` or `baseline`, `'2'` or `routeline`, the names
      compared after lower-casing; `None` makes the loop ask again. */
  function ChooseTemplate(choice: string): Option<Template> {
    if choice == "1" || LowerAscii(choice) == "baseline" then Some(Baseline)
    else if choice == "2" || LowerAscii(choice) == "routeline" then Some(Routeline)
    else None
  }

  /** A template is chosen exactly by its menu number or by its name in any letter case. */
  lemma TemplateChoice(choice: string, t: Template)
    ensures ChooseTemplate(choice) == Some(t) <==>
      choice == MenuNumber(t) || LowerAscii(choice) == TemplateName(t)
  {
    if choice == "1" {
      assert LowerAscii(choice) == "1";
    }
    if choice == "2" {
      assert LowerAscii(choice) == "2";
    }
  }

  /** Lower-casing an answer first never changes which template it picks. */
  lemma TemplateChoiceIgnoresCase(choice: string)
    ensures ChooseTemplate(LowerAscii(choice)) == ChooseTemplate(choice)
  {
    var lower := LowerAscii(choice);
    LowerAsciiIdempotent(choice);
    if lower == "1" {
      assert lower[0] == LowerChar(choice[0]);
      assert choice == "1";
    }
    if lower == "2" {
      assert lower[0] == LowerChar(choice[0]);
      assert choice == "2";
    }
  }

  /** The three questions; the folder question knows which project folders already exist. */
  datatype Question = FolderQuestion(existing: set<string>) | DisplayNameQuestion | TemplateQuestion

  /** Whether a trimmed answer ends the question's loop (the `break`). */
  predicate Accepts(q: Question, answer: string) {
    match q
    case FolderQuestion(existing) => answer != "" && ValidateFolderName(answer) && answer !in existing
    case DisplayNameQuestion => ValidateDisplayName(answer)
    case TemplateQuestion => ChooseTemplate(answer).Some?
  }

  /** The position of the first line whose trimmed text the question accepts. */
  function FirstAccepted(lines: seq<string>, q: Question): (k: Option<nat>)
    ensures k.Some? ==> k.value < |lines| && Accepts(q, Trim(lines[k.value]))
    ensures k.Some? ==> forall j | 0 <= j < k.value :: !Accepts(q, Trim(lines[j]))
    ensures k.None? ==> forall j | 0 <= j < |lines| :: !Accepts(q, Trim(lines[j]))
  {
    if lines == [] then None
    else if Accepts(q, Trim(lines[0])) then Some(0)
    else
      assert forall j | 1 <= j < |lines| :: lines[j] == lines[1..][j - 1];
      match FirstAccepted(lines[1..], q)
      case None => None
      case Some(k) => Some(k + 1)
  }

  /** One question's `while (true)` loop: reads lines until one is accepted, and returns
      the accepted (trimmed) answer and the lines not yet read. */
  method Ask(lines: seq<string>, q: Question) returns (answer: Option<string>, rest: seq<string>)
    ensures match FirstAccepted(lines, q)
      case Some(k) => answer == Some(Trim(lines[k])) && rest == lines[k + 1..]
      case None => answer == None && rest == []
  {
    var i := 0;
    while i < |lines|
      invariant 0 <= i <= |lines|
      invariant forall j | 0 <= j < i :: !Accepts(q, Trim(lines[j]))
    {
      var a := Trim(lines[i]);
      if Accepts(q, a) {
        return Some(a), lines[i + 1..];
      }
      i := i + 1;
    }
    return None, [];
  }

  datatype Choices = Choices(folderName: string, displayName: string, template: Template)

  /** The three questions asked in turn over one stream of lines; `None` when the lines run
      out before all three are answered. */
  function Interview(lines: seq<string>, existing: set<string>): Option<Choices> {
    match FirstAccepted(lines, FolderQuestion(existing))
    case None => None
    case Some(i) =>
      var afterFolder := lines[i + 1..];
      match FirstAccepted(afterFolder, DisplayNameQuestion)
      case None => None
      case Some(j) =>
        var afterDisplay := afterFolder[j + 1..];
        match FirstAccepted(afterDisplay, TemplateQuestion)
        case None => None
        case Some(k) =>
          Some(Choices(Trim(lines[i]), Trim(afterFolder[j]), ChooseTemplate(Trim(afterDisplay[k])).value))
  }

  /** `main`'s three prompt loops. */
  method RunInterview(lines: seq<string>, existing: set<string>) returns (choices: Option<Choices>)
    ensures choices == Interview(lines, existing)
  {
    var folderName, afterFolder := Ask(lines, FolderQuestion(existing));
    if folderName.None? {
      return None;
    }
    var displayName, afterDisplay := Ask(afterFolder, DisplayNameQuestion);
    if displayName.None? {
      return None;
    }
    var choice, _ := Ask(afterDisplay, TemplateQuestion);
    if choice.None? {
      return None;
    }
    choices := Some(Choices(folderName.value, displayName.value, ChooseTemplate(choice.value).value));
  }

  /** What the interview guarantees to the rest of `main`: a valid folder name that is not an
      existing project, and a display name that is not empty and carries no surrounding
      whitespace. The `!folderName` test before `validateFolderName` never decides anything. */
  lemma InterviewOutcome(lines: seq<string>, existing: set<string>)
    ensures forall a :: Accepts(FolderQuestion(existing), a) <==> ValidateFolderName(a) && a !in existing
    ensures match Interview(lines, existing)
      case Some(c) =>
        && ValidateFolderName(c.folderName) && c.folderName !in existing
        && c.displayName != "" && !IsWhitespace(c.displayName[0])
        && !IsWhitespace(c.displayName[|c.displayName| - 1])
      case None => true
  {
  }
}
