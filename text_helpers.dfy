/**
 * The core's text helpers (`helpers.ts`): `truncate` shortens a text to a length and marks
 * the cut with `...`; `slugify` turns a text into a URL fragment made of word characters and
 * single hyphens.
 */
module TextHelpers {
  import opened Strings

  /** `truncate(text, length)`: the text when it fits, otherwise `text.substring(0, length)`
      followed by `...` (`substring` treats a negative length as 0). */
  function Truncate(text: string, length: int): (r: string)
    ensures |text| <= length ==> r == text
    ensures |text| > length ==>
      var n := if length < 0 then 0 else length;
      |r| == n + 3 && r[..n] == text[..n] && r[n..] == "..."
  {
    if |text| <= length then text
    else
      var n := if length < 0 then 0 else length;
      text[..n] + "..."
  }

  /** Truncating a truncated text to the same length changes nothing. */
  lemma TruncateIdempotent(text: string, length: int)
    ensures Truncate(Truncate(text, length), length) == Truncate(text, length)
  {
    if |text| > length {
      var n := if length < 0 then 0 else length;
      var r := Truncate(text, length);
      assert r[..n] + "..." == r;
    }
  }

  /** `\w`: ASCII letters, digits and `_`. */
  predicate IsWordChar(c: char) {
    ('a' <= c <= 'z') || ('A' <= c <= 'Z') || ('0' <= c <= '9') || c == '_'
  }

  /** `replace(/[^\w\s-]/g, '')`: keeps word characters, whitespace and `-`. */
  function StripSymbols(s: string): (r: string)
    ensures forall i | 0 <= i < |r| :: IsWordChar(r[i]) || IsWhitespace(r[i]) || r[i] == '-'
    ensures (forall i | 0 <= i < |s| :: IsWordChar(s[i]) || IsWhitespace(s[i]) || s[i] == '-') ==> r == s
  {
    if s == [] then []
    else
      var rest := StripSymbols(s[1..]);
      assert forall i | 1 <= i < |s| :: s[1..][i - 1] == s[i];
      if IsWordChar(s[0]) || IsWhitespace(s[0]) || s[0] == '-' then [s[0]] + rest else rest
  }

  /** The two character classes `slugify` collapses: `\s+` and `-+`. */
  datatype RunClass = Spaces | Hyphens

  predicate InRun(c: char, k: RunClass) {
    match k
    case Spaces => IsWhitespace(c)
    case Hyphens => c == '-'
  }

  /** The scan behind `replace(/\s+/g, '-')` and `replace(/-+/g, '-')`: a character of the
      class that starts a run gives `-`, the rest of the run gives nothing, and every other
      character is kept. `inRun` says whether the previous character was in the class. */
  function Collapse(s: string, k: RunClass, inRun: bool): (r: string)
    ensures |r| <= |s|
    ensures r == [] ==> s == [] || (inRun && InRun(s[0], k))
  {
    if s == [] then []
    else if InRun(s[0], k) then
      if inRun then Collapse(s[1..], k, true) else "-" + Collapse(s[1..], k, true)
    else [s[0]] + Collapse(s[1..], k, false)
  }

  /** `replace(/X+/g, '-')` for the class: every maximal run becomes one `-`. */
  function ReplaceRuns(s: string, k: RunClass): string {
    Collapse(s, k, false)
  }

  /** Within a run, further class characters add nothing; a run ends at the first character
      outside the class. */
  lemma {:induction false} RunContinues(run: string, rest: string, k: RunClass)
    requires forall i | 0 <= i < |run| :: InRun(run[i], k)
    requires rest == [] || !InRun(rest[0], k)
    ensures Collapse(run + rest, k, true) == Collapse(rest, k, false)
  {
    if run == [] {
      assert run + rest == rest;
    } else {
      assert (run + rest)[0] == run[0] && (run + rest)[1..] == run[1..] + rest;
      assert forall i | 0 <= i < |run| - 1 :: run[1..][i] == run[i + 1];
      RunContinues(run[1..], rest, k);
    }
  }

  /** A run of class characters followed by something else collapses to a single `-`. */
  lemma RunCollapses(run: string, rest: string, k: RunClass)
    requires run != [] && forall i | 0 <= i < |run| :: InRun(run[i], k)
    requires rest == [] || !InRun(rest[0], k)
    ensures ReplaceRuns(run + rest, k) == "-" + ReplaceRuns(rest, k)
  {
    assert (run + rest)[1..] == run[1..] + rest;
    RunContinues(run[1..], rest, k);
  }

  /** A word character or `-`, or, while `spaces` holds, whitespace: with `spaces` these are
      the characters `replace(/[^\w\s-]/g, '')` lets through. */
  predicate SlugChar(c: char, spaces: bool) {
    IsWordChar(c) || c == '-' || (spaces && IsWhitespace(c))
  }

  lemma {:induction false} CollapseKeeps(s: string, k: RunClass, inRun: bool, spaces: bool)
    requires forall i | 0 <= i < |s| :: SlugChar(s[i], spaces)
    ensures forall i | 0 <= i < |Collapse(s, k, inRun)| :: SlugChar(Collapse(s, k, inRun)[i], spaces && k == Hyphens)
  {
    if s != [] {
      assert forall i | 0 <= i < |s| - 1 :: s[1..][i] == s[i + 1];
      CollapseKeeps(s[1..], k, InRun(s[0], k), spaces);
      var tail := Collapse(s[1..], k, InRun(s[0], k));
      var r := Collapse(s, k, inRun);
      if InRun(s[0], k) && inRun {
        assert r == tail;
      } else {
        var c := if InRun(s[0], k) then '-' else s[0];
        assert r == [c] + tail;
        assert SlugChar(c, spaces && k == Hyphens);
        forall i | 0 <= i < |r|
          ensures SlugChar(r[i], spaces && k == Hyphens)
        {
          if i > 0 {
            assert r[i] == tail[i - 1];
          }
        }
      }
    }
  }

  /** Collapsing runs introduces no new kind of character, and collapsing whitespace runs
      leaves no whitespace. */
  lemma ReplaceRunsKeeps(s: string, k: RunClass, spaces: bool)
    requires forall i | 0 <= i < |s| :: SlugChar(s[i], spaces)
    ensures var r := ReplaceRuns(s, k);
      forall i | 0 <= i < |r| :: SlugChar(r[i], spaces && k == Hyphens)
  {
    assert ReplaceRuns(s, k) == Collapse(s, k, false);
    CollapseKeeps(s, k, false, spaces);
  }

  /** No two adjacent hyphens. */
  predicate NoDoubleHyphen(s: string) {
    forall i | 0 <= i < |s| - 1 :: !(s[i] == '-' && s[i + 1] == '-')
  }

  /** Inside a hyphen run the scan never starts with `-`, and it never puts two hyphens side
      by side. */
  lemma {:induction false} CollapseNoDoubleHyphen(s: string, inRun: bool)
    ensures var r := Collapse(s, Hyphens, inRun);
      NoDoubleHyphen(r) && (inRun && r != [] ==> r[0] != '-')
  {
    if s != [] {
      var r := Collapse(s, Hyphens, inRun);
      var tail := Collapse(s[1..], Hyphens, s[0] == '-');
      CollapseNoDoubleHyphen(s[1..], s[0] == '-');
      if s[0] == '-' && !inRun {
        assert r == "-" + tail;
        assert forall i | 1 <= i < |r| :: r[i] == tail[i - 1];
      } else if s[0] != '-' {
        assert r == [s[0]] + tail;
        assert forall i | 1 <= i < |r| :: r[i] == tail[i - 1];
      }
    }
  }

  /** Collapsing hyphen runs leaves no two adjacent hyphens. */
  lemma ReplaceRunsNoDoubleHyphen(s: string)
    ensures NoDoubleHyphen(ReplaceRuns(s, Hyphens))
  {
    CollapseNoDoubleHyphen(s, false);
  }

  /** Class characters that are isolated hyphens are left as they are. */
  lemma {:induction false} CollapseUnchanged(s: string, k: RunClass, inRun: bool)
    requires forall i | 0 <= i < |s| && InRun(s[i], k) :: s[i] == '-'
    requires forall i | 0 <= i < |s| - 1 :: !(InRun(s[i], k) && InRun(s[i + 1], k))
    requires inRun ==> s == [] || !InRun(s[0], k)
    ensures Collapse(s, k, inRun) == s
  {
    if s != [] {
      assert forall i | 0 <= i < |s| - 1 :: s[1..][i] == s[i + 1];
      CollapseUnchanged(s[1..], k, InRun(s[0], k));
      assert s == [s[0]] + s[1..];
    }
  }

  /** A string whose class characters are isolated hyphens is left as it is. */
  lemma ReplaceRunsUnchanged(s: string, k: RunClass)
    requires forall i | 0 <= i < |s| && InRun(s[i], k) :: s[i] == '-'
    requires forall i | 0 <= i < |s| - 1 :: !(InRun(s[i], k) && InRun(s[i + 1], k))
    ensures ReplaceRuns(s, k) == s
  {
    CollapseUnchanged(s, k, false);
  }

  /** The part of `slugify` after lower-casing and diacritic removal: drop symbols, turn
      whitespace runs into `-`, collapse hyphen runs, trim. */
  function SlugOf(folded: string): string {
    Trim(ReplaceRuns(ReplaceRuns(StripSymbols(folded), Spaces), Hyphens))
  }

  /** `slugify(text)`. Lower-casing, NFD decomposition and the removal of combining marks
      depend on Unicode tables and are the parameter `fold`. */
  function Slugify(text: string, fold: string -> string): string {
    SlugOf(fold(text))
  }

  /** A slug holds only word characters and hyphens, so no whitespace, and never two hyphens
      in a row; the final `trim` finds nothing to remove, so hyphens at either end stay. */
  lemma SlugShape(text: string, fold: string -> string)
    ensures var slug := Slugify(text, fold);
      && (forall i | 0 <= i < |slug| :: IsWordChar(slug[i]) || slug[i] == '-')
      && NoDoubleHyphen(slug)
      && slug == ReplaceRuns(ReplaceRuns(StripSymbols(fold(text)), Spaces), Hyphens)
  {
    SlugOfShape(fold(text));
  }

  lemma SlugOfShape(folded: string)
    ensures var slug := SlugOf(folded);
      && (forall i | 0 <= i < |slug| :: IsWordChar(slug[i]) || slug[i] == '-')
      && NoDoubleHyphen(slug)
      && slug == ReplaceRuns(ReplaceRuns(StripSymbols(folded), Spaces), Hyphens)
  {
    var kept := StripSymbols(folded);
    var dashed := ReplaceRuns(kept, Spaces);
    var squashed := ReplaceRuns(dashed, Hyphens);
    ReplaceRunsKeeps(kept, Spaces, true);
    ReplaceRunsKeeps(dashed, Hyphens, false);
    ReplaceRunsNoDoubleHyphen(dashed);
    TrimUnchanged(squashed);
  }

  /** The final `trim` keeps leading and trailing hyphens: `" a "` becomes `"-a-"`. */
  lemma EdgeHyphensKept(fold: string -> string)
    requires fold(" a ") == " a "
    ensures Slugify(" a ", fold) == "-a-"
  {
    SpacedLetter();
  }

  lemma SpacedLetter()
    ensures SlugOf(" a ") == "-a-"
  {
    assert IsWordChar(" a "[1]);
    assert StripSymbols(" a ") == " a ";
    assert " a "[1..] == "a " && "a "[1..] == " " && " "[1..] == "";
    var dashed := ReplaceRuns(" a ", Spaces);
    assert dashed == "-a-";
    ReplaceRunsUnchanged(dashed, Hyphens);
    TrimUnchanged(dashed);
  }

  /** Slugifying a slug gives it back, when the Unicode folding leaves the slug alone (as it
      does for lower-case ASCII letters, digits, `_` and `-`). */
  lemma SlugifyIdempotent(text: string, fold: string -> string)
    requires fold(Slugify(text, fold)) == Slugify(text, fold)
    ensures Slugify(Slugify(text, fold), fold) == Slugify(text, fold)
  {
    SlugOfIdempotent(fold(text));
  }

  lemma SlugOfIdempotent(folded: string)
    ensures SlugOf(SlugOf(folded)) == SlugOf(folded)
  {
    var slug := SlugOf(folded);
    SlugOfShape(folded);
    assert StripSymbols(slug) == slug;
    ReplaceRunsUnchanged(slug, Spaces);
    ReplaceRunsUnchanged(slug, Hyphens);
    TrimUnchanged(slug);
  }
}
