/**
 * What Bellator's `GymHero` and `SplitHeroBellatorGym` have in common: the heading, where the
 * title is split on single spaces, every word but the last is rendered followed by one space
 * and the last word is rendered highlighted; and the elements a hero renders, most of them
 * only when their prop is given.
 */
module HeroParts {
  import opened Wrappers
  import opened Strings

  /** One `React.Fragment` of the heading. */
  datatype Fragment = Plain(word: string) | Highlighted(word: string)

  /** The text a fragment contributes: `<>{word} </>` or `<span>{word}</span>`. */
  function FragmentText(f: Fragment): string {
    match f
    case Plain(w) => w + " "
    case Highlighted(w) => w
  }

  /** `words.map((word, index) => index === words.length - 1 ? <highlighted> : <plain>)` */
  function Fragments(words: seq<string>): (frags: seq<Fragment>)
    ensures |frags| == |words|
    ensures forall i | 0 <= i < |words| :: frags[i].word == words[i]
    ensures forall i | 0 <= i < |words| :: frags[i].Highlighted? <==> i == |words| - 1
  {
    seq(|words|, i requires 0 <= i < |words| => if i == |words| - 1 then Highlighted(words[i]) else Plain(words[i]))
  }

  /** The heading of a title: one fragment per `title.split(' ')` piece, exactly the last one
      highlighted. */
  function TitleFragments(title: string): (frags: seq<Fragment>)
    ensures |frags| == |Split(title, ' ')| && |frags| >= 1
    ensures forall i | 0 <= i < |frags| :: frags[i].word == Split(title, ' ')[i]
    ensures forall i | 0 <= i < |frags| :: frags[i].Highlighted? <==> i == |frags| - 1
  {
    Fragments(Split(title, ' '))
  }

  /** The heading's text: its fragments' texts, in order. */
  function Text(frags: seq<Fragment>): string {
    if frags == [] then [] else FragmentText(frags[0]) + Text(frags[1..])
  }

  lemma {:induction false} FragmentsText(words: seq<string>)
    requires |words| >= 1
    ensures Text(Fragments(words)) == Join(words, ' ')
  {
    var frags := Fragments(words);
    if |words| > 1 {
      FragmentsText(words[1..]);
      assert frags[1..] == Fragments(words[1..]);
      assert frags[0] == Plain(words[0]);
    }
  }

  /** The heading reads exactly as the title: the fragments concatenate back to it. */
  lemma HeadingReadsTitle(title: string)
    ensures Text(TitleFragments(title)) == title
  {
    FragmentsText(Split(title, ' '));
    JoinSplit(title, ' ');
  }

  /** A title without a space is one highlighted fragment. */
  lemma SingleWordTitle(title: string)
    requires ' ' !in title
    ensures TitleFragments(title) == [Highlighted(title)]
  {
    SplitWithoutSeparator(title, ' ');
  }

  /** A call-to-action prop; its `onClick` is not modelled. */
  datatype Cta = Cta(text: string)

  /** What a hero renders, in document order; the styling is not modelled. */
  datatype Element =
    | Image(src: string, alt: string)
    | Badge(text: string)
    | Heading(fragments: seq<Fragment>)
    | Description(text: string)
    | PrimaryButton(caption: string)
    | SecondaryButton(caption: string)

  /** An element's place in a hero's layout: image, badge, heading, description, then the two
      buttons, the secondary one first when `secondaryFirst`. */
  function Rank(e: Element, secondaryFirst: bool): nat {
    match e
    case Image(_, _) => 0
    case Badge(_) => 1
    case Heading(_) => 2
    case Description(_) => 3
    case PrimaryButton(_) => if secondaryFirst then 5 else 4
    case SecondaryButton(_) => if secondaryFirst then 4 else 5
  }

  /** Strictly increasing ranks: every kind of element at most once, in layout order. */
  predicate InLayoutOrder(r: seq<Element>, secondaryFirst: bool) {
    forall i, j | 0 <= i < j < |r| :: Rank(r[i], secondaryFirst) < Rank(r[j], secondaryFirst)
  }

  /** Every element ranks below `bound`. */
  predicate RanksBelow(r: seq<Element>, bound: nat, secondaryFirst: bool) {
    forall i | 0 <= i < |r| :: Rank(r[i], secondaryFirst) < bound
  }

  /** Appending a part of at most one element, ranked from `lo` up to below `hi`, to elements
      ranked below `lo` keeps the order. */
  lemma AppendInOrder(r: seq<Element>, part: seq<Element>, lo: nat, hi: nat, secondaryFirst: bool)
    requires InLayoutOrder(r, secondaryFirst) && RanksBelow(r, lo, secondaryFirst)
    requires |part| <= 1 && (|part| == 1 ==> lo <= Rank(part[0], secondaryFirst) < hi)
    requires lo <= hi
    ensures InLayoutOrder(r + part, secondaryFirst) && RanksBelow(r + part, hi, secondaryFirst)
  {
    var all := r + part;
    forall i, j | 0 <= i < j < |all|
      ensures Rank(all[i], secondaryFirst) < Rank(all[j], secondaryFirst)
    {
      if j >= |r| {
        assert all[j] == part[0];
        assert all[i] == r[i];
      } else {
        assert all[i] == r[i] && all[j] == r[j];
      }
    }
    forall i | 0 <= i < |all|
      ensures Rank(all[i], secondaryFirst) < hi
    {
      if i >= |r| {
        assert all[i] == part[0];
      } else {
        assert all[i] == r[i];
      }
    }
  }

  /** `{s && ...}` on an optional string: rendered when given and non-empty. */
  predicate Shown(s: Option<string>) {
    s.Some? && s.value != ""
  }

  /** The badge for an optional subtitle, if it is shown. */
  function BadgeOf(s: Option<string>): seq<Element> {
    if Shown(s) then [Badge(s.value)] else []
  }

  /** The paragraph for an optional description, if it is shown. */
  function DescriptionOf(s: Option<string>): seq<Element> {
    if Shown(s) then [Description(s.value)] else []
  }

  /** The primary button for an optional call-to-action, if it is given. */
  function PrimaryOf(cta: Option<Cta>): seq<Element> {
    if cta.Some? then [PrimaryButton(cta.value.text)] else []
  }

  /** The secondary button for an optional call-to-action, if it is given. */
  function SecondaryOf(cta: Option<Cta>): seq<Element> {
    if cta.Some? then [SecondaryButton(cta.value.text)] else []
  }
}
