/**
 * Bellator's `SplitHeroBellatorGym`: two hero halves side by side, the gym on the left and the
 * squash court on the right. Each half has a background image, an optional badge, a heading
 * with its last word highlighted, an optional description and up to two buttons; the squash
 * half puts its secondary button first.
 */
module SplitHero {
  import opened Wrappers
  import opened HeroParts

  /** `HeroSideProps`, without the click handlers. */
  datatype HeroSideProps = HeroSideProps(
    title: string,
    subtitle: Option<string>,
    description: Option<string>,
    image: string,
    cta: Option<Cta>,
    secondaryCTA: Option<Cta>)

  datatype Side = GymSide | SquashSide

  const GymAlt := "Bellator Gym facility"
  const SquashAlt := "Bellator Squash court"

  function DefaultAlt(side: Side): string {
    match side
    case GymSide => GymAlt
    case SquashSide => SquashAlt
  }

  /** `side.subtitle || '<default>'`: the subtitle when it is a non-empty string. */
  function AltText(p: HeroSideProps, side: Side): (alt: string)
    ensures Shown(p.subtitle) ==> alt == p.subtitle.value
    ensures !Shown(p.subtitle) ==> alt == DefaultAlt(side)
    ensures alt != ""
  {
    match p.subtitle
    case Some(s) => if s != "" then s else DefaultAlt(side)
    case None => DefaultAlt(side)
  }

  /** One half's elements in document order. */
  function RenderSide(p: HeroSideProps, side: Side): (r: seq<Element>)
    ensures |r| >= 2 && r[0] == Image(p.image, AltText(p, side))
    ensures Heading(TitleFragments(p.title)) in r
    ensures forall e | e in r && e.Heading? :: e == Heading(TitleFragments(p.title))
  {
    var head := [Image(p.image, AltText(p, side))]
      + BadgeOf(p.subtitle)
      + [Heading(TitleFragments(p.title))]
      + DescriptionOf(p.description);
    var primary := PrimaryOf(p.cta);
    var secondary := SecondaryOf(p.secondaryCTA);
    match side
    case GymSide => head + primary + secondary
    case SquashSide => head + secondary + primary
  }

  /** On either half, the badge, the description and each button appear exactly when their
      prop is given, with its text. */
  lemma OptionalElements(p: HeroSideProps, side: Side)
    ensures var r := RenderSide(p, side);
      && (forall t :: Badge(t) in r <==> Shown(p.subtitle) && t == p.subtitle.value)
      && (forall t :: Description(t) in r <==> Shown(p.description) && t == p.description.value)
      && (forall t :: PrimaryButton(t) in r <==> p.cta == Some(Cta(t)))
      && (forall t :: SecondaryButton(t) in r <==> p.secondaryCTA == Some(Cta(t)))
  {
  }

  /** Nothing is rendered twice and nothing out of place: the image, the badge, the heading,
      the description, then the two buttons in the half's own order, each at most once. */
  lemma ElementsInOrder(p: HeroSideProps, side: Side)
    ensures InLayoutOrder(RenderSide(p, side), side == SquashSide)
  {
    var sf := side == SquashSide;
    var r0 := [Image(p.image, AltText(p, side))];
    var r1 := r0 + BadgeOf(p.subtitle);
    AppendInOrder(r0, BadgeOf(p.subtitle), 1, 2, sf);
    var r2 := r1 + [Heading(TitleFragments(p.title))];
    AppendInOrder(r1, [Heading(TitleFragments(p.title))], 2, 3, sf);
    var head := r2 + DescriptionOf(p.description);
    AppendInOrder(r2, DescriptionOf(p.description), 3, 4, sf);
    var primary, secondary := PrimaryOf(p.cta), SecondaryOf(p.secondaryCTA);
    if sf {
      AppendInOrder(head, secondary, 4, 5, sf);
      AppendInOrder(head + secondary, primary, 5, 6, sf);
    } else {
      AppendInOrder(head, primary, 4, 5, sf);
      AppendInOrder(head + primary, secondary, 5, 6, sf);
    }
  }
  /** The whole section: the gym half, then the squash half. */
  function Render(gym: HeroSideProps, squash: HeroSideProps): seq<Element> {
    RenderSide(gym, GymSide) + RenderSide(squash, SquashSide)
  }

  /** The gym half puts its primary button first, the squash half its secondary one. */
  lemma ButtonOrder(p: HeroSideProps, side: Side, i: nat, j: nat)
    requires i < |RenderSide(p, side)| && j < |RenderSide(p, side)|
    requires RenderSide(p, side)[i].PrimaryButton? && RenderSide(p, side)[j].SecondaryButton?
    ensures side == GymSide ==> i < j
    ensures side == SquashSide ==> j < i
  {
  }

  /** Each half's heading reads as its own title. */
  lemma HeadingsReadTitles(gym: HeroSideProps, squash: HeroSideProps)
    ensures Heading(TitleFragments(gym.title)) in RenderSide(gym, GymSide)
    ensures Heading(TitleFragments(squash.title)) in RenderSide(squash, SquashSide)
    ensures Text(TitleFragments(gym.title)) == gym.title
    ensures Text(TitleFragments(squash.title)) == squash.title
  {
    HeadingReadsTitle(gym.title);
    HeadingReadsTitle(squash.title);
  }
}
