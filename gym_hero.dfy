/**
 * Bellator's `GymHero`: a full-screen hero with a background image, an optional badge, the
 * heading with its last word highlighted, an optional description and up to two buttons.
 */
module GymHero {
  import opened Wrappers
  import opened HeroParts

  /** `GymHeroProps`, without the click handlers and the class name. */
  datatype GymHeroProps = GymHeroProps(
    title: string,
    subtitle: Option<string>,
    description: Option<string>,
    image: string,
    cta: Option<Cta>,
    secondaryCTA: Option<Cta>)

  const ImageAlt := "Bellator Gym"

  /** The rendered elements in document order. */
  function Render(p: GymHeroProps): (r: seq<Element>)
    ensures |r| >= 2 && r[0] == Image(p.image, ImageAlt)
    ensures forall i | 1 <= i < |r| :: !r[i].Image?
    ensures Heading(TitleFragments(p.title)) in r
    ensures forall e | e in r && e.Heading? :: e == Heading(TitleFragments(p.title))
  {
    [Image(p.image, ImageAlt)]
    + BadgeOf(p.subtitle)
    + [Heading(TitleFragments(p.title))]
    + DescriptionOf(p.description)
    + PrimaryOf(p.cta)
    + SecondaryOf(p.secondaryCTA)
  }

  /** The badge, the description and each button appear exactly when their prop is given,
      with its text. */
  lemma OptionalElements(p: GymHeroProps)
    ensures var r := Render(p);
      && (forall t :: Badge(t) in r <==> Shown(p.subtitle) && t == p.subtitle.value)
      && (forall t :: Description(t) in r <==> Shown(p.description) && t == p.description.value)
      && (forall t :: PrimaryButton(t) in r <==> p.cta == Some(Cta(t)))
      && (forall t :: SecondaryButton(t) in r <==> p.secondaryCTA == Some(Cta(t)))
  {
  }

  /** The badge comes before the heading, and the primary button before the secondary one. */
  lemma DocumentOrder(p: GymHeroProps, i: nat, j: nat)
    requires i < |Render(p)| && j < |Render(p)|
    requires (Render(p)[i].Badge? && Render(p)[j].Heading?) || (Render(p)[i].PrimaryButton? && Render(p)[j].SecondaryButton?)
    ensures i < j
  {
  }

  /** Nothing is rendered twice and nothing out of place: the image, the badge, the heading,
      the description, the primary and the secondary button, each at most once and in that
      order, so the heading precedes the description and both buttons. */
  lemma ElementsInOrder(p: GymHeroProps)
    ensures InLayoutOrder(Render(p), false)
  {
    var r0 := [Image(p.image, ImageAlt)];
    var r1 := r0 + BadgeOf(p.subtitle);
    AppendInOrder(r0, BadgeOf(p.subtitle), 1, 2, false);
    var r2 := r1 + [Heading(TitleFragments(p.title))];
    AppendInOrder(r1, [Heading(TitleFragments(p.title))], 2, 3, false);
    var r3 := r2 + DescriptionOf(p.description);
    AppendInOrder(r2, DescriptionOf(p.description), 3, 4, false);
    var r4 := r3 + PrimaryOf(p.cta);
    AppendInOrder(r3, PrimaryOf(p.cta), 4, 5, false);
    AppendInOrder(r4, SecondaryOf(p.secondaryCTA), 5, 6, false);
  }
}
