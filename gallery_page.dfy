/**
 * Baseline's `GalleryPage`: it turns the feature-highlight content into the items and the
 * optional call-to-action buttons the `FeatureHighlight` organism takes.
 */
module GalleryPage {
  import opened Wrappers

  /** The icons of the page's `iconMap`. */
  datatype Icon = Sparkles | Lock | Zap | Globe

  function IconName(icon: Icon): string {
    match icon
    case Sparkles => "Sparkles"
    case Lock => "Lock"
    case Zap => "Zap"
    case Globe => "Globe"
  }

  /** `iconMap[name]`: defined for the four icon names only. */
  function IconMap(name: string): (icon: Option<Icon>)
    ensures icon.Some? ==> IconName(icon.value) == name
  {
    if name == "Sparkles" then Some(Sparkles)
    else if name == "Lock" then Some(Lock)
    else if name == "Zap" then Some(Zap)
    else if name == "Globe" then Some(Globe)
    else None
  }

  /** `iconMap[feature.iconName] || Sparkles`: the icon of that name, and `Sparkles` for a
      name that is no icon's. */
  function IconFor(name: string): (icon: Icon)
    ensures (exists other: Icon :: IconName(other) == name) ==> IconName(icon) == name
    ensures (forall other: Icon :: IconName(other) != name) ==> icon == Sparkles
  {
    IconMap(name).GetOr(Sparkles)
  }

  datatype FeatureSource = FeatureSource(iconName: string, text: string)
  datatype FeatureItem = FeatureItem(icon: Icon, text: string)

  /** `featureHighlight.features.map(...)` */
  function Features(features: seq<FeatureSource>): (items: seq<FeatureItem>)
    ensures |items| == |features|
    ensures forall i | 0 <= i < |features| ::
      items[i].text == features[i].text && items[i].icon == IconFor(features[i].iconName)
  {
    if features == [] then []
    else [FeatureItem(IconFor(features[0].iconName), features[0].text)] + Features(features[1..])
  }

  datatype ActionSource = ActionSource(text: string, href: string)
  datatype ActionsSource = ActionsSource(primary: Option<ActionSource>, secondary: Option<ActionSource>)

  datatype Variant = PrimaryVariant | SecondaryVariant
  datatype Action = Action(caption: string, href: string, variant: Variant)
  datatype Actions = Actions(primaryAction: Option<Action>, secondaryAction: Option<Action>)

  function ToAction(source: Option<ActionSource>, variant: Variant): (action: Option<Action>)
    ensures action.Some? <==> source.Some?
    ensures action.Some? ==> action.value == Action(source.value.text, source.value.href, variant)
  {
    match source
    case None => None
    case Some(a) => Some(Action(a.text, a.href, variant))
  }

  /** `actions`: absent when the content has none; otherwise each button is present exactly
      when its content is, as a `primary` or a `secondary` variant. */
  function DeriveActions(actions: Option<ActionsSource>): (r: Option<Actions>)
    ensures r.None? <==> actions.None?
    ensures r.Some? ==>
      && r.value.primaryAction == ToAction(actions.value.primary, PrimaryVariant)
      && r.value.secondaryAction == ToAction(actions.value.secondary, SecondaryVariant)
  {
    match actions
    case None => None
    case Some(a) => Some(Actions(ToAction(a.primary, PrimaryVariant), ToAction(a.secondary, SecondaryVariant)))
  }

  function ToSource(action: Option<Action>): Option<ActionSource> {
    match action
    case None => None
    case Some(a) => Some(ActionSource(a.caption, a.href))
  }

  /** The buttons lose nothing of the content: reading back their captions and targets gives
      the content's actions, and every button has the variant of its slot. */
  lemma ActionsRoundTrip(actions: Option<ActionsSource>)
    requires actions.Some?
    ensures var r := DeriveActions(actions).value;
      && ActionsSource(ToSource(r.primaryAction), ToSource(r.secondaryAction)) == actions.value
      && (r.primaryAction.Some? ==> r.primaryAction.value.variant == PrimaryVariant)
      && (r.secondaryAction.Some? ==> r.secondaryAction.value.variant == SecondaryVariant)
  {
  }
}
