/**
 * Baseline's `LandingPage`: what a navigation click does (a route change, a scroll to an
 * element of the page, or nothing), the navigation links and call-to-action that dispatch
 * through it, and the feature cards with their icon fallback. The page's elements are given
 * as the set of selectors that find one.
 */
module LandingPage {
  import opened Wrappers
  import opened Strings
  import opened Json

  /** What `handleNavClick` does. */
  datatype NavAction = Navigate(path: string) | ScrollTo(selector: string) | NoAction

  /** `handleNavClick(href)`: a route first, then a hash link whose element exists. */
  function HandleNavClick(href: string, elements: set<string>): (action: NavAction)
    ensures action.Navigate? <==> StartsWith(href, "/")
    ensures action.ScrollTo? <==> StartsWith(href, "#") && href in elements
    ensures action.Navigate? ==> action.path == href
    ensures action.ScrollTo? ==> action.selector == href
  {
    if StartsWith(href, "/") then Navigate(href)
    else if StartsWith(href, "#") then
      if href in elements then ScrollTo(href) else NoAction
    else NoAction
  }

  /** Any other link, and a hash link whose element is missing, does nothing. */
  lemma OtherLinksDoNothing(href: string, elements: set<string>)
    requires !StartsWith(href, "/") && !(StartsWith(href, "#") && href in elements)
    ensures HandleNavClick(href, elements) == NoAction
  {
  }

  /** A navigation link of the content (`text` is its `label`). */
  datatype ContentLink = ContentLink(text: string, href: string, extra: map<string, Value>)

  /** A link as handed to the template: the content link's properties and a click handler,
      represented by the href it dispatches. */
  datatype NavLink = NavLink(text: string, href: string, extra: map<string, Value>, dispatches: string)

  /** `content.navigation.links.map(link => ({ ...link, onClick: () => handleNavClick(link.href) }))` */
  function NavLinks(links: seq<ContentLink>): (r: seq<NavLink>)
    ensures |r| == |links|
    ensures forall i | 0 <= i < |links| ::
      r[i].text == links[i].text && r[i].href == links[i].href && r[i].extra == links[i].extra
  {
    seq(|links|, i requires 0 <= i < |links| => NavLink(links[i].text, links[i].href, links[i].extra, links[i].href))
  }

  function ClickLink(link: NavLink, elements: set<string>): NavAction {
    HandleNavClick(link.dispatches, elements)
  }

  /** Clicking a link does what its own href asks for. */
  lemma LinkDispatchesOwnHref(links: seq<ContentLink>, i: nat, elements: set<string>)
    requires i < |links|
    ensures ClickLink(NavLinks(links)[i], elements) == HandleNavClick(links[i].href, elements)
  {
  }

  const ContactAnchor := "#contact"

  /** The navigation call-to-action: its text, and the href its click dispatches. */
  datatype Cta = Cta(text: string, dispatches: string)

  function NavigationCta(ctaText: string): Cta {
    Cta(ctaText, ContactAnchor)
  }

  /** The call-to-action scrolls to the contact section when the page has one, and does
      nothing otherwise; it never changes the route. */
  lemma CtaScrollsToContact(ctaText: string, elements: set<string>)
    ensures var action := HandleNavClick(NavigationCta(ctaText).dispatches, elements);
      && (ContactAnchor in elements ==> action == ScrollTo(ContactAnchor))
      && (ContactAnchor !in elements ==> action == NoAction)
  {
    assert StartsWith(ContactAnchor, "#");
    assert !StartsWith(ContactAnchor, "/");
  }

  /** The icons of the page's `iconMap`. */
  datatype Icon = Zap | Shield | TrendingUp | Users | Target | Award

  function IconName(icon: Icon): string {
    match icon
    case Zap => "Zap"
    case Shield => "Shield"
    case TrendingUp => "TrendingUp"
    case Users => "Users"
    case Target => "Target"
    case Award => "Award"
  }

  /** `iconMap[name]`: defined for the six icon names only. */
  function IconMap(name: string): (icon: Option<Icon>)
    ensures icon.Some? ==> IconName(icon.value) == name
  {
    if name == "Zap" then Some(Zap)
    else if name == "Shield" then Some(Shield)
    else if name == "TrendingUp" then Some(TrendingUp)
    else if name == "Users" then Some(Users)
    else if name == "Target" then Some(Target)
    else if name == "Award" then Some(Award)
    else None
  }

  /** `iconMap[feature.iconName] || Zap`: the icon of that name, and `Zap` for a name that is
      no icon's. */
  function IconFor(name: string): (icon: Icon)
    ensures (exists other: Icon :: IconName(other) == name) ==> IconName(icon) == name
    ensures (forall other: Icon :: IconName(other) != name) ==> icon == Zap
  {
    IconMap(name).GetOr(Zap)
  }

  datatype FeatureSource = FeatureSource(iconName: string, title: string, description: string)
  datatype FeatureCard = FeatureCard(icon: Icon, title: string, description: string)

  /** `content.features.items.map(...)` */
  function FeatureCards(items: seq<FeatureSource>): (cards: seq<FeatureCard>)
    ensures |cards| == |items|
    ensures forall i | 0 <= i < |items| ::
      && cards[i].title == items[i].title && cards[i].description == items[i].description
      && cards[i].icon == IconFor(items[i].iconName)
  {
    if items == [] then []
    else [FeatureCard(IconFor(items[0].iconName), items[0].title, items[0].description)] + FeatureCards(items[1..])
  }
}
