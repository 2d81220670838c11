/**
 * Bellator's `loadSiteData`: assembles the engine's `SiteData` from the project's static
 * content, one home page with seven sections, and `getBellatorContent`, which hands out the
 * content itself.
 */
module BellatorLoader {
  import opened Wrappers
  import opened Json
  import opened Seqs
  import opened SiteData

  /** A navigation link of the content (`text` is its `label`); `extra` stands for any further
      property it has. */
  datatype ContentLink = ContentLink(text: string, href: string, extra: Record)

  /** The parts of `BellatorContent` the loader reads. */
  datatype BellatorContent = BellatorContent(
    siteName: string,
    siteDescription: string,
    siteUrl: string,
    siteContact: Value,
    homeMetaTitle: string,
    homeMetaDescription: string,
    hero: Record,
    programs: Record,
    coaches: Record,
    gallery: Record,
    membership: Record,
    testimonials: Record,
    contact: Record,
    navigationLinks: seq<ContentLink>)

  const SectionOrder: seq<string> := ["hero", "programs", "coaches", "gallery", "membership", "testimonials", "contact"]

  const PrimaryColor := "#FFB100"
  const SecondaryColor := "#000000"

  /** `content.navigation.links.map(link => ({ label: link.label, href: link.href }))` */
  function Navigation(links: seq<ContentLink>): (nav: seq<NavigationItem>)
    ensures |nav| == |links|
    ensures forall i | 0 <= i < |links| ::
      nav[i].text == links[i].text && nav[i].href == links[i].href && nav[i].children.None?
  {
    seq(|links|, i requires 0 <= i < |links| => NavigationItem(links[i].text, links[i].href, None))
  }

  /** The seven section kinds are pairwise different. */
  lemma SectionOrderDistinct()
    ensures NoDuplicates(SectionOrder)
  {
  }

  /** `loadSiteData()` */
  function LoadSiteData(content: BellatorContent): (data: Site)
    ensures |data.pages| == 1
    ensures var page := data.pages[0];
      && page.slug == "home"
      && page.title == content.homeMetaTitle
      && page.meta == Some(PageMeta(Some(content.homeMetaTitle), Some(content.homeMetaDescription), None))
      && Kinds(page.sections) == SectionOrder
      && IdsFollowKinds(page.sections)
      && UniqueIds(page.sections)
    ensures var s := data.pages[0].sections;
      && s[0].data == content.hero && s[1].data == content.programs && s[2].data == content.coaches
      && s[3].data == content.gallery && s[4].data == content.membership && s[5].data == content.testimonials
      && s[6].data == WithProperty(content.contact, "contactInfo", content.siteContact)
    ensures data.theme == ThemeConfig("base", Some(map["primary" := PrimaryColor, "secondary" := SecondaryColor]), None)
    ensures data.site == SiteInfo(content.siteName, Some(content.siteDescription), Some(content.siteUrl), None, map[])
    ensures data.navigation == Navigation(content.navigationLinks)
  {
    var sections := [
      MakeSection("hero", content.hero),
      MakeSection("programs", content.programs),
      MakeSection("coaches", content.coaches),
      MakeSection("gallery", content.gallery),
      MakeSection("membership", content.membership),
      MakeSection("testimonials", content.testimonials),
      MakeSection("contact", WithProperty(content.contact, "contactInfo", content.siteContact))
    ];
    assert Kinds(sections) == SectionOrder;
    SectionOrderDistinct();
    UniqueKindsGiveUniqueIds(sections);
    Site(
      SiteInfo(content.siteName, Some(content.siteDescription), Some(content.siteUrl), None, map[]),
      ThemeConfig("base", Some(map["primary" := PrimaryColor, "secondary" := SecondaryColor]), None),
      [Page("home", content.homeMetaTitle, sections,
            Some(PageMeta(Some(content.homeMetaTitle), Some(content.homeMetaDescription), None)))],
      Navigation(content.navigationLinks))
  }

  /** `getBellatorContent()`: the content object itself. */
  function GetBellatorContent(content: BellatorContent): (r: BellatorContent)
    ensures r == content
  {
    content
  }

  /** The contact section carries the site's contact details, under `contactInfo`, next to
      every property of the contact block other than `contactInfo`. */
  lemma ContactSectionCarriesSiteContact(content: BellatorContent)
    ensures var contact := LoadSiteData(GetBellatorContent(content)).pages[0].sections[6];
      && contact.kind == "contact" && contact.id == "contact-section"
      && contact.data["contactInfo"] == content.siteContact
      && forall k | k in content.contact && k != "contactInfo" :: contact.data[k] == content.contact[k]
  {
    var page := LoadSiteData(content).pages[0];
    assert Kinds(page.sections)[6] == "contact";
  }
}
