/**
 * Baseline's `loadSiteData`: assembles the engine's `SiteData` from the site configuration,
 * the page content and the gallery configuration, one home page with five sections, and
 * `getBaselineData`, which hands out the three configurations themselves.
 */
module BaselineLoader {
  import opened Wrappers
  import opened Json
  import opened Seqs
  import opened SiteData

  /** `siteConfig` */
  datatype SiteConfig = SiteConfig(
    name: string,
    description: string,
    url: string,
    contact: Value,
    social: Value,
    colors: map<string, string>,
    fonts: map<string, string>)

  /** The parts of `baselineContent` the loader reads. */
  datatype BaselineContent = BaselineContent(
    navigationLinks: seq<NavigationItem>,
    hero: Record,
    features: Record,
    about: Record,
    gallery: Record,
    contact: Record)

  /** `galleryConfig` */
  datatype GalleryConfig = GalleryConfig(images: Value)

  const SectionOrder: seq<string> := ["hero", "features", "about", "gallery", "contact"]

  /** `` `${siteConfig.name} - ${siteConfig.description}` `` */
  function PageTitle(site: SiteConfig): (title: string)
    ensures |title| == |site.name| + 3 + |site.description|
    ensures title[..|site.name|] == site.name
    ensures title[|site.name|..|site.name| + 3] == " - "
    ensures title[|site.name| + 3..] == site.description
  {
    site.name + " - " + site.description
  }

  /** The five section kinds are pairwise different. */
  lemma SectionOrderDistinct()
    ensures NoDuplicates(SectionOrder)
  {
  }

  /** `loadSiteData()` */
  function LoadSiteData(site: SiteConfig, content: BaselineContent, gallery: GalleryConfig): (data: Site)
    ensures |data.pages| == 1
    ensures var page := data.pages[0];
      && page.slug == "home"
      && page.title == PageTitle(site)
      && page.meta == Some(PageMeta(Some(PageTitle(site)), Some(site.description), None))
      && Kinds(page.sections) == SectionOrder
      && IdsFollowKinds(page.sections)
      && UniqueIds(page.sections)
    ensures var s := data.pages[0].sections;
      && s[0].data == content.hero && s[1].data == content.features && s[2].data == content.about
      && s[3].data == WithProperty(content.gallery, "images", gallery.images)
      && s[4].data == WithProperty(content.contact, "contactInfo", site.contact)
    ensures data.theme == ThemeConfig("base", Some(site.colors), Some(site.fonts))
    ensures data.site == SiteInfo(site.name, Some(site.description), Some(site.url), None,
      map["contact" := site.contact, "social" := site.social])
    ensures data.navigation == content.navigationLinks
  {
    var sections := [
      MakeSection("hero", content.hero),
      MakeSection("features", content.features),
      MakeSection("about", content.about),
      MakeSection("gallery", WithProperty(content.gallery, "images", gallery.images)),
      MakeSection("contact", WithProperty(content.contact, "contactInfo", site.contact))
    ];
    assert Kinds(sections) == SectionOrder;
    SectionOrderDistinct();
    UniqueKindsGiveUniqueIds(sections);
    Site(
      SiteInfo(site.name, Some(site.description), Some(site.url), None,
        map["contact" := site.contact, "social" := site.social]),
      ThemeConfig("base", Some(site.colors), Some(site.fonts)),
      [Page("home", PageTitle(site), sections,
            Some(PageMeta(Some(PageTitle(site)), Some(site.description), None)))],
      content.navigationLinks)
  }

  datatype BaselineData = BaselineData(site: SiteConfig, content: BaselineContent, gallery: GalleryConfig)

  /** `getBaselineData()`: the three configurations, unchanged. */
  function GetBaselineData(site: SiteConfig, content: BaselineContent, gallery: GalleryConfig): (r: BaselineData)
    ensures r.site == site && r.content == content && r.gallery == gallery
  {
    BaselineData(site, content, gallery)
  }

  /** The gallery section shows the gallery configuration's images and the contact section
      the site's contact details, each next to the rest of its content block. */
  lemma SectionsCarryConfiguration(site: SiteConfig, content: BaselineContent, gallery: GalleryConfig)
    ensures var s := LoadSiteData(site, content, gallery).pages[0].sections;
      && s[3].id == "gallery-section" && s[3].data["images"] == gallery.images
      && (forall k | k in content.gallery && k != "images" :: s[3].data[k] == content.gallery[k])
      && s[4].id == "contact-section" && s[4].data["contactInfo"] == site.contact
      && (forall k | k in content.contact && k != "contactInfo" :: s[4].data[k] == content.contact[k])
  {
    var s := LoadSiteData(site, content, gallery).pages[0].sections;
    assert Kinds(s)[3] == "gallery" && Kinds(s)[4] == "contact";
  }
}
