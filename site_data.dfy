/**
 * The engine's data contract (`SiteData.ts`): a site, its theme, its pages made of typed
 * sections, and its navigation. Section payloads are JSON-like records.
 */
module SiteData {
  import opened Wrappers
  import opened Json
  import opened Seqs

  type Record = map<string, Value>

  /** `SiteInfo`; `extra` holds the properties a project's own `SiteInfo` adds (its contact
      and social blocks). */
  datatype SiteInfo = SiteInfo(
    name: string,
    description: Option<string>,
    url: Option<string>,
    logo: Option<string>,
    extra: Record)

  datatype ThemeConfig = ThemeConfig(
    name: string,
    colors: Option<map<string, string>>,
    fonts: Option<map<string, string>>)

  datatype PageMeta = PageMeta(
    title: Option<string>,
    description: Option<string>,
    keywords: Option<seq<string>>)

  /** `Section`; `kind` is the TypeScript `type` property. */
  datatype Section = Section(kind: string, id: string, data: Record)

  datatype Page = Page(slug: string, title: string, sections: seq<Section>, meta: Option<PageMeta>)

  /** `NavigationItem`; `text` is its `label`. */
  datatype NavigationItem = NavigationItem(text: string, href: string, children: Option<seq<NavigationItem>>)

  datatype Site = Site(site: SiteInfo, theme: ThemeConfig, pages: seq<Page>, navigation: seq<NavigationItem>)

  /** The id the loaders give a section of a kind: `<type>-section`. */
  function SectionId(kind: string): string {
    kind + "-section"
  }

  /** Different kinds give different ids. */
  lemma SectionIdInjective(a: string, b: string)
    requires SectionId(a) == SectionId(b)
    ensures a == b
  {
    assert |a| == |b|;
    assert a == SectionId(a)[..|a|];
    assert b == SectionId(b)[..|b|];
  }

  /** The section the loaders write for a kind and its payload. */
  function MakeSection(kind: string, data: Record): (s: Section)
    ensures s.kind == kind && s.id == SectionId(kind) && s.data == data
  {
    Section(kind, SectionId(kind), data)
  }

  function Kinds(sections: seq<Section>): (kinds: seq<string>)
    ensures |kinds| == |sections|
    ensures forall i | 0 <= i < |sections| :: kinds[i] == sections[i].kind
  {
    seq(|sections|, i requires 0 <= i < |sections| => sections[i].kind)
  }

  /** Every section's id is derived from its kind. */
  predicate IdsFollowKinds(sections: seq<Section>) {
    forall i | 0 <= i < |sections| :: sections[i].id == SectionId(sections[i].kind)
  }

  /** No two sections of the page share an id. */
  predicate UniqueIds(sections: seq<Section>) {
    forall i, j | 0 <= i < j < |sections| :: sections[i].id != sections[j].id
  }

  /** Ids derived from pairwise different kinds are pairwise different: nothing but this
      derivation keeps the ids of a page apart. */
  lemma UniqueKindsGiveUniqueIds(sections: seq<Section>)
    requires IdsFollowKinds(sections) && NoDuplicates(Kinds(sections))
    ensures UniqueIds(sections)
  {
    forall i, j | 0 <= i < j < |sections|
      ensures sections[i].id != sections[j].id
    {
      if sections[i].id == sections[j].id {
        SectionIdInjective(sections[i].kind, sections[j].kind);
      }
    }
  }

  /** `{ ...block, key: value }`: the block's properties with one added or replaced. */
  function WithProperty(block: Record, key: string, value: Value): (r: Record)
    ensures r.Keys == block.Keys + {key} && r[key] == value
    ensures forall k | k in block && k != key :: r[k] == block[k]
  {
    block[key := value]
  }
}
