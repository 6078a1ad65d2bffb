/** The `SourceCategorySection` component: one category of the sources page, headed by the
    category's name and listing a card per source. */
module SourceCategorySection {
  import opened Wrappers
  import opened Js
  import opened Database
  import SourceCardView

  const SectionPrefix: string := "category-"

  /** The section's DOM id, which the sidebar observes and scrolls to. */
  function SectionId(slug: string): (id: string)
    ensures StartsWith(id, SectionPrefix) && id[|SectionPrefix|..] == slug
  {
    StartsWithConcat(SectionPrefix, slug);
    SectionPrefix + slug
  }

  /** Two categories get the same section id only when they have the same slug. */
  lemma SectionIdInjective(a: string, b: string)
    ensures SectionId(a) == SectionId(b) ==> a == b
  {
    if SectionId(a) == SectionId(b) {
      calc {
        a;
        SectionId(a)[|SectionPrefix|..];
        SectionId(b)[|SectionPrefix|..];
        b;
      }
    }
  }

  /** `sources.map(SourceCard)`: one card per source, in order; None when a card throws. */
  function RenderCards(sources: seq<Source>): (cards: Option<seq<SourceCardView.CardView>>)
    ensures cards.Some? <==> forall k :: 0 <= k < |sources| ==> sources[k].sourceType.Some?
    ensures cards.Some? ==> |cards.value| == |sources|
    ensures cards.Some? ==> forall k :: 0 <= k < |sources| ==>
              Some(cards.value[k]) == SourceCardView.RenderCard(sources[k])
  {
    if forall k :: 0 <= k < |sources| ==> sources[k].sourceType.Some? then
      Some(seq(|sources|, k requires 0 <= k < |sources| => SourceCardView.RenderCard(sources[k]).value))
    else None
  }

  datatype SectionView = SectionView(
    id: string,
    heading: string,
    description: Option<string>,
    cards: seq<SourceCardView.CardView>)

  /** What the component produces. */
  datatype Rendering = Nothing | Throws | Shown(view: SectionView)

  /** An empty list renders nothing; otherwise the section, with the heading, the description
      when it is set, and the cards. */
  function RenderSection(category: SourceCategory, sources: seq<Source>): (r: Rendering)
    ensures r.Nothing? <==> sources == []
    ensures r.Throws? <==> sources != [] && RenderCards(sources).None?
    ensures r.Shown? ==> r.view.id == SectionId(category.slug)
    ensures r.Shown? ==> r.view.heading == category.name
    ensures r.Shown? ==> (r.view.description.Some? <==> StrTruthy(category.description))
    ensures r.Shown? && r.view.description.Some? ==> r.view.description == category.description
    ensures r.Shown? ==> Some(r.view.cards) == RenderCards(sources)
  {
    if |sources| == 0 then Nothing
    else
      var cards := RenderCards(sources);
      if cards.None? then Throws
      else Shown(SectionView(
        SectionId(category.slug),
        category.name,
        if StrTruthy(category.description) then category.description else None,
        cards.value))
  }

  /** A rendered section holds one card per source, each with the source's slug as its id,
      in the order of the list. */
  lemma SectionCardsFollowSources(category: SourceCategory, sources: seq<Source>)
    requires RenderSection(category, sources).Shown?
    ensures var cards := RenderSection(category, sources).view.cards;
            |cards| == |sources| && forall k :: 0 <= k < |sources| ==> cards[k].id == sources[k].slug
  {
    var cards := RenderSection(category, sources).view.cards;
    forall k | 0 <= k < |sources| ensures cards[k].id == sources[k].slug {
      assert Some(cards[k]) == SourceCardView.RenderCard(sources[k]);
    }
  }
}
