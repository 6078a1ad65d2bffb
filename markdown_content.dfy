/** How `MarkdownContent` renders links and code: a link into the sources page becomes an
    inline citation, every other link opens in a new tab, and code is inline unless it carries a
    language class. */
module MarkdownContent {
  import opened Wrappers
  import opened Js
  import CitationComponent

  const LinkClass: string := "text-secondary underline hover:text-secondary/80"
  const InlineCodeClass: string := "rounded bg-muted px-1 py-0.5 font-mono text-sm"
  const BlockCodeClass: string := "block rounded bg-muted p-4 font-mono text-sm overflow-x-auto"

  /** What an `a` element of the markdown becomes. `attributes` are the anchor's attributes other
      than `href`; the children pass through either way and are left out. */
  datatype AnchorView =
    | CitationNode(props: CitationComponent.CitationProps)
    | ExternalAnchor(href: Option<string>, attributes: map<string, string>)

  /** The `a` override: `href?.startsWith("/sources#")` picks the citation, whose slug is
      `href.replace("/sources#", "")`; otherwise the anchor keeps the element's own attributes,
      with class, target and rel set over them. */
  function RenderAnchor(href: Option<string>, extra: map<string, string>): (v: AnchorView)
    ensures v.CitationNode? <==> href.Some? && StartsWith(href.value, CitationComponent.SourcesAnchor)
    ensures v.CitationNode? ==>
              v.props == CitationComponent.DefaultProps(href.value[|CitationComponent.SourcesAnchor|..])
    ensures v.ExternalAnchor? ==> v.href == href
    ensures v.ExternalAnchor? ==>
              && "target" in v.attributes && v.attributes["target"] == "_blank"
              && "rel" in v.attributes && v.attributes["rel"] == "noopener noreferrer"
              && "className" in v.attributes && v.attributes["className"] == LinkClass
    ensures v.ExternalAnchor? ==>
              forall k :: k in extra && k !in {"target", "rel", "className", "href"} ==>
                k in v.attributes && v.attributes[k] == extra[k]
  {
    if href.Some? && StartsWith(href.value, CitationComponent.SourcesAnchor) then
      var prefix := CitationComponent.SourcesAnchor;
      assert IndexOf(href.value, prefix) == Some(0);
      assert href.value[..0] == [];
      CitationNode(CitationComponent.DefaultProps(ReplaceFirst(href.value, prefix, "")))
    else
      ExternalAnchor(href, (extra - {"href"})["className" := LinkClass]["target" := "_blank"]["rel" := "noopener noreferrer"])
  }

  /** A `/sources#<slug>` link becomes the citation of exactly `<slug>`, whatever the slug holds
      (even another `/sources#`), with the default popover mode and no passage. */
  lemma SourcesLinkRoundTrip(slug: string, extra: map<string, string>)
    ensures RenderAnchor(Some(CitationComponent.SourcesAnchor + slug), extra)
         == CitationNode(CitationComponent.CitationProps(slug, None, true))
  {
    StartsWithConcat(CitationComponent.SourcesAnchor, slug);
  }

  /** The citation a sources link becomes falls back, before any data loads, to that same link. */
  lemma CitationFallbackIsOriginalHref(href: string, extra: map<string, string>)
    requires StartsWith(href, CitationComponent.SourcesAnchor)
    ensures var v := RenderAnchor(Some(href), extra);
            v.CitationNode? && CitationComponent.LinkHref(None, v.props.sourceSlug) == href
  {
    var prefix := CitationComponent.SourcesAnchor;
    assert href == prefix + href[|prefix|..];
  }

  /** How a `code` element renders. */
  datatype CodeView = InlineCode(className: string) | BlockCode(className: string)

  /** `isInline = !className`: code without a (non-empty) class is inline. */
  function RenderCode(className: Option<string>): (v: CodeView)
    ensures v.InlineCode? <==> !StrTruthy(className)
    ensures v.InlineCode? ==> v.className == InlineCodeClass
    ensures v.BlockCode? ==> v.className == BlockCodeClass
  {
    if !StrTruthy(className) then InlineCode(InlineCodeClass) else BlockCode(BlockCodeClass)
  }
}
