# blowthedam citation system: a Dafny model

This project models the citation and source-library core of the blowthedam site, plus the blog
helpers that share its data layer. Each core file of the site becomes one Dafny module:

- `Sources` (`lib/sources.ts`) holds the read-only source queries. The tables are an in-memory
  `Store`, and whether a query fails is an input. `GetSourcesByCategory` is the imperative
  grouping loop. It is proved equal to a specification function, and that function is proved
  sound, complete and in category order.
- `CitationComponent` (`components/citation.tsx`) is the inline citation. Its link resolution
  and popover content are pure functions. The lazy load is a class `Citation` whose steps move
  through idle, loading, loaded and failed. The class invariant makes every instance issue at
  most one lookup.
- `SourceCardView` (`components/source-card.tsx`) covers the badge table, the primary, PDF and
  DOI links, the heading and the year slot.
- `SourceCategorySection` (`components/source-category-section.tsx`) covers the section id and
  the card list. An empty category renders nothing.
- `SourcesSidebar` (`components/sources-sidebar.tsx`) covers the trust legend, the table of
  contents and its scroll targets. A class `Sidebar` holds the popover and active-section state
  that the event handlers update.
- `MarkdownContent` (`components/markdown-content.tsx`) covers `/sources#slug` links, which
  become citations, external links, and inline versus block code.
- `Blog` (`lib/blog.ts`) covers the post, tag and category queries and tag flattening. It also
  has the storage url helper, built with a `SearchParams` class that models `URLSearchParams`.
- `ImageUtils` (`lib/image-utils.ts`) and `Utils` (`lib/utils.ts`) read image fields.
  `JSON.parse` is a function parameter that returns None where it throws.

Shared modules:

- `Wrappers` defines Option.
- `Js` holds JavaScript values, truthiness, `startsWith`, `replace` and number printing.
- `Database` holds the row types.
- `Seqs` holds `filter`, sortedness and `.single()`.
- `TextEncoding` holds UTF-8 and Windows-1252. It is used only to explain the separator finding.
  The popover card renders the author/year separator as the file spells it. The corrected card
  is kept beside it (see Findings).

Three facts about the code shape the model:

- **`CitationData.sourceType` stays nullable.** The declared interface makes it non-null, but
  the column it comes from is nullable (`types/database.ts:290`). A popover with a null type
  shows an empty badge.
- **`GetSourceWithPassages` returns the passages in no particular order.** The embedded select
  at `lib/sources.ts:117-120` has no ordering.
- **The source card has no featured marker, passage list or "+K more" indicator**
  (`components/source-card.tsx:45-127`).

## Model

| member | source | states |
|---|---|---|
| Sources.GetSourceCategories | lib/sources.ts:15-29 | every category in the table's sort order; `[]` when the query fails |
| Sources.CategoryOf | lib/sources.ts:40-43 | the embedded category is the one whose id is the source's `category_id`; none when no category has it |
| Sources.Embed | lib/sources.ts:38-44 | one row per source, in order, each with its own embedded category |
| Sources.GetAllSources | lib/sources.ts:35-52 | every source in order with its category; `[]` on failure |
| Sources.GetFeaturedSources | lib/sources.ts:159-174 | exactly the sources whose `is_featured` is true; `[]` on failure |
| Sources.FeaturedInOrder | lib/sources.ts:162-166 | the featured list keeps the sort order of the table |
| Sources.InCategory | lib/sources.ts:83 | exactly the sources whose `category_id` is the category's id |
| Sources.Put | lib/sources.ts:85-88 | assigning a key adds it to the object's keys, appending it when it is new |
| Sources.PutEntries | lib/sources.ts:85-88 | with unique keys, assignment keeps keys unique, stores the new value and keeps every other entry |
| Sources.LookupPut | lib/sources.ts:85-88 | reading the assigned key gives the new value; other keys read as before |
| Sources.GetSourcesByCategory | lib/sources.ts:54-93 | the loop's result is the grouping of the two tables; `{}` when either query fails |
| Sources.GroupingSound | lib/sources.ts:82-90 | keys are unique, each key is its category's slug, the category is in the table, the group holds exactly that category's sources, and no group is empty |
| Sources.GroupingKeys | lib/sources.ts:82-90 | the keys are exactly the slugs of the categories that have sources |
| Sources.CategoryPresentIffHasSources | lib/sources.ts:83-84 | with unique slugs, a category appears if and only if at least one source belongs to it |
| Sources.OrphansInNoGroup | lib/sources.ts:82-83 | a source with no or an unknown category appears in no group |
| Sources.GroupsInSortOrder | lib/sources.ts:69-83 | each group keeps the sources' sort order |
| Sources.GroupingInCategoryOrder | lib/sources.ts:57-90 | with unique slugs, the entries come in category-table order, one per category with sources |
| Sources.GroupKeysInSortOrder | lib/sources.ts:57-90 | with unique slugs and sorted categories, the groups come in category sort order |
| Seqs.Single | lib/sources.ts:102 | `.single()` yields a row exactly when the query matched one row |
| Sources.GetSourceBySlug | lib/sources.ts:95-110 | a returned source is stored and has the slug; null on failure or when no source has the slug |
| Sources.UniqueSlugMatchesOnce | lib/sources.ts:98-102 | with unique slugs, a stored source's slug matches that source alone |
| Sources.SourceBySlugFound | lib/sources.ts:95-110 | with unique slugs, looking up a stored source's slug returns that source |
| Sources.GetSourceWithPassages | lib/sources.ts:112-130 | found exactly when the source is, with exactly the passages whose `source_id` is its id |
| Sources.GetCitationData | lib/sources.ts:133-157 | found exactly when the source is; the eight fields equal the source's |
| Sources.CitationMissing | lib/sources.ts:151-154 | an unknown slug gives null |
| CitationComponent.DefaultProps | components/citation.tsx:40-46 | a citation given only a slug shows a popover and names no passage |
| CitationComponent.CitationLabel | components/citation.tsx:31-38 | each type has a non-empty popover label |
| CitationComponent.CitationLabelsDistinct | components/citation.tsx:31-38 | no two types share a popover label |
| CitationComponent.LinkHref | components/citation.tsx:71 | the loaded url when it is non-empty, otherwise `/sources#` followed by exactly the slug |
| CitationComponent.ExternalLinkIsUrl | components/citation.tsx:71-72 | an external citation links to its own http url |
| CitationComponent.CitationLink | components/citation.tsx:76-79 | the link has target `_blank` and `rel=noopener noreferrer` exactly when the url is external |
| CitationComponent.CardTitle | components/citation.tsx:127 | the short title when it is non-empty, else the title |
| CitationComponent.AuthorYear | components/citation.tsx:131-135 | no line when both author and year are falsy; otherwise the present parts, author first, joined by the separator |
| CitationComponent.AuthorYearAsWritten | components/citation.tsx:133 | the author/year line with the separator as the file spells it |
| CitationComponent.WrittenSeparatorIsMisdecodedBullet | components/citation.tsx:133 | the separator in the file is the UTF-8 bytes of " • " read back as Windows-1252 |
| CitationComponent.AuthorYearAsWrittenShowsMojibake | components/citation.tsx:133 | for author "FWC" and year 2020 the line as written reads "FWC â€¢ 2020", not the bulleted line |
| CitationComponent.AuthorYearLine | components/citation.tsx:131-135 | the corrected line: author and year joined by " • " when both are present; absent exactly when neither is |
| CitationComponent.CardFor | components/citation.tsx:117-155 | the loaded card shows the label of a non-null type, the title, the author/year line with the separator as the file spells it, a non-empty description and the View Source link |
| CitationComponent.CardForCorrected | components/citation.tsx:131-135 | the card with the bullet separator: every field but the author/year line is the rendered card's |
| CitationComponent.CardsDifferOnlyInSeparator | components/citation.tsx:131-135 | the rendered and the corrected card are equal exactly when the card does not show both an author and a year |
| CitationComponent.Render | components/citation.tsx:74-157 | without a popover: the plain link; with one: loading, error and card blocks, each shown exactly when its state is set |
| CitationComponent.Citation.constructor | components/citation.tsx:47-49 | a new citation is idle and has issued no lookup |
| CitationComponent.Citation.LoadCitation | components/citation.tsx:52-57 | from idle it starts loading and requests `/api/citations/<slug>`; in any other state it changes nothing |
| CitationComponent.Citation.CompleteLoad | components/citation.tsx:56-68 | an OK response with a body is stored; a non-OK response, a bad body or a network error sets the error; loading ends in every case |
| CitationComponent.Citation.OnOpenChange | components/citation.tsx:92 | opening triggers a load; closing changes nothing; neither clears a loaded citation or an error |
| CitationComponent.FailedLookupIsTerminal | components/citation.tsx:53-65 | from any failed instance, opening or closing the popover issues no request, and the popover shows only the error |
| CitationComponent.LoadedCitationIsKept | components/citation.tsx:53-60 | from any loaded instance, opening or closing the popover issues no request, keeps the data, and shows only its card |
| SourceCardView.BadgeLabel | components/source-card.tsx:12-43 | each type has a non-empty badge label |
| SourceCardView.BadgeFor | components/source-card.tsx:12-43 | the badge of a type is the written table entry: its label, colour classes and icon (partner: `BadgeLabelRoundTrip`) |
| SourceCardView.BadgeLabelRoundTrip | components/source-card.tsx:12-43 | a badge label identifies its type |
| SourceCardView.BadgeIconsShared | components/source-card.tsx:12-43 | two types share an icon exactly when they are advocacy and other |
| SourceCardView.PrimaryUrl | components/source-card.tsx:47 | the url when set, else the PDF url; none when both are empty |
| SourceCardView.PrimaryLabel | components/source-card.tsx:100 | "View PDF" exactly when only the PDF url is set, else "View Source" |
| SourceCardView.DoiLink | components/source-card.tsx:115-123 | the DOI link goes to `https://doi.org/<doi>` and reads `DOI: <doi>` |
| SourceCardView.Links | components/source-card.tsx:91-125 | the links row holds at most three links |
| SourceCardView.UrlLinkedIffSet | components/source-card.tsx:93-103 | a set url is linked as "View Source", and every "View Source" link goes to the url |
| SourceCardView.PdfLinkedIffSet | components/source-card.tsx:93-114 | a set PDF url is linked as "View PDF", whether or not a url is set, and every "View PDF" link goes to it |
| SourceCardView.LinkCount | components/source-card.tsx:91-125 | one link per set url, PDF url and DOI, no more |
| SourceCardView.DoiLinkedIffSet | components/source-card.tsx:115-124 | a DOI link is present exactly when a DOI is set, and it comes last |
| SourceCardView.Heading | components/source-card.tsx:72-75 | "author — title" when an author is set, else the title |
| SourceCardView.YearShown | components/source-card.tsx:64-68 | no year slot for a null year; a span holding the year exactly when it is non-zero |
| SourceCardView.RenderCard | components/source-card.tsx:45-127 | a card renders exactly when the type is non-null, a null type throwing; the card's id is the slug and it holds the badge, year, heading, non-empty publication and description, and the links |
| SourceCardView.CitationAnchorTargetsCard | components/source-card.tsx:52 | a citation's fallback anchor `/sources#<slug>` names the id of the source's card |
| SourceCategorySection.SectionId | components/source-category-section.tsx:16 | the section id is `category-` followed by exactly the slug |
| SourceCategorySection.SectionIdInjective | components/source-category-section.tsx:16 | different slugs give different section ids |
| SourceCategorySection.RenderCards | components/source-category-section.tsx:26-28 | one card per source, in order, each the source's own card; a throw exactly when some source has no type |
| SourceCategorySection.RenderSection | components/source-category-section.tsx:9-32 | nothing exactly for an empty list; otherwise the section id, the name, a non-empty description and the cards |
| SourceCategorySection.SectionCardsFollowSources | components/source-category-section.tsx:26-28 | the k-th card's id is the k-th source's slug |
| SourcesSidebar.TypeTrust | components/sources-sidebar.tsx:17-73 | peer-reviewed is Highest, agency and legal High, advocacy and news Moderate, and other Varies, in both directions |
| SourcesSidebar.SourceTypeInfo | components/sources-sidebar.tsx:17-73 | each legend row has its type's trust level and name |
| SourcesSidebar.LegendCoversTypesByTrust | components/sources-sidebar.tsx:141 | the legend lists every type exactly once, from most to least trusted |
| SourcesSidebar.LegendNamesMatchBadges | components/sources-sidebar.tsx:17-73 | the legend names each type as the card badges do |
| SourcesSidebar.TriggerLabel | components/sources-sidebar.tsx:168 | the trigger's accessible name is the written template `View <label> information` (partner: `TriggerLabelsDistinct`) |
| SourcesSidebar.TriggerLabelsDistinct | components/sources-sidebar.tsx:168 | different types give triggers different accessible names |
| SourcesSidebar.ScrollTarget | components/sources-sidebar.tsx:102-107 | scrolling targets the section id when that element exists, and does nothing otherwise |
| SourcesSidebar.ObservedSections | components/sources-sidebar.tsx:94-97 | the observer watches exactly the categories' section ids that exist on the page |
| SourcesSidebar.NavItems | components/sources-sidebar.tsx:118-131 | one button per category, in order, highlighted exactly when its section id is the active section |
| SourcesSidebar.AtMostOneHighlighted | components/sources-sidebar.tsx:124 | with distinct slugs, at most one button is highlighted |
| SourcesSidebar.LastIntersecting | components/sources-sidebar.tsx:81-87 | the active section becomes the target of the last intersecting entry, and stays unchanged when none intersects |
| SourcesSidebar.Sidebar.constructor | components/sources-sidebar.tsx:76-77 | no section is active and no popover is open |
| SourcesSidebar.Sidebar.OnMouseEnter | components/sources-sidebar.tsx:166 | hovering a trigger opens its popover |
| SourcesSidebar.Sidebar.OnFocus | components/sources-sidebar.tsx:167 | focusing a trigger opens its popover |
| SourcesSidebar.Sidebar.OnOpenChange | components/sources-sidebar.tsx:155-161 | opening shows the popover; closing hides it only if it is the one shown |
| SourcesSidebar.Sidebar.OnClose | components/sources-sidebar.tsx:188 | the close button hides every popover |
| SourcesSidebar.Sidebar.OnIntersection | components/sources-sidebar.tsx:81-87 | the loop over entries leaves the last intersecting target active |
| SourcesSidebar.OnePopoverAtATime | components/sources-sidebar.tsx:154 | at most one popover is open |
| SourcesSidebar.ActiveSectionIsObserved | components/sources-sidebar.tsx:81-97 | when entries come only from observed sections, the active section stays an observed one |
| SourcesSidebar.CloseOfOtherKeepsOpen | components/sources-sidebar.tsx:155-161 | in every state, a close request from a popover other than the open one leaves the open one open and the active section unchanged |
| MarkdownContent.RenderAnchor | components/markdown-content.tsx:19-35 | a href starting with `/sources#` becomes a default citation of the rest of the href; any other href, or none, becomes an anchor with target `_blank`, `rel=noopener noreferrer` and the link class, keeping the element's other attributes |
| MarkdownContent.SourcesLinkRoundTrip | components/markdown-content.tsx:20-22 | `/sources#<slug>` becomes the citation of exactly `<slug>`, with a popover and no passage |
| MarkdownContent.CitationFallbackIsOriginalHref | components/markdown-content.tsx:20-22 | until its data loads, the citation links to the original href |
| MarkdownContent.RenderCode | components/markdown-content.tsx:46-52 | code is inline exactly when it has no non-empty class |
| Blog.PresentTags | lib/blog.ts:53 | the embedded tags that are present, and no others |
| Blog.PresentTagsAppend | lib/blog.ts:53 | dropping missing tags from two lists joined is dropping them from each, in order |
| Blog.PresentTagsKeepsAll | lib/blog.ts:53 | when every junction row has its tag, every tag is kept in order |
| Blog.FlattenTags | lib/blog.ts:53 | `[]` without junction rows; otherwise exactly the present tags |
| Blog.TagById | lib/blog.ts:33 | the embedded tag of a junction row is a stored tag with the row's `tag_id`; none exactly when no tag has that id |
| Blog.EmbeddedTags | lib/blog.ts:33 | each embedded entry is what one of the post's junction rows embeds |
| Blog.CategoryById | lib/blog.ts:32 | the embedded category is a stored category with the post's `category_id`; none when the id is null or no category has it |
| Blog.WithTags | lib/blog.ts:51-54 | a returned post is its row, its category and exactly the tags its junction rows embed |
| Blog.LinkedTagIsCarried | lib/blog.ts:33 | with unique tag ids, a tag linked to a post by a junction row is among the post's tags |
| Blog.GetBlogCategories | lib/blog.ts:8-19 | every category; `[]` on failure |
| Blog.GetAllTags | lib/blog.ts:169-180 | every tag; `[]` on failure |
| Blog.Limit | lib/blog.ts:39-41 | a positive limit keeps that many leading rows, or all when there are fewer; 0 or no limit keeps all |
| Blog.GetPublishedPosts | lib/blog.ts:25-55 | the visible posts (published, not scheduled later), limited, with their tags; `[]` on failure |
| Blog.PublishedPostsNewestFirst | lib/blog.ts:37 | the list is newest first |
| Blog.ZeroLimitIsNoLimit | lib/blog.ts:39 | a limit of 0 returns the same as no limit |
| Blog.GetPostBySlug | lib/blog.ts:57-83 | when exactly one post is visible with the slug, that post with its tags; a returned post is stored, visible, has the slug and is the only such post; null on failure or when no visible post has the slug |
| Blog.HiddenPostNotServed | lib/blog.ts:67-70 | a draft, archived or scheduled post is never served by slug |
| Blog.GetAllPostSlugs | lib/blog.ts:152-163 | exactly the slugs of published posts; `[]` on failure |
| Blog.SitemapCoversServedPosts | lib/blog.ts:152-163 | every post that can be served is in the sitemap |
| Blog.SitemapListsScheduledPost | lib/blog.ts:155 | any published post dated after the request is in the sitemap, and its slug does not serve it |
| Blog.GetCategoryBySlug | lib/blog.ts:189-194 | when exactly one category has the slug, that category; a returned category is stored, has the slug and is the only one that does; null on failure |
| Blog.GetTagBySlug | lib/blog.ts:182-187 | when exactly one tag has the slug, that tag; a returned tag is stored, has the slug and is the only one that does; null on failure |
| Blog.GetPostsByCategory | lib/blog.ts:85-113 | `[]` when the category slug is unknown or a query fails; otherwise only visible posts of that category, with their tags |
| Blog.CategoryListsAllItsPosts | lib/blog.ts:92-102 | every visible post of the category is listed |
| Blog.GetPostsByTag | lib/blog.ts:115-149 | `[]` when the tag slug is unknown, no junction row links to it, or a query fails; otherwise exactly the visible posts a junction row links to the tag, each with its tags |
| Blog.TaggedPostsCarryTag | lib/blog.ts:118-138 | with unique tag ids, every listed post is visible, linked to the tag, and carries it |
| Blog.NearestOlder | lib/blog.ts:236-249 | the previous-post query: none exactly when no visible post is older than the timestamp; otherwise a stored visible older post, and in newest-first order no visible post lies between it and the timestamp |
| Blog.NearestNewer | lib/blog.ts:251-264 | the next-post query: none exactly when no visible post is newer than the timestamp; otherwise a stored visible newer post, and in newest-first order no visible post lies between the timestamp and it |
| Blog.GetAdjacentPosts | lib/blog.ts:219-280 | both null when the current post's query fails or the slug matches no single post; a failing neighbour query gives null for that neighbour; otherwise, for a unique current post with a timestamp, a previous post is returned exactly when some visible post is older and a next post exactly when some visible post is newer; each neighbour comes with its tags |
| Blog.PreviousIsNearestOlder | lib/blog.ts:236-249 | the previous post is visible, older than the current one, and no visible post lies between them |
| Blog.NextIsNearestNewer | lib/blog.ts:251-264 | the next post is visible, newer than the current one, and no visible post lies between them |
| Blog.SearchParams.Set | lib/blog.ts:211-212 | `set` replaces the first pair with the name and drops later ones, or appends |
| Blog.SetPairSpec | lib/blog.ts:211-212 | after `set` the name has exactly one pair, holding the value, and every other name's pairs are unchanged |
| Blog.GetSupabaseImageUrl | lib/blog.ts:200-217 | the method, which builds the query with `SearchParams`, returns the storage url of the specification |
| Blog.QueryMatchesParams | lib/blog.ts:209-213 | the pairs the helper sets serialize to the width-then-height query |
| Blog.ImageUrlCases | lib/blog.ts:200-217 | null for an empty or missing path; a full http(s) url unchanged; otherwise the public storage url of the path, followed by `?` and the query exactly when a width or height is truthy |
| Blog.RelativeImageUrl | lib/blog.ts:206-216 | a relative path gives the host, then `/storage/v1/object/public/`, then the path, then the query when there is one |
| Blog.TransformQueryWidthFirst | lib/blog.ts:209-213 | the query holds `width=<w>` when the width is truthy and `height=<h>` when the height is, width first, joined by `&` only when both are present |
| Blog.ImageUrlIdempotent | lib/blog.ts:203 | with an http(s) storage host, building the url of a built url gives it back unchanged |
| ImageUtils.GetImageUrl | lib/image-utils.ts:20-34 | null for a falsy field; a string itself; an object's `url` when it has one, else null |
| ImageUtils.GetImageMetadata | lib/image-utils.ts:40-47 | an object's properties other than `url`, or null for strings, falsy fields and url-only objects |
| ImageUtils.UrlAndMetadataRebuildImage | lib/image-utils.ts:45 | the url and the metadata together give back the whole object |
| ImageUtils.IsSupamodeImage | lib/image-utils.ts:52-61 | the guard holds exactly for objects whose url, as read by `GetImageUrl`, is a string, and for no other value |
| Utils.GetImageUrl | lib/utils.ts:25-35 | null for an empty field; the field itself when it does not parse or parses to null; otherwise the truthy `url` of the parsed value, else null |
| Utils.UrlObject | lib/utils.ts:59 | `{url: field}` has the single key `url`, holding the field |
| Utils.GetImageData | lib/utils.ts:50-61 | null for an empty field; `{url: field}` when the field does not parse or parses to null; the parsed value when its `url` is truthy, else null |
| Utils.UrlIsUrlOfData | lib/utils.ts:25-61 | the two readers agree: the url is missing exactly when the data is, and is the data's `url` |
| Utils.PlainUrlPassesThrough | lib/utils.ts:31-34 | a plain url that does not parse is returned as it is |

## Left out

- Supabase, the network and logging are left out. Tables are in-memory sequences already in the
  order their query's `ORDER BY` gives. Whether a query fails is a parameter. A null `data`
  without an error is not modelled, since `data || []` reads it as empty.
- Timestamps are integers, compared as instants. The ISO-string comparison done by PostgREST is
  not modelled.
- Numbers are integers. Printing of non-integers, NaN, -0 and exponent forms is not modelled.
- Percent-encoding in `URLSearchParams.toString` is not modelled. The names and values
  serialized here are letters, digits and `-`, which need none.
- React is not modelled: rendering, children, `className` props, icons and CSS. Handlers run one
  at a time on the latest state, so two `onOpenChange(true)` calls that capture the same stale
  render are not modelled.
- CitationComponent.AuthorYear: when the author is falsy and the year is 0, React renders a
  stray `0`. The model shows no line.
- `SourcesByCategory` is an ordered entry list. JavaScript lists integer-like keys first in its
  objects, and that is not modelled.
- Sources.GetSourceWithPassages states which passages come back, not their order. The code
  requests none.
- SourcesSidebar: the observer's geometry and `rootMargin` are left out. So is re-observing when
  the categories change. The page's elements are a set of ids, and `scrollIntoView` is the
  target it is called on.
- MarkdownContent: markdown parsing is left out. So are the fixed class names of `h2`, `h3`,
  `p`, `ul`, `ol` and `blockquote`.
- The unused `showCategory` prop of the source card is left out.
- ImageUtils.GetImageUrl and ImageUtils.GetImageMetadata admit only what the parameter type
  does: null, undefined, a string or an object.
- Blog.GetPublishedPosts: the limit is a natural number. A negative limit, which PostgREST rejects, is not modelled.
- Blog.GetAdjacentPosts: a current post with a null `published_at` is taken to give two nulls.
  The comparison PostgREST makes with a null value is not modelled.
- `cn` (class merging) is not part of this model. Neither is the seed script
  (`scripts/seed-sources.ts`), the citation route handler
  (`app/api/citations/[slug]/route.ts`, whose answers `FetchOutcome` stands for), the hash
  helper (`components/sources-client-wrapper.tsx`, which scrolls to the element named by the
  url's hash and highlights it for two seconds after a 600 ms delay, through
  `requestAnimationFrame` and timers) or the static pages.

## Findings

| source | as written | input that shows it | evidently intended | confidence | as-written member | corrected member |
|---|---|---|---|---|---|---|
| components/citation.tsx:133 | the author/year parts are joined by " â€¢ " (U+00E2 U+20AC U+00A2 between spaces) | author "FWC", year 2020 shows "FWC â€¢ 2020" | " • " (U+2022 bullet), whose UTF-8 bytes read as Windows-1252 give exactly the characters in the file | high; not executed | CitationComponent.AuthorYearAsWritten | CitationComponent.AuthorYearLine |
