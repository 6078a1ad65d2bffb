/** The `SourceCard` component: one source on the sources page, with its type badge, heading,
    publication, description and up to three outbound links. */
module SourceCardView {
  import opened Wrappers
  import opened Js
  import opened Database
  import CitationComponent

  datatype Icon = BookOpen | Building2 | FileText | Newspaper | Scale

  /** An entry of the badge table: label text, colour classes and icon. */
  datatype Badge = Badge(name: string, className: string, icon: Icon)

  function BadgeLabel(t: SourceType): (text: string)
    ensures text != ""
  {
    match t
    case PeerReviewed => "Peer-Reviewed"
    case Agency => "Agency"
    case Advocacy => "Advocacy"
    case News => "News"
    case Legal => "Legal"
    case Other => "Other"
  }

  function BadgeClass(t: SourceType): string {
    match t
    case PeerReviewed => "bg-green-100 text-green-800 dark:bg-green-900/30 dark:text-green-400"
    case Agency => "bg-blue-100 text-blue-800 dark:bg-blue-900/30 dark:text-blue-400"
    case Advocacy => "bg-purple-100 text-purple-800 dark:bg-purple-900/30 dark:text-purple-400"
    case News => "bg-orange-100 text-orange-800 dark:bg-orange-900/30 dark:text-orange-400"
    case Legal => "bg-slate-100 text-slate-800 dark:bg-slate-900/30 dark:text-slate-400"
    case Other => "bg-gray-100 text-gray-800 dark:bg-gray-900/30 dark:text-gray-400"
  }

  function BadgeIcon(t: SourceType): Icon {
    match t
    case PeerReviewed => BookOpen
    case Agency => Building2
    case Advocacy => FileText
    case News => Newspaper
    case Legal => Scale
    case Other => FileText
  }

  /** The badge table, keyed by source type. */
  function BadgeFor(t: SourceType): (b: Badge)
    ensures b.name == BadgeLabel(t) && b.className == BadgeClass(t) && b.icon == BadgeIcon(t)
  {
    Badge(BadgeLabel(t), BadgeClass(t), BadgeIcon(t))
  }

  /** Reading a badge label back to the type it stands for. */
  function TypeOfBadgeLabel(text: string): (t: Option<SourceType>)
  {
    if text == "Peer-Reviewed" then Some(PeerReviewed)
    else if text == "Agency" then Some(Agency)
    else if text == "Advocacy" then Some(Advocacy)
    else if text == "News" then Some(News)
    else if text == "Legal" then Some(Legal)
    else if text == "Other" then Some(Other)
    else None
  }

  /** A badge's label identifies its type: no two types share a label. */
  lemma BadgeLabelRoundTrip(t: SourceType)
    ensures TypeOfBadgeLabel(BadgeLabel(t)) == Some(t)
  {
    match t
    case PeerReviewed =>
    case Agency => assert "Agency"[0] != "Peer-Reviewed"[0];
    case Advocacy =>
      assert "Advocacy"[0] != "Peer-Reviewed"[0] && "Advocacy"[1] != "Agency"[1];
    case News =>
      assert "News"[0] != "Peer-Reviewed"[0] && "News"[0] != "Agency"[0] && "News"[0] != "Advocacy"[0];
    case Legal =>
      assert "Legal"[0] != "Peer-Reviewed"[0] && "Legal"[0] != "Agency"[0];
      assert "Legal"[0] != "Advocacy"[0] && "Legal"[0] != "News"[0];
    case Other =>
      assert "Other"[0] != "Peer-Reviewed"[0] && "Other"[0] != "Agency"[0] && "Other"[0] != "Advocacy"[0];
      assert "Other"[0] != "News"[0] && "Other"[0] != "Legal"[0];
  }

  /** Five icons for six types: only advocacy and other share one. */
  lemma BadgeIconsShared(t: SourceType, u: SourceType)
    ensures BadgeIcon(t) == BadgeIcon(u) <==> t == u || {t, u} == {Advocacy, Other}
  {
  }

  // ---------------------------------------------------------------------------
  // Links
  // ---------------------------------------------------------------------------

  const ViewSourceText: string := "View Source"
  const ViewPdfText: string := "View PDF"
  const DoiResolver: string := "https://doi.org/"
  const DoiLabelPrefix: string := "DOI: "

  /** `url || pdf_url`: the card's main link target, None when both are empty. */
  function PrimaryUrl(s: Source): (u: Option<string>)
    ensures u.Some? <==> StrTruthy(s.url) || StrTruthy(s.pdfUrl)
    ensures StrTruthy(s.url) ==> u == s.url
    ensures !StrTruthy(s.url) && StrTruthy(s.pdfUrl) ==> u == s.pdfUrl
    ensures u.Some? ==> u.value != ""
  {
    if StrTruthy(s.url) then s.url else if StrTruthy(s.pdfUrl) then s.pdfUrl else None
  }

  /** `url && pdf_url`: a second link is needed for the PDF. */
  predicate HasPdfSeparate(s: Source) {
    StrTruthy(s.url) && StrTruthy(s.pdfUrl)
  }

  /** An outbound link; every link on the card opens in a new tab with `noopener noreferrer`. */
  datatype CardLink = CardLink(href: string, text: string)

  /** The main link's text: "View PDF" exactly when `pdf_url` is set and `url` is not. */
  function PrimaryLabel(s: Source): (text: string)
    ensures text == ViewPdfText <==> StrTruthy(s.pdfUrl) && !StrTruthy(s.url)
    ensures text == ViewPdfText || text == ViewSourceText
  {
    if StrTruthy(s.pdfUrl) && !StrTruthy(s.url) then ViewPdfText else ViewSourceText
  }

  function DoiLink(doi: string): (l: CardLink)
    ensures StartsWith(l.href, DoiResolver) && l.href[|DoiResolver|..] == doi
    ensures StartsWith(l.text, DoiLabelPrefix) && l.text[|DoiLabelPrefix|..] == doi
  {
    StartsWithConcat(DoiResolver, doi);
    StartsWithConcat(DoiLabelPrefix, doi);
    CardLink(DoiResolver + doi, DoiLabelPrefix + doi)
  }

  lemma LinkTextsDistinct()
    ensures ViewSourceText != ViewPdfText
    ensures !StartsWith(ViewSourceText, DoiLabelPrefix) && !StartsWith(ViewPdfText, DoiLabelPrefix)
  {
    assert ViewSourceText[5] != ViewPdfText[5];
    assert ViewSourceText[..5][0] != DoiLabelPrefix[0];
    assert ViewPdfText[..5][0] != DoiLabelPrefix[0];
  }

  /** The links row, in order: main link, separate PDF link, DOI link, each when its condition holds. */
  function Links(s: Source): (links: seq<CardLink>)
    ensures |links| <= 3
  {
    (if PrimaryUrl(s).Some? then [CardLink(PrimaryUrl(s).value, PrimaryLabel(s))] else [])
    + (if HasPdfSeparate(s) then [CardLink(s.pdfUrl.value, ViewPdfText)] else [])
    + (if StrTruthy(s.doi) then [DoiLink(s.doi.value)] else [])
  }

  /** The web page is linked exactly when it is set, and always as "View Source". */
  lemma UrlLinkedIffSet(s: Source)
    ensures StrTruthy(s.url) ==> CardLink(s.url.value, ViewSourceText) in Links(s)
    ensures forall l :: l in Links(s) && l.text == ViewSourceText ==> StrTruthy(s.url) && l.href == s.url.value
  {
    LinkTextsDistinct();
    if StrTruthy(s.url) {
      assert Links(s)[0] == CardLink(s.url.value, ViewSourceText);
    }
  }

  /** The PDF is linked exactly when it is set, always as "View PDF", and every "View PDF" link
      goes to it. */
  lemma PdfLinkedIffSet(s: Source)
    ensures StrTruthy(s.pdfUrl) ==> CardLink(s.pdfUrl.value, ViewPdfText) in Links(s)
    ensures forall l :: l in Links(s) && l.text == ViewPdfText ==> StrTruthy(s.pdfUrl) && l.href == s.pdfUrl.value
  {
    LinkTextsDistinct();
    if StrTruthy(s.pdfUrl) {
      if StrTruthy(s.url) {
        assert Links(s)[1] == CardLink(s.pdfUrl.value, ViewPdfText);
      } else {
        assert Links(s)[0] == CardLink(s.pdfUrl.value, ViewPdfText);
      }
    }
  }

  /** The card has exactly one link per non-empty url column, never two for the same column. */
  lemma LinkCount(s: Source)
    ensures |Links(s)| == (if StrTruthy(s.url) then 1 else 0) + (if StrTruthy(s.pdfUrl) then 1 else 0)
                          + (if StrTruthy(s.doi) then 1 else 0)
  {
  }

  /** The DOI link is present exactly when a DOI is set, and resolves it at doi.org. */
  lemma DoiLinkedIffSet(s: Source)
    ensures StrTruthy(s.doi) <==> exists l :: l in Links(s) && StartsWith(l.text, DoiLabelPrefix)
    ensures StrTruthy(s.doi) ==> Links(s)[|Links(s)| - 1] == CardLink(DoiResolver + s.doi.value, DoiLabelPrefix + s.doi.value)
  {
    var links := Links(s);
    if StrTruthy(s.doi) {
      assert links[|links| - 1] == DoiLink(s.doi.value);
      assert StartsWith(links[|links| - 1].text, DoiLabelPrefix);
    } else {
      forall l | l in links ensures !StartsWith(l.text, DoiLabelPrefix) {
        LinkTextsDistinct();
        assert l.text == ViewSourceText || l.text == ViewPdfText;
      }
    }
  }

  // ---------------------------------------------------------------------------
  // The card
  // ---------------------------------------------------------------------------

  /** The heading: `author — ` before the title when the author is set. */
  function Heading(s: Source): (h: string)
    ensures StrTruthy(s.author) ==> h == s.author.value + " \U{2014} " + s.title
    ensures !StrTruthy(s.author) ==> h == s.title
  {
    (if StrTruthy(s.author) then s.author.value + " \U{2014} " else "") + s.title
  }

  /** What `{source.year && <span>…</span>}` puts next to the badge: nothing for a null year,
      the bare number 0 (React renders a falsy number), or the year in its own span. */
  datatype YearSlot = NoYear | BareZero | YearSpan(text: string)

  function YearShown(year: Option<int>): (slot: YearSlot)
    ensures year.None? <==> slot.NoYear?
    ensures slot.YearSpan? <==> NumTruthy(year)
    ensures slot.YearSpan? ==> slot.text == IntToString(year.value)
  {
    if year.None? then NoYear else if year.value == 0 then BareZero else YearSpan(IntToString(year.value))
  }

  datatype CardView = CardView(
    id: string,
    badge: Badge,
    year: YearSlot,
    heading: string,
    publication: Option<string>,
    description: Option<string>,
    links: seq<CardLink>)

  /** The rendered card, or None where rendering throws: looking up a null `source_type` in the
      badge table gives undefined, and reading its class name fails. */
  function RenderCard(s: Source): (card: Option<CardView>)
    ensures card.Some? <==> s.sourceType.Some?
    ensures card.Some? ==> card.value.id == s.slug
    ensures card.Some? ==> card.value.badge == BadgeFor(s.sourceType.value)
    ensures card.Some? ==> card.value.year == YearShown(s.year)
    ensures card.Some? ==> card.value.heading == Heading(s)
    ensures card.Some? ==> (card.value.publication.Some? <==> StrTruthy(s.publication))
    ensures card.Some? ==> (card.value.description.Some? <==> StrTruthy(s.description))
    ensures card.Some? && card.value.publication.Some? ==> card.value.publication == s.publication
    ensures card.Some? && card.value.description.Some? ==> card.value.description == s.description
    ensures card.Some? ==> card.value.links == Links(s)
  {
    if s.sourceType.None? then None
    else Some(CardView(
      s.slug,
      BadgeFor(s.sourceType.value),
      YearShown(s.year),
      Heading(s),
      if StrTruthy(s.publication) then s.publication else None,
      if StrTruthy(s.description) then s.description else None,
      Links(s)))
  }

  /** A citation that has no url of its own links to `/sources#<slug>`, which is where this
      card lives: the anchor's fragment is the card's id. */
  lemma CitationAnchorTargetsCard(s: Source)
    requires s.sourceType.Some?
    ensures var href := CitationComponent.LinkHref(None, s.slug);
            StartsWith(href, CitationComponent.SourcesAnchor)
            && href[|CitationComponent.SourcesAnchor|..] == RenderCard(s).value.id
  {
  }
}
