/** The `Citation` component: an inline citation that, in popover mode, loads the citation
    projection of its source at most once per mounted instance and shows it in a card. */
module CitationComponent {
  import opened Wrappers
  import opened Js
  import opened Database
  import TextEncoding

  /** The component's props. `showPopover` defaults to true. */
  datatype CitationProps = CitationProps(sourceSlug: string, passageId: Option<string>, showPopover: bool)

  /** The props of `<Citation sourceSlug={slug}>` with nothing else given. */
  function DefaultProps(slug: string): (p: CitationProps)
    ensures p.sourceSlug == slug && p.passageId.None? && p.showPopover
  {
    CitationProps(slug, None, true)
  }

  const LookupPath: string := "/api/citations/"
  const SourcesAnchor: string := "/sources#"
  const LoadingText: string := "Loading..."
  const ErrorText: string := "Unable to load source details"
  const ViewSourceText: string := "View Source"

  /** The popover's badge labels (they differ from the source card's). */
  function CitationLabel(t: SourceType): (text: string)
    ensures text != ""
  {
    match t
    case PeerReviewed => "Peer-Reviewed"
    case Agency => "Agency Report"
    case Advocacy => "Advocacy/Policy"
    case News => "News"
    case Legal => "Legal Document"
    case Other => "Other"
  }

  lemma CitationLabelsDistinct(t: SourceType, u: SourceType)
    ensures CitationLabel(t) == CitationLabel(u) ==> t == u
  {
  }

  // ---------------------------------------------------------------------------
  // Link resolution
  // ---------------------------------------------------------------------------

  /** `citation?.url || '/sources#' + slug`: the loaded url when non-empty, otherwise the
      source's anchor on the sources page. */
  function LinkHref(citation: Option<CitationData>, slug: string): (href: string)
    ensures citation.Some? && StrTruthy(citation.value.url) ==> href == citation.value.url.value
    ensures !(citation.Some? && StrTruthy(citation.value.url)) ==>
              StartsWith(href, SourcesAnchor) && href[|SourcesAnchor|..] == slug
  {
    if citation.Some? && StrTruthy(citation.value.url) then citation.value.url.value
    else StartsWithConcat(SourcesAnchor, slug); SourcesAnchor + slug
  }

  /** `citation?.url?.startsWith('http')`. */
  predicate IsExternal(citation: Option<CitationData>) {
    citation.Some? && citation.value.url.Some? && StartsWith(citation.value.url.value, "http")
  }

  /** An external link always goes to the loaded url itself, never to the anchor. */
  lemma ExternalLinkIsUrl(citation: Option<CitationData>, slug: string)
    requires IsExternal(citation)
    ensures LinkHref(citation, slug) == citation.value.url.value
    ensures StartsWith(LinkHref(citation, slug), "http")
  {
  }

  /** An anchor, plus the attributes that open it in a new context. */
  datatype LinkView = LinkView(href: string, target: Option<string>, rel: Option<string>)

  /** The citation's link: `target=_blank` and `rel` only for an external url. */
  function CitationLink(citation: Option<CitationData>, slug: string): (l: LinkView)
    ensures l.href == LinkHref(citation, slug)
    ensures l.target.Some? <==> IsExternal(citation)
    ensures l.rel.Some? <==> IsExternal(citation)
    ensures IsExternal(citation) ==> l.target == Some("_blank") && l.rel == Some("noopener noreferrer")
  {
    var ext := IsExternal(citation);
    LinkView(LinkHref(citation, slug),
             if ext then Some("_blank") else None,
             if ext then Some("noopener noreferrer") else None)
  }

  // ---------------------------------------------------------------------------
  // The card's text
  // ---------------------------------------------------------------------------

  /** `short_title || title`. */
  function CardTitle(c: CitationData): (title: string)
    ensures StrTruthy(c.shortTitle) ==> title == c.shortTitle.value
    ensures !StrTruthy(c.shortTitle) ==> title == c.title
  {
    if StrTruthy(c.shortTitle) then c.shortTitle.value else c.title
  }

  /** `parts.join(sep)`. */
  function Join(parts: seq<string>, sep: string): string
    decreases |parts|
  {
    if parts == [] then "" else if |parts| == 1 then parts[0] else parts[0] + sep + Join(parts[1..], sep)
  }

  /** `(author || year) && [author, year].filter(Boolean).join(sep)`: the author/year paragraph,
      None when it is not rendered. */
  function AuthorYear(author: Option<string>, year: Option<int>, sep: string): (line: Option<string>)
    ensures line.None? <==> !StrTruthy(author) && !NumTruthy(year)
    ensures StrTruthy(author) && !NumTruthy(year) ==> line == Some(author.value)
    ensures !StrTruthy(author) && NumTruthy(year) ==> line == Some(IntToString(year.value))
    ensures StrTruthy(author) && NumTruthy(year) ==> line == Some(author.value + sep + IntToString(year.value))
  {
    var parts := (if StrTruthy(author) then [author.value] else [])
               + (if NumTruthy(year) then [IntToString(year.value)] else []);
    if StrTruthy(author) && NumTruthy(year) then
      assert parts == [author.value, IntToString(year.value)];
      assert parts[1..] == [IntToString(year.value)];
      assert Join(parts[1..], sep) == IntToString(year.value);
      Some(Join(parts, sep))
    else if StrTruthy(author) || NumTruthy(year) then Some(Join(parts, sep))
    else None
  }

  /** The separator as the source file holds it: the three characters U+00E2 U+20AC U+00A2
      between two spaces. */
  const WrittenSeparator: string := " \U{00E2}\U{20AC}\U{00A2} "

  /** The separator the authors meant: a bullet between two spaces. */
  const BulletSeparator: string := " \U{2022} "

  /** The separator in the file is the UTF-8 encoding of the bullet read back as Windows-1252. */
  lemma WrittenSeparatorIsMisdecodedBullet()
    ensures TextEncoding.Cp1252Decode(TextEncoding.Utf8Encode(BulletSeparator)) == WrittenSeparator
  {
    assert TextEncoding.Utf8('\U{2022}') == [0xE2, 0x80, 0xA2];
    assert TextEncoding.Utf8(' ') == [0x20];
    var bytes: seq<TextEncoding.Byte> := [0x20, 0xE2, 0x80, 0xA2, 0x20];
    assert TextEncoding.Utf8Encode(BulletSeparator) == bytes;
    assert TextEncoding.Cp1252Decode(bytes[4..]) == " ";
    assert TextEncoding.Cp1252Decode(bytes[3..]) == ['\U{00A2}', ' '];
    assert TextEncoding.Cp1252(0x80) == '\U{20AC}';
    assert TextEncoding.Cp1252Decode(bytes[2..]) == ['\U{20AC}', '\U{00A2}', ' '];
    assert TextEncoding.Cp1252Decode(bytes[1..]) == ['\U{00E2}', '\U{20AC}', '\U{00A2}', ' '];
  }

  /** The author/year line as written: an author and a year show the mis-decoded separator. */
  function AuthorYearAsWritten(author: Option<string>, year: Option<int>): (line: Option<string>)
    ensures line == AuthorYear(author, year, WrittenSeparator)
  {
    AuthorYear(author, year, WrittenSeparator)
  }

  lemma AuthorYearAsWrittenShowsMojibake()
    ensures AuthorYearAsWritten(Some("FWC"), Some(2020)) == Some("FWC \U{00E2}\U{20AC}\U{00A2} 2020")
    ensures AuthorYearAsWritten(Some("FWC"), Some(2020)) != AuthorYearLine(Some("FWC"), Some(2020))
  {
    assert NatToString(2) == "2";
    assert NatToString(20) == "20";
    assert NatToString(202) == "202";
    assert IntToString(2020) == "2020";
    assert StrTruthy(Some("FWC")) && NumTruthy(Some(2020));
    assert "FWC" + WrittenSeparator + "2020" == "FWC \U{00E2}\U{20AC}\U{00A2} 2020";
    assert ("FWC" + WrittenSeparator + "2020")[4] == '\U{00E2}';
    assert ("FWC" + BulletSeparator + "2020")[4] == '\U{2022}';
  }

  /** The author/year line the authors meant: the parts joined by the bullet. */
  function AuthorYearLine(author: Option<string>, year: Option<int>): (line: Option<string>)
    ensures StrTruthy(author) && NumTruthy(year) ==>
              line == Some(author.value + " \U{2022} " + IntToString(year.value))
    ensures line.None? <==> !StrTruthy(author) && !NumTruthy(year)
  {
    AuthorYear(author, year, BulletSeparator)
  }

  /** The loaded card: badge label (nothing for a null `source_type`), title, author/year line,
      description, and the "View Source" link. */
  datatype Card = Card(
    badge: Option<string>,
    title: string,
    authorYear: Option<string>,
    description: Option<string>,
    link: LinkView,
    linkText: string)

  /** The card as the component renders it, with the author/year line as written. */
  function CardFor(c: CitationData, slug: string): (card: Card)
    ensures card.badge.Some? <==> c.sourceType.Some?
    ensures c.sourceType.Some? ==> card.badge == Some(CitationLabel(c.sourceType.value))
    ensures card.title == CardTitle(c)
    ensures card.authorYear == AuthorYearAsWritten(c.author, c.year)
    ensures card.description.Some? <==> StrTruthy(c.description)
    ensures card.description.Some? ==> card.description == c.description
    ensures card.link == CitationLink(Some(c), slug) && card.linkText == ViewSourceText
  {
    Card(
      if c.sourceType.Some? then Some(CitationLabel(c.sourceType.value)) else None,
      CardTitle(c),
      AuthorYearAsWritten(c.author, c.year),
      if StrTruthy(c.description) then c.description else None,
      CitationLink(Some(c), slug),
      ViewSourceText)
  }

  /** The card with the separator corrected to the bullet. */
  function CardForCorrected(c: CitationData, slug: string): (card: Card)
    ensures card.authorYear == AuthorYearLine(c.author, c.year)
    ensures card == CardFor(c, slug).(authorYear := card.authorYear)
  {
    CardFor(c, slug).(authorYear := AuthorYearLine(c.author, c.year))
  }

  /** The rendered and the corrected card differ in the author/year line alone, and only when
      both an author and a year are shown: that is where the separator appears. */
  lemma CardsDifferOnlyInSeparator(c: CitationData, slug: string)
    ensures CardFor(c, slug) == CardForCorrected(c, slug) <==> !(StrTruthy(c.author) && NumTruthy(c.year))
  {
    if StrTruthy(c.author) && NumTruthy(c.year) {
      var a, y := c.author.value, IntToString(c.year.value);
      assert (a + WrittenSeparator + y)[|a| + 1] == '\U{00E2}';
      assert (a + BulletSeparator + y)[|a| + 1] == '\U{2022}';
    }
  }

  /** What the popover shows: each of the three blocks appears exactly when its state is set. */
  datatype PopoverContent = PopoverContent(loading: Option<string>, error: Option<string>, card: Option<Card>)

  /** What the component renders: a plain link, or the popover trigger with its content. */
  datatype CitationView = LinkOnly(link: LinkView) | WithPopover(content: PopoverContent)

  function Render(props: CitationProps, citation: Option<CitationData>, isLoading: bool, hasError: bool): (v: CitationView)
    ensures !props.showPopover ==> v == LinkOnly(CitationLink(citation, props.sourceSlug))
    ensures props.showPopover ==> v.WithPopover?
    ensures props.showPopover ==> v.content.loading == (if isLoading then Some(LoadingText) else None)
    ensures props.showPopover ==> v.content.error == (if hasError then Some(ErrorText) else None)
    ensures props.showPopover ==> (v.content.card.Some? <==> citation.Some?)
    ensures props.showPopover && citation.Some? ==> v.content.card == Some(CardFor(citation.value, props.sourceSlug))
  {
    if !props.showPopover then LinkOnly(CitationLink(citation, props.sourceSlug))
    else WithPopover(PopoverContent(
      if isLoading then Some(LoadingText) else None,
      if hasError then Some(ErrorText) else None,
      if citation.Some? then Some(CardFor(citation.value, props.sourceSlug)) else None))
  }

  // ---------------------------------------------------------------------------
  // The loading state machine
  // ---------------------------------------------------------------------------

  /** How the lookup request ended: a response (`ok` is `res.ok`; `body` is None when
      `res.json()` throws) or a rejected fetch. */
  datatype FetchOutcome = Response(ok: bool, body: Option<CitationData>) | NetworkError

  /** The instance's phase: idle -> loading -> loaded or failed. */
  datatype Phase = Idle | Loading | Loaded(data: CitationData) | Failed

  class Citation {
    const props: CitationProps
    var citation: Option<CitationData>
    var isLoading: bool
    var hasError: bool
    /** The lookups this instance has issued, in order. */
    ghost var requests: seq<string>

    function State(): Phase
      reads this
    {
      if citation.Some? then Loaded(citation.value)
      else if hasError then Failed
      else if isLoading then Loading
      else Idle
    }

    /** At most one of the three state cells is set, and an instance has issued a lookup (and
        only one, for its own slug) exactly when it has left the idle phase. */
    ghost predicate Valid()
      reads this
    {
      && !(citation.Some? && hasError)
      && !(isLoading && (citation.Some? || hasError))
      && (requests == [] <==> State() == Idle)
      && (requests != [] ==> requests == [LookupPath + props.sourceSlug])
    }

    constructor (props: CitationProps)
      ensures Valid() && State() == Idle && requests == [] && this.props == props
    {
      this.props := props;
      citation := None;
      isLoading := false;
      hasError := false;
      requests := [];
    }

    function View(): CitationView
      reads this
    {
      Render(props, citation, isLoading, hasError)
    }

    /** `loadCitation` up to its `await`: from idle, mark loading and issue the lookup; in any
        other phase do nothing. */
    method LoadCitation() returns (request: Option<string>)
      requires Valid()
      modifies this
      ensures Valid()
      ensures old(State()) != Idle ==>
                && request.None?
                && citation == old(citation) && isLoading == old(isLoading) && hasError == old(hasError)
                && requests == old(requests)
      ensures old(State()) == Idle ==>
                && request == Some(LookupPath + props.sourceSlug)
                && State() == Loading
                && requests == old(requests) + [request.value]
    {
      if citation.Some? || isLoading || hasError {
        return None;
      }
      isLoading := true;
      request := Some(LookupPath + props.sourceSlug);
      requests := requests + [request.value];
    }

    /** `loadCitation` after its `await`: an OK response with a body stores it; anything else
        sets the error; loading ends either way. */
    method CompleteLoad(outcome: FetchOutcome)
      requires Valid() && State() == Loading
      modifies this
      ensures Valid()
      ensures !isLoading && requests == old(requests)
      ensures outcome.Response? && outcome.ok && outcome.body.Some? ==> State() == Loaded(outcome.body.value)
      ensures !(outcome.Response? && outcome.ok && outcome.body.Some?) ==> State() == Failed
    {
      match outcome {
        case Response(ok, body) =>
          if ok {
            match body {
              case Some(data) => citation := Some(data);
              case None => hasError := true;
            }
          } else {
            hasError := true;
          }
        case NetworkError =>
          hasError := true;
      }
      isLoading := false;
    }

    /** The popover's `onOpenChange`: opening triggers a load. The handler exists only in
        popover mode. */
    method OnOpenChange(open: bool) returns (request: Option<string>)
      requires Valid() && props.showPopover
      modifies this
      ensures Valid()
      ensures old(hasError) ==> hasError
      ensures old(citation).Some? ==> citation == old(citation)
      ensures !open || old(State()) != Idle ==>
                && request.None?
                && citation == old(citation) && isLoading == old(isLoading) && hasError == old(hasError)
                && requests == old(requests)
      ensures open && old(State()) == Idle ==>
                request == Some(LookupPath + props.sourceSlug) && State() == Loading
    {
      request := None;
      if open {
        request := LoadCitation();
      }
    }
  }

  /** A failed lookup is never retried: from any failed instance, opening or closing the popover
      issues nothing, and the popover keeps showing only the error. */
  method FailedLookupIsTerminal(c: Citation, open: bool) returns (request: Option<string>)
    requires c.Valid() && c.props.showPopover && c.State() == Failed
    modifies c
    ensures request.None? && c.Valid() && c.State() == Failed
    ensures c.View() == WithPopover(PopoverContent(None, Some(ErrorText), None))
  {
    request := c.OnOpenChange(open);
  }

  /** A loaded citation is kept: from any loaded instance, opening or closing the popover issues
      nothing, and the card shows the loaded data with no loading or error block. */
  method LoadedCitationIsKept(c: Citation, open: bool) returns (request: Option<string>)
    requires c.Valid() && c.props.showPopover && c.State().Loaded?
    modifies c
    ensures request.None? && c.Valid() && c.State() == old(c.State())
    ensures c.View() == WithPopover(PopoverContent(None, None, Some(CardFor(c.State().data, c.props.sourceSlug))))
  {
    request := c.OnOpenChange(open);
  }
}
