/** The rows of the source tables and the shapes the source repository returns.
    Every column that the schema declares nullable is an Option here. */
module Database {
  import opened Wrappers

  /** The `source_type` enum: the six kinds of source. */
  datatype SourceType = PeerReviewed | Agency | Advocacy | News | Legal | Other

  /** A row of `source_categories`. */
  datatype SourceCategory = SourceCategory(
    id: string,
    slug: string,
    name: string,
    description: Option<string>,
    sortOrder: Option<int>,
    createdAt: Option<string>,
    updatedAt: Option<string>)

  /** A row of `sources`. */
  datatype Source = Source(
    id: string,
    slug: string,
    title: string,
    shortTitle: Option<string>,
    author: Option<string>,
    publication: Option<string>,
    year: Option<int>,
    sourceType: Option<SourceType>,
    url: Option<string>,
    pdfUrl: Option<string>,
    doi: Option<string>,
    description: Option<string>,
    fullCitation: Option<string>,
    isFeatured: Option<bool>,
    categoryId: Option<string>,
    sortOrder: Option<int>,
    createdAt: Option<string>,
    updatedAt: Option<string>)

  /** A row of `source_passages`. */
  datatype SourcePassage = SourcePassage(
    id: string,
    sourceId: string,
    quoteText: string,
    context: Option<string>,
    section: Option<string>,
    pageNumber: Option<string>,
    usageHint: Option<string>,
    fragmentUrl: Option<string>,
    sortOrder: Option<int>,
    createdAt: Option<string>,
    updatedAt: Option<string>)

  /** A source with its category embedded through `category_id` (null when there is none). */
  datatype SourceWithCategory = SourceWithCategory(source: Source, category: Option<SourceCategory>)

  /** A source with the passages that belong to it embedded. */
  datatype SourceWithPassages = SourceWithPassages(source: Source, passages: seq<SourcePassage>)

  /** The value stored under one key of `SourcesByCategory`. */
  datatype CategoryGroup = CategoryGroup(category: SourceCategory, sources: seq<Source>)

  /** One property of the `SourcesByCategory` object: key and value. */
  datatype Entry = Entry(key: string, group: CategoryGroup)

  /** A `SourcesByCategory` object as the list of its properties in insertion order, which is the
      order in which a page iterating over the object sees them. */
  type SourcesByCategory = seq<Entry>

  /** The citation projection: the eight columns a popover needs. `sourceType` stays nullable:
      the declared type says otherwise, but the column it is read from is nullable. */
  datatype CitationData = CitationData(
    slug: string,
    title: string,
    shortTitle: Option<string>,
    author: Option<string>,
    year: Option<int>,
    sourceType: Option<SourceType>,
    url: Option<string>,
    description: Option<string>)
}
