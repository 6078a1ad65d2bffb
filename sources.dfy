/** The source repository: read-only queries over the category, source and passage tables.
    The datastore is an in-memory `Store`; whether a query fails is an input (`fault`), since
    the failure comes from the network. Every query degrades to `[]`, `[]`-like or None on a
    failure and never throws. */
module Sources {
  import opened Wrappers
  import opened Seqs
  import opened Database

  /** The tables, each in the order its `ORDER BY sort_order` query returns it. */
  datatype Store = Store(
    categories: seq<SourceCategory>,
    sources: seq<Source>,
    passages: seq<SourcePassage>)

  // ---------------------------------------------------------------------------
  // Ordering and uniqueness: the assumptions under which the ordering
  // properties are stated (the datastore, not this code, sorts).
  // ---------------------------------------------------------------------------

  /** Ascending order on a nullable integer, nulls last (PostgreSQL's default for ASC). */
  predicate SortLe(a: Option<int>, b: Option<int>) {
    match a
    case None => b.None?
    case Some(x) => b.None? || x <= b.value
  }

  predicate CategoryLe(x: SourceCategory, y: SourceCategory) {
    SortLe(x.sortOrder, y.sortOrder)
  }

  predicate SourceLe(x: Source, y: Source) {
    SortLe(x.sortOrder, y.sortOrder)
  }

  ghost predicate CategoriesInOrder(cs: seq<SourceCategory>) {
    Sorted(cs, CategoryLe)
  }

  ghost predicate SourcesInOrder(ss: seq<Source>) {
    Sorted(ss, SourceLe)
  }

  ghost predicate UniqueCategorySlugs(cs: seq<SourceCategory>) {
    forall i, j :: 0 <= i < j < |cs| ==> cs[i].slug != cs[j].slug
  }

  ghost predicate UniqueSourceSlugs(ss: seq<Source>) {
    forall i, j :: 0 <= i < j < |ss| ==> ss[i].slug != ss[j].slug
  }

  // ---------------------------------------------------------------------------
  // List queries
  // ---------------------------------------------------------------------------

  /** `getSourceCategories`: all categories in sort order, `[]` on error. */
  function GetSourceCategories(db: Store, fault: Option<string>): (r: seq<SourceCategory>)
    ensures fault.Some? ==> r == []
    ensures fault.None? ==> r == db.categories
  {
    if fault.Some? then [] else db.categories
  }

  /** The category a `category_id` refers to: the row with that id, None for a null or dangling
      reference. */
  function CategoryOf(cats: seq<SourceCategory>, id: Option<string>): (r: Option<SourceCategory>)
    ensures r.Some? ==> r.value in cats && id == Some(r.value.id)
    ensures r.None? ==> id.None? || forall k :: 0 <= k < |cats| ==> cats[k].id != id.value
    decreases |cats|
  {
    if id.None? || cats == [] then None
    else if cats[0].id == id.value then Some(cats[0])
    else CategoryOf(cats[1..], id)
  }

  function Embed(cats: seq<SourceCategory>, srcs: seq<Source>): (r: seq<SourceWithCategory>)
    ensures |r| == |srcs|
    ensures forall k :: 0 <= k < |r| ==>
              r[k] == SourceWithCategory(srcs[k], CategoryOf(cats, srcs[k].categoryId))
  {
    seq(|srcs|, k requires 0 <= k < |srcs| => SourceWithCategory(srcs[k], CategoryOf(cats, srcs[k].categoryId)))
  }

  /** `getAllSources`: every source, in order, with its category embedded; `[]` on error. */
  function GetAllSources(db: Store, fault: Option<string>): (r: seq<SourceWithCategory>)
    ensures fault.Some? ==> r == []
    ensures fault.None? ==> |r| == |db.sources|
    ensures fault.None? ==> forall k :: 0 <= k < |r| ==>
              && r[k].source == db.sources[k]
              && (r[k].category.Some? ==>
                    r[k].category.value in db.categories && db.sources[k].categoryId == Some(r[k].category.value.id))
              && (r[k].category.None? ==>
                    db.sources[k].categoryId.None? ||
                    forall c :: c in db.categories ==> Some(c.id) != db.sources[k].categoryId)
  {
    if fault.Some? then [] else Embed(db.categories, db.sources)
  }

  function IsFeatured(): Source -> bool {
    (s: Source) => s.isFeatured == Some(true)
  }

  /** `getFeaturedSources`: the sources whose `is_featured` is true, in order; `[]` on error. */
  function GetFeaturedSources(db: Store, fault: Option<string>): (r: seq<Source>)
    ensures fault.Some? ==> r == []
    ensures fault.None? ==> forall s :: s in r <==> s in db.sources && s.isFeatured == Some(true)
  {
    if fault.Some? then [] else Filter(db.sources, IsFeatured())
  }

  lemma FeaturedInOrder(db: Store, fault: Option<string>)
    requires SourcesInOrder(db.sources)
    ensures SourcesInOrder(GetFeaturedSources(db, fault))
  {
    FilterKeepsOrder(db.sources, IsFeatured(), SourceLe);
  }

  // ---------------------------------------------------------------------------
  // Grouping by category
  // ---------------------------------------------------------------------------

  function BelongsTo(id: string): Source -> bool {
    (s: Source) => s.categoryId == Some(id)
  }

  /** `sources.filter(s => s.category_id === id)`. */
  function InCategory(srcs: seq<Source>, id: string): (r: seq<Source>)
    ensures forall s :: s in r <==> s in srcs && s.categoryId == Some(id)
    ensures forall k :: 0 <= k < |r| ==> r[k].categoryId == Some(id)
  {
    Filter(srcs, BelongsTo(id))
  }

  function KeySet(d: SourcesByCategory): set<string> {
    set e | e in d :: e.key
  }

  predicate UniqueKeys(d: SourcesByCategory) {
    forall i, j :: 0 <= i < j < |d| ==> d[i].key != d[j].key
  }

  /** The value stored under `key`, as `d[key]` reads it. */
  function Lookup(d: SourcesByCategory, key: string): (r: Option<CategoryGroup>)
    ensures r.Some? ==> Entry(key, r.value) in d
    ensures r.None? ==> key !in KeySet(d)
    decreases |d|
  {
    if d == [] then None else if d[0].key == key then Some(d[0].group) else Lookup(d[1..], key)
  }

  /** `d[key] = g` on a JavaScript object: an existing property is overwritten where it stands,
      a new one is added last. */
  function Put(d: SourcesByCategory, key: string, g: CategoryGroup): (r: SourcesByCategory)
    ensures KeySet(r) == KeySet(d) + {key}
    ensures key !in KeySet(d) ==> r == d + [Entry(key, g)]
    decreases |d|
  {
    if d == [] then [Entry(key, g)]
    else if d[0].key == key then KeySetCons(Entry(key, g), d[1..]); KeySetCons(d[0], d[1..]); [Entry(key, g)] + d[1..]
    else
      var rest := Put(d[1..], key, g);
      KeySetCons(d[0], d[1..]); KeySetCons(d[0], rest);
      [d[0]] + rest
  }

  lemma UniqueKeysTail(d: SourcesByCategory)
    requires d != [] && UniqueKeys(d)
    ensures UniqueKeys(d[1..])
    ensures forall e :: e in d[1..] ==> e.key != d[0].key
  {
    forall i, j | 0 <= i < j < |d[1..]| ensures d[1..][i].key != d[1..][j].key {
      assert d[1..][i] == d[i + 1] && d[1..][j] == d[j + 1];
    }
    forall e | e in d[1..] ensures e.key != d[0].key {
      var k :| 0 <= k < |d[1..]| && d[1..][k] == e;
      assert d[k + 1] == e;
    }
  }

  /** After `d[key] = g` the object holds the new property and every other property it held,
      and still no key twice. */
  lemma {:induction false} PutEntries(d: SourcesByCategory, key: string, g: CategoryGroup)
    requires UniqueKeys(d)
    ensures UniqueKeys(Put(d, key, g))
    ensures Entry(key, g) in Put(d, key, g)
    ensures forall e :: e in Put(d, key, g) ==> e == Entry(key, g) || (e in d && e.key != key)
    ensures forall e :: e in d && e.key != key ==> e in Put(d, key, g)
    decreases |d|
  {
    if d != [] {
      UniqueKeysTail(d);
      if d[0].key != key {
        PutEntries(d[1..], key, g);
        var rest := Put(d[1..], key, g);
        assert Put(d, key, g) == [d[0]] + rest;
        assert forall e :: e in rest ==> e.key != d[0].key;
        assert forall e :: e in d ==> e == d[0] || e in d[1..];
      } else {
        assert forall e :: e in d ==> e == d[0] || e in d[1..];
      }
    }
  }

  lemma KeySetCons(e: Entry, d: SourcesByCategory)
    ensures KeySet([e] + d) == {e.key} + KeySet(d)
  {
    assert forall x :: x in [e] + d <==> x == e || x in d;
  }

  /** Reading the object after `d[key] = g`: `key` gives `g`, every other key what it gave. */
  lemma {:induction false} LookupPut(d: SourcesByCategory, key: string, g: CategoryGroup, other: string)
    requires UniqueKeys(d)
    ensures Lookup(Put(d, key, g), key) == Some(g)
    ensures other != key ==> Lookup(Put(d, key, g), other) == Lookup(d, other)
    decreases |d|
  {
    if d != [] && d[0].key != key {
      UniqueKeysTail(d);
      LookupPut(d[1..], key, g, other);
    }
  }

  /** One iteration of the grouping loop: store the category's sources under its slug when
      there are any. */
  function Step(d: SourcesByCategory, c: SourceCategory, srcs: seq<Source>): SourcesByCategory {
    var cs := InCategory(srcs, c.id);
    if |cs| > 0 then Put(d, c.slug, CategoryGroup(c, cs)) else d
  }

  /** The object the grouping loop has built after the categories `cats`. */
  function Grouping(cats: seq<SourceCategory>, srcs: seq<Source>): SourcesByCategory
    decreases |cats|
  {
    if cats == [] then [] else Step(Grouping(cats[..|cats| - 1], srcs), cats[|cats| - 1], srcs)
  }

  /** `getSourcesByCategory`: fetch the categories, then the sources, and group the sources
      under the slug of their category, leaving out categories without sources. A failure of
      either query gives the empty object. */
  method GetSourcesByCategory(db: Store, categoriesFault: Option<string>, sourcesFault: Option<string>)
    returns (result: SourcesByCategory)
    ensures categoriesFault.Some? || sourcesFault.Some? ==> result == []
    ensures categoriesFault.None? && sourcesFault.None? ==> result == Grouping(db.categories, db.sources)
  {
    if categoriesFault.Some? {
      return [];
    }
    var categories := db.categories;
    if sourcesFault.Some? {
      return [];
    }
    var sources := db.sources;
    result := [];
    for i := 0 to |categories|
      invariant result == Grouping(categories[..i], sources)
    {
      var category := categories[i];
      assert categories[..i + 1][..i] == categories[..i];
      var categorySources := InCategory(sources, category.id);
      if |categorySources| > 0 {
        result := Put(result, category.slug, CategoryGroup(category, categorySources));
      }
    }
    assert categories[..|categories|] == categories;
  }

  /** What every property of the grouped object holds: the key is its category's slug, the
      category is one of the fetched ones, and the value holds exactly that category's sources,
      which are never none. No key occurs twice. */
  lemma {:induction false} GroupingSound(cats: seq<SourceCategory>, srcs: seq<Source>)
    ensures UniqueKeys(Grouping(cats, srcs))
    ensures forall e :: e in Grouping(cats, srcs) ==>
              && e.key == e.group.category.slug
              && e.group.category in cats
              && e.group.sources == InCategory(srcs, e.group.category.id)
              && |e.group.sources| > 0
    decreases |cats|
  {
    if cats != [] {
      var prefix, last := cats[..|cats| - 1], cats[|cats| - 1];
      GroupingSound(prefix, srcs);
      assert forall c :: c in prefix ==> c in cats;
      var cs := InCategory(srcs, last.id);
      if |cs| > 0 {
        PutEntries(Grouping(prefix, srcs), last.slug, CategoryGroup(last, cs));
      }
    }
  }

  function HasSourcesIn(srcs: seq<Source>): SourceCategory -> bool {
    (c: SourceCategory) => |InCategory(srcs, c.id)| > 0
  }

  /** The categories that have at least one source, in their fetched order. */
  function CategoriesWithSources(cats: seq<SourceCategory>, srcs: seq<Source>): (r: seq<SourceCategory>)
    ensures forall c :: c in r <==> c in cats && |InCategory(srcs, c.id)| > 0
  {
    Filter(cats, HasSourcesIn(srcs))
  }

  function SlugSet(cs: seq<SourceCategory>): set<string> {
    set c | c in cs :: c.slug
  }

  lemma SlugSetSnoc(cs: seq<SourceCategory>, c: SourceCategory)
    ensures SlugSet(cs + [c]) == SlugSet(cs) + {c.slug}
  {
    assert forall x :: x in cs + [c] <==> x in cs || x == c;
  }

  lemma CategoriesWithSourcesSnoc(cs: seq<SourceCategory>, c: SourceCategory, srcs: seq<Source>)
    ensures CategoriesWithSources(cs + [c], srcs)
         == CategoriesWithSources(cs, srcs) + (if |InCategory(srcs, c.id)| > 0 then [c] else [])
  {
    FilterAppend(cs, [c], HasSourcesIn(srcs));
    assert [c][1..] == [];
  }

  lemma StepKeys(d: SourcesByCategory, c: SourceCategory, srcs: seq<Source>)
    ensures KeySet(Step(d, c, srcs)) == KeySet(d) + (if |InCategory(srcs, c.id)| > 0 then {c.slug} else {})
  {
  }

  /** The key set is exactly the slugs of the categories that have a source. */
  lemma {:induction false} GroupingKeys(cats: seq<SourceCategory>, srcs: seq<Source>)
    ensures KeySet(Grouping(cats, srcs)) == SlugSet(CategoriesWithSources(cats, srcs))
    decreases |cats|
  {
    if cats == [] {
      assert CategoriesWithSources(cats, srcs) == [];
    } else {
      var prefix, last := cats[..|cats| - 1], cats[|cats| - 1];
      GroupingKeys(prefix, srcs);
      assert cats == prefix + [last];
      CategoriesWithSourcesSnoc(prefix, last, srcs);
      StepKeys(Grouping(prefix, srcs), last, srcs);
      if |InCategory(srcs, last.id)| > 0 {
        SlugSetSnoc(CategoriesWithSources(prefix, srcs), last);
      } else {
        assert CategoriesWithSources(prefix, srcs) + [] == CategoriesWithSources(prefix, srcs);
      }
    }
  }

  /** A category appears iff some source refers to it (its slug is a key iff it has sources). */
  lemma CategoryPresentIffHasSources(cats: seq<SourceCategory>, srcs: seq<Source>, c: SourceCategory)
    requires c in cats
    requires UniqueCategorySlugs(cats)
    ensures Lookup(Grouping(cats, srcs), c.slug).Some? <==>
            exists s :: s in srcs && s.categoryId == Some(c.id)
  {
    GroupingKeys(cats, srcs);
    GroupingSound(cats, srcs);
    var g := Grouping(cats, srcs);
    if exists s :: s in srcs && s.categoryId == Some(c.id) {
      var s :| s in srcs && s.categoryId == Some(c.id);
      assert s in InCategory(srcs, c.id);
      assert c in CategoriesWithSources(cats, srcs);
      assert c.slug in KeySet(g);
    }
    if Lookup(g, c.slug).Some? {
      var e := Entry(c.slug, Lookup(g, c.slug).value);
      assert e in g;
      var c' := e.group.category;
      assert c' == c by {
        var i :| 0 <= i < |cats| && cats[i] == c;
        var j :| 0 <= j < |cats| && cats[j] == c';
        assert cats[i].slug == cats[j].slug;
      }
      assert e.group.sources[0] in InCategory(srcs, c.id);
    }
  }

  /** Sources whose `category_id` is null or names no fetched category are in no group. */
  lemma OrphansInNoGroup(cats: seq<SourceCategory>, srcs: seq<Source>, s: Source)
    requires s.categoryId.None? || forall c :: c in cats ==> Some(c.id) != s.categoryId
    ensures forall e :: e in Grouping(cats, srcs) ==> s !in e.group.sources
  {
    GroupingSound(cats, srcs);
  }

  /** Grouping keeps the fetched order: sorted sources give sorted groups. */
  lemma GroupsInSortOrder(cats: seq<SourceCategory>, srcs: seq<Source>)
    requires SourcesInOrder(srcs)
    ensures forall e :: e in Grouping(cats, srcs) ==> SourcesInOrder(e.group.sources)
  {
    GroupingSound(cats, srcs);
    forall e | e in Grouping(cats, srcs) ensures SourcesInOrder(e.group.sources) {
      FilterKeepsOrder(srcs, BelongsTo(e.group.category.id), SourceLe);
    }
  }

  /** The entries for a list of categories, one per category, in its order. */
  function EntriesFor(cs: seq<SourceCategory>, srcs: seq<Source>): (r: SourcesByCategory)
    ensures |r| == |cs|
  {
    seq(|cs|, k requires 0 <= k < |cs| => Entry(cs[k].slug, CategoryGroup(cs[k], InCategory(srcs, cs[k].id))))
  }

  lemma EntriesForSnoc(cs: seq<SourceCategory>, c: SourceCategory, srcs: seq<Source>)
    ensures EntriesFor(cs + [c], srcs) == EntriesFor(cs, srcs) + [Entry(c.slug, CategoryGroup(c, InCategory(srcs, c.id)))]
  {
  }

  lemma FreshSlug(cats: seq<SourceCategory>, srcs: seq<Source>)
    requires |cats| > 0 && UniqueCategorySlugs(cats)
    ensures cats[|cats| - 1].slug !in SlugSet(CategoriesWithSources(cats[..|cats| - 1], srcs))
  {
    var prefix, last := cats[..|cats| - 1], cats[|cats| - 1];
    forall c | c in CategoriesWithSources(prefix, srcs) ensures c.slug != last.slug {
      var i :| 0 <= i < |prefix| && prefix[i] == c;
      assert cats[i] == c;
    }
  }

  /** With unique category slugs no property is ever overwritten, so the keys are inserted in
      the fetched (sort_order) order of the categories that have sources. */
  lemma {:induction false} GroupingInCategoryOrder(cats: seq<SourceCategory>, srcs: seq<Source>)
    requires UniqueCategorySlugs(cats)
    ensures Grouping(cats, srcs) == EntriesFor(CategoriesWithSources(cats, srcs), srcs)
    decreases |cats|
  {
    if cats == [] {
      assert CategoriesWithSources(cats, srcs) == [];
    } else {
      var prefix, last := cats[..|cats| - 1], cats[|cats| - 1];
      assert UniqueCategorySlugs(prefix);
      GroupingInCategoryOrder(prefix, srcs);
      assert cats == prefix + [last];
      CategoriesWithSourcesSnoc(prefix, last, srcs);
      var before := CategoriesWithSources(prefix, srcs);
      var cs := InCategory(srcs, last.id);
      if |cs| > 0 {
        var g := CategoryGroup(last, cs);
        GroupingKeys(prefix, srcs);
        FreshSlug(cats, srcs);
        assert last.slug !in KeySet(Grouping(prefix, srcs));
        assert Grouping(cats, srcs) == Put(Grouping(prefix, srcs), last.slug, g);
        assert Grouping(cats, srcs) == EntriesFor(before, srcs) + [Entry(last.slug, g)];
        EntriesForSnoc(before, last, srcs);
        assert CategoriesWithSources(cats, srcs) == before + [last];
      } else {
        assert Grouping(cats, srcs) == Grouping(prefix, srcs);
        assert CategoriesWithSources(cats, srcs) == before;
      }
    }
  }

  /** With unique slugs and sorted categories, the groups come out in sort_order. */
  lemma GroupKeysInSortOrder(cats: seq<SourceCategory>, srcs: seq<Source>)
    requires UniqueCategorySlugs(cats)
    requires CategoriesInOrder(cats)
    ensures forall i, j :: 0 <= i < j < |Grouping(cats, srcs)| ==>
              CategoryLe(Grouping(cats, srcs)[i].group.category, Grouping(cats, srcs)[j].group.category)
  {
    GroupingInCategoryOrder(cats, srcs);
    FilterKeepsOrder(cats, HasSourcesIn(srcs), CategoryLe);
  }

  // ---------------------------------------------------------------------------
  // Single-row queries: `.eq('slug', slug).single()`
  // ---------------------------------------------------------------------------

  function HasSlug(slug: string): Source -> bool {
    (s: Source) => s.slug == slug
  }

  /** `getSourceBySlug`: the row whose slug is exactly `slug`, null on error or no row. */
  function GetSourceBySlug(db: Store, slug: string, fault: Option<string>): (r: Option<Source>)
    ensures r.Some? ==> r.value in db.sources && r.value.slug == slug
    ensures fault.Some? ==> r.None?
    ensures fault.None? && (forall s :: s in db.sources ==> s.slug != slug) ==> r.None?
  {
    if fault.Some? then None else
    var rows := Filter(db.sources, HasSlug(slug));
    if rows != [] then assert rows[0] in rows; Single(rows) else Single(rows)
  }

  lemma {:induction false} UniqueSlugMatchesOnce(srcs: seq<Source>, s: Source)
    requires UniqueSourceSlugs(srcs)
    requires s in srcs
    ensures Filter(srcs, HasSlug(s.slug)) == [s]
    decreases |srcs|
  {
    var tail := Filter(srcs[1..], HasSlug(s.slug));
    assert UniqueSourceSlugs(srcs[1..]) by {
      forall i, j | 0 <= i < j < |srcs[1..]| ensures srcs[1..][i].slug != srcs[1..][j].slug {
        assert srcs[1..][i] == srcs[i + 1] && srcs[1..][j] == srcs[j + 1];
      }
    }
    if srcs[0] == s {
      forall t | t in srcs[1..] ensures t.slug != s.slug {
        var k :| 0 <= k < |srcs[1..]| && srcs[1..][k] == t;
        assert srcs[k + 1] == t;
      }
      FilterNone(srcs[1..], HasSlug(s.slug));
    } else {
      assert s in srcs[1..];
      UniqueSlugMatchesOnce(srcs[1..], s);
      assert srcs[0].slug != s.slug by {
        var k :| 0 <= k < |srcs| && srcs[k] == s;
        assert k != 0;
      }
    }
  }

  /** Exact-slug round trip: with unique slugs, looking up a stored source's slug returns it. */
  lemma SourceBySlugFound(db: Store, s: Source)
    requires UniqueSourceSlugs(db.sources)
    requires s in db.sources
    ensures GetSourceBySlug(db, s.slug, None) == Some(s)
  {
    UniqueSlugMatchesOnce(db.sources, s);
  }

  /** `getSourceWithPassages`: the source of that slug with all of its passages (in no
      particular order); null on error or no row. */
  function GetSourceWithPassages(db: Store, slug: string, fault: Option<string>): (r: Option<SourceWithPassages>)
    ensures r.Some? <==> GetSourceBySlug(db, slug, fault).Some?
    ensures r.Some? ==> r.value.source == GetSourceBySlug(db, slug, fault).value
    ensures r.Some? ==> forall p :: p in r.value.passages <==> p in db.passages && p.sourceId == r.value.source.id
  {
    match GetSourceBySlug(db, slug, fault)
    case None => None
    case Some(s) => Some(SourceWithPassages(s, Filter(db.passages, (p: SourcePassage) => p.sourceId == s.id)))
  }

  /** The eight columns the citation query selects. */
  function Project(s: Source): CitationData {
    CitationData(s.slug, s.title, s.shortTitle, s.author, s.year, s.sourceType, s.url, s.description)
  }

  /** `getCitationData`: the projection of the exact-slug match; null on error or no row. */
  function GetCitationData(db: Store, slug: string, fault: Option<string>): (r: Option<CitationData>)
    ensures r.Some? <==> GetSourceBySlug(db, slug, fault).Some?
    ensures r.Some? ==>
              var s := GetSourceBySlug(db, slug, fault).value;
              && r.value.slug == slug && r.value.title == s.title && r.value.shortTitle == s.shortTitle
              && r.value.author == s.author && r.value.year == s.year && r.value.sourceType == s.sourceType
              && r.value.url == s.url && r.value.description == s.description
  {
    match GetSourceBySlug(db, slug, fault)
    case None => None
    case Some(s) => Some(Project(s))
  }

  /** A slug that matches no stored source gives the not-found signal. */
  lemma CitationMissing(db: Store, slug: string, fault: Option<string>)
    requires forall s :: s in db.sources ==> s.slug != slug
    ensures GetCitationData(db, slug, fault).None?
  {
  }
}
