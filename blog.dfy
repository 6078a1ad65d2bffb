/** The blog repository: the post, tag and category queries, the flattening of a post's tag
    junction rows, and the storage url helper with its query string.
    As for the sources, the tables are in-memory and whether a query fails is an input. */
module Blog {
  import opened Wrappers
  import opened Seqs
  import opened Js

  // ---------------------------------------------------------------------------
  // Rows
  // ---------------------------------------------------------------------------

  datatype PostStatus = Draft | Published | Archived

  /** A row of `blog_categories`. */
  datatype BlogCategory = BlogCategory(id: string, slug: string, name: string, sortOrder: Option<int>)

  /** A row of `tags`. */
  datatype Tag = Tag(id: string, slug: string, name: string)

  /** A row of `blog_post_tags`: the many-to-many link between posts and tags. */
  datatype PostTag = PostTag(postId: string, tagId: string)

  /** A row of `blog_posts`; `publishedAt` is the timestamp as an instant, so comparing two of them
      is comparing the instants. */
  datatype BlogPost = BlogPost(
    id: string,
    slug: string,
    title: string,
    status: Option<PostStatus>,
    publishedAt: Option<int>,
    categoryId: Option<string>)

  /** A post as the repository returns it: the row, its embedded category and its flat tag list
      (which replaces the row's own `tags` column). */
  datatype PostWithTags = PostWithTags(post: BlogPost, category: Option<BlogCategory>, tags: seq<Tag>)

  /** The tables. `posts` is in the order of `published_at` descending, which is the order every
      list query asks for; `now` is the instant of the request. */
  datatype BlogStore = BlogStore(
    categories: seq<BlogCategory>,
    tags: seq<Tag>,
    postTags: seq<PostTag>,
    posts: seq<BlogPost>,
    now: int)

  /** `.eq("status", "published").lte("published_at", now)`: published and not scheduled for later.
      A null timestamp never passes. */
  predicate Visible(p: BlogPost, now: int) {
    p.status == Some(Published) && p.publishedAt.Some? && p.publishedAt.value <= now
  }

  function IsVisible(now: int): BlogPost -> bool {
    (p: BlogPost) => Visible(p, now)
  }

  /** `published_at` descending with nulls last. */
  predicate NewerOrSame(x: BlogPost, y: BlogPost) {
    match x.publishedAt
    case None => y.publishedAt.None?
    case Some(a) => y.publishedAt.None? || a >= y.publishedAt.value
  }

  ghost predicate NewestFirst(ps: seq<BlogPost>) {
    Sorted(ps, NewerOrSame)
  }

  ghost predicate UniqueTagIds(ts: seq<Tag>) {
    forall i, j :: 0 <= i < j < |ts| ==> ts[i].id != ts[j].id
  }

  // ---------------------------------------------------------------------------
  // Tag flattening
  // ---------------------------------------------------------------------------

  /** `.filter(Boolean)` on the embedded tags: the present ones, in order. */
  function PresentTags(embedded: seq<Option<Tag>>): (tags: seq<Tag>)
    ensures |tags| <= |embedded|
    ensures forall t :: t in tags <==> Some(t) in embedded
    decreases |embedded|
  {
    if embedded == [] then []
    else
      var rest := PresentTags(embedded[1..]);
      assert forall o :: o in embedded <==> o == embedded[0] || o in embedded[1..];
      if embedded[0].Some? then [embedded[0].value] + rest else rest
  }

  lemma {:induction false} PresentTagsAppend(a: seq<Option<Tag>>, b: seq<Option<Tag>>)
    ensures PresentTags(a + b) == PresentTags(a) + PresentTags(b)
    decreases |a|
  {
    if a == [] {
      assert a + b == b;
    } else {
      assert (a + b)[1..] == a[1..] + b;
      PresentTagsAppend(a[1..], b);
    }
  }

  /** When every junction row has its tag, nothing is dropped. */
  lemma {:induction false} PresentTagsKeepsAll(embedded: seq<Option<Tag>>)
    requires forall k :: 0 <= k < |embedded| ==> embedded[k].Some?
    ensures |PresentTags(embedded)| == |embedded|
    ensures forall k :: 0 <= k < |embedded| ==> PresentTags(embedded)[k] == embedded[k].value
    decreases |embedded|
  {
    if embedded != [] {
      PresentTagsKeepsAll(embedded[1..]);
    }
  }

  /** `post.blog_post_tags?.map(j => j.tag).filter(Boolean) || []`: no junction list gives `[]`. */
  function FlattenTags(junctions: Option<seq<Option<Tag>>>): (tags: seq<Tag>)
    ensures junctions.None? ==> tags == []
    ensures junctions.Some? ==> forall t :: t in tags <==> Some(t) in junctions.value
  {
    if junctions.None? then [] else PresentTags(junctions.value)
  }

  /** The first tag with this id: the embedding through `tag_id`. */
  function TagById(tags: seq<Tag>, id: string): (t: Option<Tag>)
    ensures t.Some? ==> t.value in tags && t.value.id == id
    ensures t.None? ==> forall u :: u in tags ==> u.id != id
    decreases |tags|
  {
    if tags == [] then None
    else if tags[0].id == id then Some(tags[0])
    else TagById(tags[1..], id)
  }

  lemma {:induction false} TagByIdUnique(tags: seq<Tag>, t: Tag)
    requires UniqueTagIds(tags) && t in tags
    ensures TagById(tags, t.id) == Some(t)
    decreases |tags|
  {
    if tags[0] != t {
      assert t in tags[1..];
      assert forall i, j :: 0 <= i < j < |tags[1..]| ==> tags[1..][i] == tags[i + 1] && tags[1..][j] == tags[j + 1];
      TagByIdUnique(tags[1..], t);
    }
  }

  function LinksOf(postId: string): PostTag -> bool {
    (l: PostTag) => l.postId == postId
  }

  /** `e` is what some junction row of post `p` embeds. */
  ghost predicate EmbeddedByLink(db: BlogStore, p: BlogPost, e: Option<Tag>) {
    exists l :: l in db.postTags && l.postId == p.id && e == TagById(db.tags, l.tagId)
  }

  /** `blog_post_tags(tag:tags(*))`: the post's junction rows, each with its tag embedded. */
  function EmbeddedTags(db: BlogStore, p: BlogPost): (embedded: seq<Option<Tag>>)
    ensures forall k :: 0 <= k < |embedded| ==> EmbeddedByLink(db, p, embedded[k])
  {
    var links := Filter(db.postTags, LinksOf(p.id));
    var tags := seq(|links|, k requires 0 <= k < |links| => TagById(db.tags, links[k].tagId));
    EmbeddedTagsComeFromLinks(db, p, links, tags);
    tags
  }

  lemma EmbeddedTagsComeFromLinks(db: BlogStore, p: BlogPost, links: seq<PostTag>, tags: seq<Option<Tag>>)
    requires links == Filter(db.postTags, LinksOf(p.id))
    requires |tags| == |links| && forall k :: 0 <= k < |links| ==> tags[k] == TagById(db.tags, links[k].tagId)
    ensures forall k :: 0 <= k < |tags| ==> EmbeddedByLink(db, p, tags[k])
  {
    forall k | 0 <= k < |tags| ensures EmbeddedByLink(db, p, tags[k]) {
      var l := links[k];
      assert l in links && LinksOf(p.id)(l);
      assert l in db.postTags && l.postId == p.id && tags[k] == TagById(db.tags, l.tagId);
    }
  }

  function CategoryById(cats: seq<BlogCategory>, id: Option<string>): (c: Option<BlogCategory>)
    ensures c.Some? ==> c.value in cats && id == Some(c.value.id)
    ensures c.None? ==> id.None? || forall k :: k in cats ==> k.id != id.value
    decreases |cats|
  {
    if id.None? || cats == [] then None
    else if cats[0].id == id.value then Some(cats[0])
    else CategoryById(cats[1..], id)
  }

  /** A returned post: the row with its category and its flat tag list. */
  function WithTags(db: BlogStore, p: BlogPost): (r: PostWithTags)
    ensures r.post == p && r.category == CategoryById(db.categories, p.categoryId)
    ensures forall t :: t in r.tags <==> Some(t) in EmbeddedTags(db, p)
  {
    PostWithTags(p, CategoryById(db.categories, p.categoryId), FlattenTags(Some(EmbeddedTags(db, p))))
  }

  function WithTagsAll(db: BlogStore, ps: seq<BlogPost>): (rs: seq<PostWithTags>)
    ensures |rs| == |ps| && forall k :: 0 <= k < |ps| ==> rs[k] == WithTags(db, ps[k])
  {
    seq(|ps|, k requires 0 <= k < |ps| => WithTags(db, ps[k]))
  }

  /** A post carries a tag whenever a junction row links the two (tag ids being unique). */
  lemma LinkedTagIsCarried(db: BlogStore, p: BlogPost, t: Tag)
    requires UniqueTagIds(db.tags) && t in db.tags
    requires PostTag(p.id, t.id) in db.postTags
    ensures t in WithTags(db, p).tags
  {
    var links := Filter(db.postTags, LinksOf(p.id));
    assert PostTag(p.id, t.id) in links;
    var k :| 0 <= k < |links| && links[k] == PostTag(p.id, t.id);
    TagByIdUnique(db.tags, t);
    assert EmbeddedTags(db, p)[k] == Some(t);
  }

  // ---------------------------------------------------------------------------
  // Queries
  // ---------------------------------------------------------------------------

  /** `getBlogCategories`: every category, `[]` on error. */
  function GetBlogCategories(db: BlogStore, fault: Option<string>): (r: seq<BlogCategory>)
    ensures fault.Some? ==> r == []
    ensures fault.None? ==> r == db.categories
  {
    if fault.Some? then [] else db.categories
  }

  /** `getAllTags`: every tag, `[]` on error. */
  function GetAllTags(db: BlogStore, fault: Option<string>): (r: seq<Tag>)
    ensures fault.Some? ==> r == []
    ensures fault.None? ==> r == db.tags
  {
    if fault.Some? then [] else db.tags
  }

  /** `.limit(limit)` when `limit` is truthy: 0 and a missing limit both mean no limit. */
  function Limit<T>(rows: seq<T>, limit: Option<nat>): (r: seq<T>)
    ensures limit.None? || limit.value == 0 ==> r == rows
    ensures limit.Some? && limit.value > 0 ==> |r| == if limit.value < |rows| then limit.value else |rows|
    ensures r <= rows
  {
    if limit.Some? && limit.value > 0 && limit.value < |rows| then rows[..limit.value] else rows
  }

  /** `getPublishedPosts`: the visible posts, newest first, up to `limit`, with their tags. */
  function GetPublishedPosts(db: BlogStore, limit: Option<nat>, fault: Option<string>): (r: seq<PostWithTags>)
    ensures fault.Some? ==> r == []
    ensures fault.None? ==> r == WithTagsAll(db, Limit(Filter(db.posts, IsVisible(db.now)), limit))
    ensures forall k :: 0 <= k < |r| ==> r[k].post in db.posts && Visible(r[k].post, db.now)
  {
    if fault.Some? then []
    else
      var rows := Limit(Filter(db.posts, IsVisible(db.now)), limit);
      assert forall k :: 0 <= k < |rows| ==> rows[k] in Filter(db.posts, IsVisible(db.now));
      WithTagsAll(db, rows)
  }

  /** The published list is newest first, whatever the limit. */
  lemma PublishedPostsNewestFirst(db: BlogStore, limit: Option<nat>)
    requires NewestFirst(db.posts)
    ensures var r := GetPublishedPosts(db, limit, None);
            forall i, j :: 0 <= i < j < |r| ==> NewerOrSame(r[i].post, r[j].post)
  {
    var all := Filter(db.posts, IsVisible(db.now));
    FilterKeepsOrder(db.posts, IsVisible(db.now), NewerOrSame);
    var rows := Limit(all, limit);
    assert forall i :: 0 <= i < |rows| ==> rows[i] == all[i];
  }

  /** A truthy limit caps the list; a limit of 0 does not. */
  lemma ZeroLimitIsNoLimit(db: BlogStore)
    ensures GetPublishedPosts(db, Some(0), None) == GetPublishedPosts(db, None, None)
  {
  }

  function PostHasSlug(slug: string): BlogPost -> bool {
    (p: BlogPost) => p.slug == slug
  }

  function VisibleWithSlug(slug: string, now: int): BlogPost -> bool {
    (p: BlogPost) => p.slug == slug && Visible(p, now)
  }

  /** `getPostBySlug`: the one visible post with this slug, with its tags; null when there is
      none, more than one, or the query fails. */
  function GetPostBySlug(db: BlogStore, slug: string, fault: Option<string>): (r: Option<PostWithTags>)
    ensures r.Some? ==> r.value.post in db.posts && r.value.post.slug == slug && Visible(r.value.post, db.now)
    ensures r.Some? ==> r.value == WithTags(db, r.value.post)
    ensures fault.Some? ==> r.None?
    ensures (forall p :: p in db.posts ==> !(p.slug == slug && Visible(p, db.now))) ==> r.None?
    ensures r.Some? ==> exists j :: OnlyMatch(db.posts, VisibleWithSlug(slug, db.now), j)
    ensures fault.None? ==> forall j :: OnlyMatch(db.posts, VisibleWithSlug(slug, db.now), j) ==>
              r == Some(WithTags(db, db.posts[j]))
  {
    if fault.Some? then None
    else
      var rows := Filter(db.posts, VisibleWithSlug(slug, db.now));
      assert forall j :: OnlyMatch(db.posts, VisibleWithSlug(slug, db.now), j) ==> rows == [db.posts[j]] by {
        forall j | OnlyMatch(db.posts, VisibleWithSlug(slug, db.now), j) ensures rows == [db.posts[j]] {
          FilterOnlyMatch(db.posts, VisibleWithSlug(slug, db.now), j);
        }
      }
      if |rows| == 1 then
        assert rows[0] in rows;
        SingleFilterHasOnlyMatch(db.posts, VisibleWithSlug(slug, db.now));
        Some(WithTags(db, rows[0]))
      else None
  }

  /** A draft, archived or scheduled post is never served by its slug. */
  lemma HiddenPostNotServed(db: BlogStore, slug: string, fault: Option<string>)
    requires forall p :: p in db.posts && p.slug == slug ==> !Visible(p, db.now)
    ensures GetPostBySlug(db, slug, fault).None?
  {
  }

  function IsPublished(): BlogPost -> bool {
    (p: BlogPost) => p.status == Some(Published)
  }

  /** `getAllPostSlugs` (the sitemap): the slugs of the published posts. No date filter. */
  function GetAllPostSlugs(db: BlogStore, fault: Option<string>): (r: seq<string>)
    ensures fault.Some? ==> r == []
    ensures fault.None? ==> forall s :: s in r <==> exists p :: p in db.posts && p.status == Some(Published) && p.slug == s
  {
    if fault.Some? then []
    else
      var rows := Filter(db.posts, IsPublished());
      var slugs := seq(|rows|, k requires 0 <= k < |rows| => rows[k].slug);
      assert forall p :: p in rows ==> p.slug in slugs by {
        forall p | p in rows ensures p.slug in slugs {
          var k :| 0 <= k < |rows| && rows[k] == p;
          assert slugs[k] == p.slug;
        }
      }
      slugs
  }

  /** The sitemap lists every post that can be served, and also published posts scheduled for
      later, which `getPostBySlug` does not serve yet. */
  lemma SitemapCoversServedPosts(db: BlogStore, slug: string)
    requires GetPostBySlug(db, slug, None).Some?
    ensures slug in GetAllPostSlugs(db, None)
  {
    var p := GetPostBySlug(db, slug, None).value.post;
    assert p.status == Some(Published);
  }

  lemma SitemapListsScheduledPost(db: BlogStore, p: BlogPost, fault: Option<string>)
    requires p in db.posts && p.status == Some(Published)
    requires p.publishedAt.Some? && p.publishedAt.value > db.now
    ensures p.slug in GetAllPostSlugs(db, None)
    ensures GetPostBySlug(db, p.slug, fault).Some? ==> GetPostBySlug(db, p.slug, fault).value.post != p
  {
  }

  function CategoryHasSlug(slug: string): BlogCategory -> bool {
    (c: BlogCategory) => c.slug == slug
  }

  /** `getCategoryBySlug`: the one category with this slug, null otherwise. */
  function GetCategoryBySlug(db: BlogStore, slug: string, fault: Option<string>): (r: Option<BlogCategory>)
    ensures r.Some? ==> r.value in db.categories && r.value.slug == slug
    ensures fault.Some? ==> r.None?
    ensures r.Some? ==> exists j :: OnlyMatch(db.categories, CategoryHasSlug(slug), j)
    ensures fault.None? ==> forall j :: OnlyMatch(db.categories, CategoryHasSlug(slug), j) ==>
              r == Some(db.categories[j])
  {
    if fault.Some? then None
    else
      var rows := Filter(db.categories, CategoryHasSlug(slug));
      assert forall j :: OnlyMatch(db.categories, CategoryHasSlug(slug), j) ==> rows == [db.categories[j]] by {
        forall j | OnlyMatch(db.categories, CategoryHasSlug(slug), j) ensures rows == [db.categories[j]] {
          FilterOnlyMatch(db.categories, CategoryHasSlug(slug), j);
        }
      }
      if |rows| == 1 then
        assert rows[0] in rows;
        SingleFilterHasOnlyMatch(db.categories, CategoryHasSlug(slug));
        Some(rows[0])
      else None
  }

  function TagHasSlug(slug: string): Tag -> bool {
    (t: Tag) => t.slug == slug
  }

  /** `getTagBySlug`: the one tag with this slug, null otherwise. */
  function GetTagBySlug(db: BlogStore, slug: string, fault: Option<string>): (r: Option<Tag>)
    ensures r.Some? ==> r.value in db.tags && r.value.slug == slug
    ensures fault.Some? ==> r.None?
    ensures r.Some? ==> exists j :: OnlyMatch(db.tags, TagHasSlug(slug), j)
    ensures fault.None? ==> forall j :: OnlyMatch(db.tags, TagHasSlug(slug), j) ==> r == Some(db.tags[j])
  {
    if fault.Some? then None
    else
      var rows := Filter(db.tags, TagHasSlug(slug));
      assert forall j :: OnlyMatch(db.tags, TagHasSlug(slug), j) ==> rows == [db.tags[j]] by {
        forall j | OnlyMatch(db.tags, TagHasSlug(slug), j) ensures rows == [db.tags[j]] {
          FilterOnlyMatch(db.tags, TagHasSlug(slug), j);
        }
      }
      if |rows| == 1 then
        assert rows[0] in rows;
        SingleFilterHasOnlyMatch(db.tags, TagHasSlug(slug));
        Some(rows[0])
      else None
  }

  function InBlogCategory(id: string, now: int): BlogPost -> bool {
    (p: BlogPost) => p.categoryId == Some(id) && Visible(p, now)
  }

  /** `getPostsByCategory`: `[]` when the slug names no single category (a failing lookup reads
      the same) or the post query fails; otherwise the category's visible posts with their tags. */
  function GetPostsByCategory(db: BlogStore, categorySlug: string, lookupFault: Option<string>, fault: Option<string>)
    : (r: seq<PostWithTags>)
    ensures GetCategoryBySlug(db, categorySlug, lookupFault).None? ==> r == []
    ensures fault.Some? ==> r == []
    ensures forall k :: 0 <= k < |r| ==>
              && r[k].post in db.posts && Visible(r[k].post, db.now)
              && GetCategoryBySlug(db, categorySlug, lookupFault).Some?
              && r[k].post.categoryId == Some(GetCategoryBySlug(db, categorySlug, lookupFault).value.id)
    ensures forall k :: 0 <= k < |r| ==> r[k] == WithTags(db, r[k].post)
  {
    var category := GetCategoryBySlug(db, categorySlug, lookupFault);
    if category.None? || fault.Some? then []
    else
      var rows := Filter(db.posts, InBlogCategory(category.value.id, db.now));
      assert forall k :: 0 <= k < |rows| ==> rows[k] in rows;
      WithTagsAll(db, rows)
  }

  /** Every visible post of the category is listed. */
  lemma CategoryListsAllItsPosts(db: BlogStore, categorySlug: string, p: BlogPost)
    requires GetCategoryBySlug(db, categorySlug, None).Some?
    requires p in db.posts && Visible(p, db.now)
    requires p.categoryId == Some(GetCategoryBySlug(db, categorySlug, None).value.id)
    ensures WithTags(db, p) in GetPostsByCategory(db, categorySlug, None, None)
  {
    var rows := Filter(db.posts, InBlogCategory(GetCategoryBySlug(db, categorySlug, None).value.id, db.now));
    assert p in rows;
    var k :| 0 <= k < |rows| && rows[k] == p;
    assert GetPostsByCategory(db, categorySlug, None, None)[k] == WithTags(db, p);
  }

  function LinksTo(tagId: string): PostTag -> bool {
    (l: PostTag) => l.tagId == tagId
  }

  function PostIds(links: seq<PostTag>): (ids: seq<string>)
    ensures forall id :: id in ids <==> exists l :: l in links && l.postId == id
  {
    var ids := seq(|links|, k requires 0 <= k < |links| => links[k].postId);
    assert forall l :: l in links ==> l.postId in ids by {
      forall l | l in links ensures l.postId in ids {
        var k :| 0 <= k < |links| && links[k] == l;
        assert ids[k] == l.postId;
      }
    }
    ids
  }

  function InIds(ids: seq<string>, now: int): BlogPost -> bool {
    (p: BlogPost) => p.id in ids && Visible(p, now)
  }

  /** `getPostsByTag`: `[]` when the slug names no single tag, when no junction row links to it
      (or that lookup fails), or when the post query fails; otherwise the visible posts that a
      junction row links to the tag, with their tags. */
  function GetPostsByTag(db: BlogStore, tagSlug: string, tagFault: Option<string>, linkFault: Option<string>,
                         fault: Option<string>): (r: seq<PostWithTags>)
    ensures GetTagBySlug(db, tagSlug, tagFault).None? ==> r == []
    ensures GetTagBySlug(db, tagSlug, tagFault).Some? &&
            (forall l :: l in db.postTags ==> l.tagId != GetTagBySlug(db, tagSlug, tagFault).value.id)
            ==> r == []
    ensures linkFault.Some? || fault.Some? ==> r == []
    ensures forall k :: 0 <= k < |r| ==>
              && r[k].post in db.posts && Visible(r[k].post, db.now)
              && GetTagBySlug(db, tagSlug, tagFault).Some?
              && exists l :: l in db.postTags && l == PostTag(r[k].post.id, GetTagBySlug(db, tagSlug, tagFault).value.id)
    ensures forall k :: 0 <= k < |r| ==> r[k] == WithTags(db, r[k].post)
    ensures GetTagBySlug(db, tagSlug, tagFault).Some? && linkFault.None? && fault.None? ==>
              forall p :: p in db.posts && Visible(p, db.now) &&
                          PostTag(p.id, GetTagBySlug(db, tagSlug, tagFault).value.id) in db.postTags
                          ==> WithTags(db, p) in r
  {
    var tag := GetTagBySlug(db, tagSlug, tagFault);
    if tag.None? || linkFault.Some? then []
    else
      var links := Filter(db.postTags, LinksTo(tag.value.id));
      LinkedPostsListed(db, tag.value.id, links);
      if |links| == 0 || fault.Some? then
        []
      else
        assert links[0] in links;
        var rows := Filter(db.posts, InIds(PostIds(links), db.now));
        assert forall k :: 0 <= k < |rows| ==> rows[k] in rows;
        WithTagsAll(db, rows)
  }

  /** Every visible post that a junction row links to the tag is in the list the post query
      builds; in particular, with no such row there is no such post. */
  lemma LinkedPostsListed(db: BlogStore, tagId: string, links: seq<PostTag>)
    requires links == Filter(db.postTags, LinksTo(tagId))
    ensures forall p :: p in db.posts && Visible(p, db.now) && PostTag(p.id, tagId) in db.postTags ==>
              |links| > 0 && WithTags(db, p) in WithTagsAll(db, Filter(db.posts, InIds(PostIds(links), db.now)))
  {
    var rows := Filter(db.posts, InIds(PostIds(links), db.now));
    forall p | p in db.posts && Visible(p, db.now) && PostTag(p.id, tagId) in db.postTags
      ensures |links| > 0 && WithTags(db, p) in WithTagsAll(db, rows)
    {
      assert PostTag(p.id, tagId) in links;
      assert p in rows;
      var k :| 0 <= k < |rows| && rows[k] == p;
      assert WithTagsAll(db, rows)[k] == WithTags(db, p);
    }
  }

  /** Every listed post is visible, is linked to the tag by a junction row, and (tag ids being
      unique) carries that tag in its flat tag list. */
  lemma TaggedPostsCarryTag(db: BlogStore, tagSlug: string, k: nat)
    requires UniqueTagIds(db.tags)
    requires k < |GetPostsByTag(db, tagSlug, None, None, None)|
    ensures var r := GetPostsByTag(db, tagSlug, None, None, None)[k];
            var t := GetTagBySlug(db, tagSlug, None);
            && t.Some? && r.post in db.posts && Visible(r.post, db.now)
            && PostTag(r.post.id, t.value.id) in db.postTags
            && t.value in r.tags
  {
    var t := GetTagBySlug(db, tagSlug, None).value;
    var links := Filter(db.postTags, LinksTo(t.id));
    var rows := Filter(db.posts, InIds(PostIds(links), db.now));
    var p := rows[k];
    assert p in rows;
    var l :| l in links && l.postId == p.id;
    assert l == PostTag(p.id, t.id);
    LinkedTagIsCarried(db, p, t);
  }

  // ---------------------------------------------------------------------------
  // Adjacent posts
  // ---------------------------------------------------------------------------

  function OlderThan(t: int, now: int): BlogPost -> bool {
    (p: BlogPost) => Visible(p, now) && p.publishedAt.value < t
  }

  function NewerThan(t: int, now: int): BlogPost -> bool {
    (p: BlogPost) => Visible(p, now) && p.publishedAt.value > t
  }

  datatype Adjacent = Adjacent(previous: Option<PostWithTags>, next: Option<PostWithTags>)

  lemma FirstIsNewest(ps: seq<BlogPost>, q: BlogPost)
    requires Sorted(ps, NewerOrSame) && q in ps
    requires forall p :: p in ps ==> p.publishedAt.Some?
    ensures q.publishedAt.value <= ps[0].publishedAt.value
  {
    var j :| 0 <= j < |ps| && ps[j] == q;
    if j > 0 {
      assert NewerOrSame(ps[0], ps[j]);
    }
  }

  lemma LastIsOldest(ps: seq<BlogPost>, q: BlogPost)
    requires Sorted(ps, NewerOrSame) && q in ps
    requires forall p :: p in ps ==> p.publishedAt.Some?
    ensures q.publishedAt.value >= ps[|ps| - 1].publishedAt.value
  {
    var j :| 0 <= j < |ps| && ps[j] == q;
    if j < |ps| - 1 {
      assert NewerOrSame(ps[j], ps[|ps| - 1]);
    }
  }

  /** No visible post is published strictly between `lo` and `hi`. */
  ghost predicate NoVisibleBetween(ps: seq<BlogPost>, now: int, lo: int, hi: int) {
    forall q :: q in ps && Visible(q, now) ==> !(lo < q.publishedAt.value < hi)
  }

  /** Newest first, the first visible post older than `t` is the newest of them. */
  lemma NearestOlderBound(ps: seq<BlogPost>, t: int, now: int)
    requires Filter(ps, OlderThan(t, now)) != []
    ensures var older := Filter(ps, OlderThan(t, now));
            NewestFirst(ps) ==> NoVisibleBetween(ps, now, older[0].publishedAt.value, t)
  {
    var older := Filter(ps, OlderThan(t, now));
    if NewestFirst(ps) {
      assert older[0] in older;
      FilterKeepsOrder(ps, OlderThan(t, now), NewerOrSame);
      forall q | q in ps && Visible(q, now) && q.publishedAt.value < t
        ensures q.publishedAt.value <= older[0].publishedAt.value
      {
        assert OlderThan(t, now)(q);
        assert q in older;
        FirstIsNewest(older, q);
      }
    }
  }

  /** Newest first, the last visible post newer than `t` is the oldest of them. */
  lemma NearestNewerBound(ps: seq<BlogPost>, t: int, now: int, oldest: BlogPost)
    requires Filter(ps, NewerThan(t, now)) != []
    requires oldest == Filter(ps, NewerThan(t, now))[|Filter(ps, NewerThan(t, now))| - 1]
    ensures oldest in ps && Visible(oldest, now) && oldest.publishedAt.value > t
    ensures NewestFirst(ps) ==> NoVisibleBetween(ps, now, t, oldest.publishedAt.value)
  {
    var newer := Filter(ps, NewerThan(t, now));
    assert oldest in newer && NewerThan(t, now)(oldest);
    if NewestFirst(ps) {
      FilterKeepsOrder(ps, NewerThan(t, now), NewerOrSame);
      forall q | q in ps && Visible(q, now) && q.publishedAt.value > t
        ensures q.publishedAt.value >= oldest.publishedAt.value
      {
        assert NewerThan(t, now)(q);
        assert q in newer;
        LastIsOldest(newer, q);
      }
    }
  }

  /** The previous-post query: visible, published before `t`, newest first, at most one row. */
  function NearestOlder(ps: seq<BlogPost>, t: int, now: int): (r: Option<BlogPost>)
    ensures r.None? <==> forall q :: q in ps ==> !(Visible(q, now) && q.publishedAt.value < t)
    ensures r.Some? ==> r.value in ps && Visible(r.value, now) && r.value.publishedAt.value < t
    ensures r.Some? && NewestFirst(ps) ==> NoVisibleBetween(ps, now, r.value.publishedAt.value, t)
  {
    var older := Filter(ps, OlderThan(t, now));
    if older == [] then
      assert forall q :: q in ps && Visible(q, now) && q.publishedAt.value < t ==> q in older;
      None
    else
      assert older[0] in older;
      NearestOlderBound(ps, t, now);
      Some(older[0])
  }

  /** The next-post query: visible, published after `t`, oldest first, at most one row. */
  function NearestNewer(ps: seq<BlogPost>, t: int, now: int): (r: Option<BlogPost>)
    ensures r.None? <==> forall q :: q in ps ==> !(Visible(q, now) && q.publishedAt.value > t)
    ensures r.Some? ==> r.value in ps && Visible(r.value, now) && r.value.publishedAt.value > t
    ensures r.Some? && NewestFirst(ps) ==> NoVisibleBetween(ps, now, t, r.value.publishedAt.value)
  {
    var newer := Filter(ps, NewerThan(t, now));
    if newer == [] then
      assert forall q :: q in ps && Visible(q, now) && q.publishedAt.value > t ==> q in newer;
      None
    else
      var oldest := newer[|newer| - 1];
      NearestNewerBound(ps, t, now, oldest);
      Some(oldest)
  }

  /** Whether each of the three queries of `getAdjacentPosts` fails. */
  datatype AdjacentFaults = AdjacentFaults(current: Option<string>, previous: Option<string>, next: Option<string>)

  /** `getAdjacentPosts`: for the one post with this slug (of any status), the newest visible post
      older than it and the oldest visible post newer than it. A failing query reads as no row:
      both are null when the current post's query fails or the slug matches no single post (or
      the post has no timestamp to compare with), and a failing neighbour query gives null for
      that neighbour alone. */
  function GetAdjacentPosts(db: BlogStore, slug: string, faults: AdjacentFaults): (r: Adjacent)
    ensures faults.current.Some? ==> r == Adjacent(None, None)
    ensures Single(Filter(db.posts, PostHasSlug(slug))).None? ==> r == Adjacent(None, None)
    ensures faults.previous.Some? ==> r.previous.None?
    ensures faults.next.Some? ==> r.next.None?
    ensures r.previous.Some? ==> r.previous.value == WithTags(db, r.previous.value.post)
    ensures r.next.Some? ==> r.next.value == WithTags(db, r.next.value.post)
    ensures var cur := Single(Filter(db.posts, PostHasSlug(slug)));
            faults.current.None? && faults.previous.None? && cur.Some? && cur.value.publishedAt.Some? ==>
              (r.previous.Some? <==>
                 exists q :: q in db.posts && Visible(q, db.now) && q.publishedAt.value < cur.value.publishedAt.value)
    ensures var cur := Single(Filter(db.posts, PostHasSlug(slug)));
            faults.current.None? && faults.next.None? && cur.Some? && cur.value.publishedAt.Some? ==>
              (r.next.Some? <==>
                 exists q :: q in db.posts && Visible(q, db.now) && q.publishedAt.value > cur.value.publishedAt.value)
  {
    var current := if faults.current.Some? then None else Single(Filter(db.posts, PostHasSlug(slug)));
    if current.None? || current.value.publishedAt.None? then Adjacent(None, None)
    else
      var t := current.value.publishedAt.value;
      var previous := if faults.previous.Some? then None else NearestOlder(db.posts, t, db.now);
      var next := if faults.next.Some? then None else NearestNewer(db.posts, t, db.now);
      Adjacent(
        if previous.None? then None else Some(WithTags(db, previous.value)),
        if next.None? then None else Some(WithTags(db, next.value)))
  }

  /** Newest first, the previous post is the visible one just before the current post: older
      than it, and no visible post lies strictly between the two. */
  lemma PreviousIsNearestOlder(db: BlogStore, slug: string, faults: AdjacentFaults)
    requires NewestFirst(db.posts)
    requires GetAdjacentPosts(db, slug, faults).previous.Some?
    ensures var cur := Single(Filter(db.posts, PostHasSlug(slug)));
            var prev := GetAdjacentPosts(db, slug, faults).previous.value.post;
            && cur.Some? && cur.value.publishedAt.Some?
            && prev in db.posts && Visible(prev, db.now) && prev.publishedAt.value < cur.value.publishedAt.value
            && NoVisibleBetween(db.posts, db.now, prev.publishedAt.value, cur.value.publishedAt.value)
  {
    var cur := Single(Filter(db.posts, PostHasSlug(slug))).value;
    var older := NearestOlder(db.posts, cur.publishedAt.value, db.now);
    assert GetAdjacentPosts(db, slug, faults).previous == Some(WithTags(db, older.value));
  }

  /** Newest first, the next post is the visible one just after the current post. */
  lemma NextIsNearestNewer(db: BlogStore, slug: string, faults: AdjacentFaults)
    requires NewestFirst(db.posts)
    requires GetAdjacentPosts(db, slug, faults).next.Some?
    ensures var cur := Single(Filter(db.posts, PostHasSlug(slug)));
            var next := GetAdjacentPosts(db, slug, faults).next.value.post;
            && cur.Some? && cur.value.publishedAt.Some?
            && next in db.posts && Visible(next, db.now) && next.publishedAt.value > cur.value.publishedAt.value
            && NoVisibleBetween(db.posts, db.now, cur.value.publishedAt.value, next.publishedAt.value)
  {
    var cur := Single(Filter(db.posts, PostHasSlug(slug))).value;
    var newer := NearestNewer(db.posts, cur.publishedAt.value, db.now);
    assert GetAdjacentPosts(db, slug, faults).next == Some(WithTags(db, newer.value));
  }

  // ---------------------------------------------------------------------------
  // Storage urls
  // ---------------------------------------------------------------------------

  /** `URLSearchParams`: an ordered list of name/value pairs. */
  class SearchParams {
    var pairs: seq<(string, string)>

    constructor ()
      ensures pairs == []
    {
      pairs := [];
    }

    /** `set(name, value)`: the first pair with this name takes the value and later pairs with
        the name go; with no such pair, the pair is appended. */
    method Set(name: string, value: string)
      modifies this
      ensures pairs == SetPair(old(pairs), name, value)
    {
      pairs := SetPair(pairs, name, value);
    }

    /** `toString()`: `name=value` pairs joined by `&` (the names and values here need no escaping). */
    function ToString(): string
      reads this
    {
      Serialize(pairs)
    }
  }

  function NameIsNot(name: string): ((string, string)) -> bool {
    (p: (string, string)) => p.0 != name
  }

  function NameIs(name: string): ((string, string)) -> bool {
    (p: (string, string)) => p.0 == name
  }

  function ReplaceFirstPair(pairs: seq<(string, string)>, name: string, value: string): seq<(string, string)>
    decreases |pairs|
  {
    if pairs == [] then []
    else if pairs[0].0 == name then [(name, value)] + Filter(pairs[1..], NameIsNot(name))
    else [pairs[0]] + ReplaceFirstPair(pairs[1..], name, value)
  }

  function SetPair(pairs: seq<(string, string)>, name: string, value: string): seq<(string, string)> {
    if exists k :: 0 <= k < |pairs| && pairs[k].0 == name then ReplaceFirstPair(pairs, name, value)
    else pairs + [(name, value)]
  }

  function Serialize(pairs: seq<(string, string)>): string
    decreases |pairs|
  {
    if pairs == [] then ""
    else if |pairs| == 1 then pairs[0].0 + "=" + pairs[0].1
    else pairs[0].0 + "=" + pairs[0].1 + "&" + Serialize(pairs[1..])
  }

  /** Replacing the first pair of a present name leaves that name exactly one pair. */
  lemma {:induction false} ReplaceFirstPairKeepsOne(pairs: seq<(string, string)>, name: string, value: string)
    requires exists k :: 0 <= k < |pairs| && pairs[k].0 == name
    ensures Filter(ReplaceFirstPair(pairs, name, value), NameIs(name)) == [(name, value)]
    decreases |pairs|
  {
    var x, t := pairs[0], pairs[1..];
    if x.0 == name {
      var tail := Filter(t, NameIsNot(name));
      assert ReplaceFirstPair(pairs, name, value) == [(name, value)] + tail;
      FilterNone(tail, NameIs(name));
      FilterCons((name, value), tail, NameIs(name));
    } else {
      var k :| 0 <= k < |pairs| && pairs[k].0 == name;
      assert t[k - 1].0 == name;
      ReplaceFirstPairKeepsOne(t, name, value);
      assert ReplaceFirstPair(pairs, name, value) == [x] + ReplaceFirstPair(t, name, value);
      FilterCons(x, ReplaceFirstPair(t, name, value), NameIs(name));
    }
  }

  /** Replacing the first pair of one name does not change the pairs of another. */
  lemma {:induction false} ReplaceFirstPairKeepsOthers(pairs: seq<(string, string)>, name: string, value: string, other: string)
    requires other != name
    ensures Filter(ReplaceFirstPair(pairs, name, value), NameIs(other)) == Filter(pairs, NameIs(other))
    decreases |pairs|
  {
    if pairs != [] {
      var x, t := pairs[0], pairs[1..];
      assert pairs == [x] + t;
      FilterCons(x, t, NameIs(other));
      if x.0 == name {
        var tail := Filter(t, NameIsNot(name));
        assert ReplaceFirstPair(pairs, name, value) == [(name, value)] + tail;
        FilterCons((name, value), tail, NameIs(other));
        FilterThenFilter(t, name, other);
      } else {
        ReplaceFirstPairKeepsOthers(t, name, value, other);
        assert ReplaceFirstPair(pairs, name, value) == [x] + ReplaceFirstPair(t, name, value);
        FilterCons(x, ReplaceFirstPair(t, name, value), NameIs(other));
      }
    }
  }

  lemma FilterCons<T(!new)>(x: T, s: seq<T>, p: T -> bool)
    ensures Filter([x] + s, p) == (if p(x) then [x] else []) + Filter(s, p)
  {
    assert ([x] + s)[1..] == s;
  }

  /** Dropping one name does not change the pairs of another. */
  lemma {:induction false} FilterThenFilter(pairs: seq<(string, string)>, name: string, other: string)
    requires other != name
    ensures Filter(Filter(pairs, NameIsNot(name)), NameIs(other)) == Filter(pairs, NameIs(other))
    decreases |pairs|
  {
    if pairs != [] {
      var x, t := pairs[0], pairs[1..];
      assert pairs == [x] + t;
      FilterThenFilter(t, name, other);
      FilterCons(x, t, NameIsNot(name));
      FilterCons(x, t, NameIs(other));
      if x.0 != name {
        assert NameIsNot(name)(x);
        assert Filter(pairs, NameIsNot(name)) == [x] + Filter(t, NameIsNot(name));
        FilterCons(x, Filter(t, NameIsNot(name)), NameIs(other));
      } else {
        assert !NameIsNot(name)(x) && !NameIs(other)(x);
        assert Filter(pairs, NameIsNot(name)) == Filter(t, NameIsNot(name));
        assert Filter(pairs, NameIs(other)) == Filter(t, NameIs(other));
      }
    }
  }

  /** After `set(name, value)` the name has exactly one pair, holding the value, and every other
      name keeps its pairs in their order. */
  lemma SetPairSpec(pairs: seq<(string, string)>, name: string, value: string, other: string)
    ensures Filter(SetPair(pairs, name, value), NameIs(name)) == [(name, value)]
    ensures other != name ==> Filter(SetPair(pairs, name, value), NameIs(other)) == Filter(pairs, NameIs(other))
  {
    if exists k :: 0 <= k < |pairs| && pairs[k].0 == name {
      ReplaceFirstPairKeepsOne(pairs, name, value);
      if other != name {
        ReplaceFirstPairKeepsOthers(pairs, name, value, other);
      }
    } else {
      FilterAppend(pairs, [(name, value)], NameIs(name));
      FilterNone(pairs, NameIs(name));
      if other != name {
        FilterAppend(pairs, [(name, value)], NameIs(other));
      }
    }
  }

  const StoragePath: string := "/storage/v1/object/public/"

  /** A variable missing from the environment reads as `undefined` in the template literal. */
  function EnvText(v: Option<string>): string {
    if v.Some? then v.value else "undefined"
  }

  predicate IsAbsolute(path: string) {
    StartsWith(path, "http://") || StartsWith(path, "https://")
  }

  /** The transformation query: `width=<w>` then `height=<h>`, each only when truthy. */
  function TransformQuery(width: Option<int>, height: Option<int>): string {
    var w := if NumTruthy(width) then "width=" + IntToString(width.value) else "";
    var h := if NumTruthy(height) then "height=" + IntToString(height.value) else "";
    w + (if NumTruthy(width) && NumTruthy(height) then "&" else "") + h
  }

  /** The url `getSupabaseImageUrl` builds. */
  function ImageUrl(path: Option<string>, width: Option<int>, height: Option<int>, supabaseUrl: Option<string>)
    : Option<string>
  {
    if !StrTruthy(path) then None
    else if IsAbsolute(path.value) then path
    else
      var base := EnvText(supabaseUrl) + StoragePath + path.value;
      if NumTruthy(width) || NumTruthy(height) then Some(base + "?" + TransformQuery(width, height))
      else Some(base)
  }

  /** `getSupabaseImageUrl(path, options)`, reading `NEXT_PUBLIC_SUPABASE_URL` as `supabaseUrl`
      and taking `options?.width` and `options?.height` as the two numbers. */
  method GetSupabaseImageUrl(path: Option<string>, width: Option<int>, height: Option<int>, supabaseUrl: Option<string>)
    returns (url: Option<string>)
    ensures url == ImageUrl(path, width, height, supabaseUrl)
  {
    if !StrTruthy(path) {
      return None;
    }
    var p := path.value;
    if StartsWith(p, "http://") || StartsWith(p, "https://") {
      return path;
    }
    var baseUrl := EnvText(supabaseUrl) + StoragePath + p;
    if NumTruthy(width) || NumTruthy(height) {
      var params := new SearchParams();
      if NumTruthy(width) {
        params.Set("width", IntToString(width.value));
        assert params.pairs == [("width", IntToString(width.value))];
      }
      if NumTruthy(height) {
        assert "width"[0] != "height"[0];
        params.Set("height", IntToString(height.value));
        if NumTruthy(width) {
          assert params.pairs == [("width", IntToString(width.value))] + [("height", IntToString(height.value))];
        } else {
          assert params.pairs == [("height", IntToString(height.value))];
        }
      }
      QueryMatchesParams(width, height, params.pairs);
      return Some(baseUrl + "?" + params.ToString());
    }
    return Some(baseUrl);
  }

  /** The pairs the helper sets serialize to the transformation query. */
  lemma QueryMatchesParams(width: Option<int>, height: Option<int>, pairs: seq<(string, string)>)
    requires NumTruthy(width) || NumTruthy(height)
    requires pairs == (if NumTruthy(width) then [("width", IntToString(width.value))] else [])
                    + (if NumTruthy(height) then [("height", IntToString(height.value))] else [])
    ensures Serialize(pairs) == TransformQuery(width, height)
  {
    if NumTruthy(width) && NumTruthy(height) {
      assert pairs[1..] == [("height", IntToString(height.value))];
      assert Serialize(pairs[1..]) == "height=" + IntToString(height.value);
    }
  }

  /** The storage url of a relative path: the host, the public storage path, the path, and the
      query when there is one. */
  lemma RelativeImageUrl(path: Option<string>, width: Option<int>, height: Option<int>, supabaseUrl: Option<string>)
    requires StrTruthy(path) && !IsAbsolute(path.value)
    ensures ImageUrl(path, width, height, supabaseUrl)
         == Some(EnvText(supabaseUrl) + StoragePath + path.value
                 + (if NumTruthy(width) || NumTruthy(height) then "?" + TransformQuery(width, height) else ""))
  {
    var base := EnvText(supabaseUrl) + StoragePath + path.value;
    if NumTruthy(width) || NumTruthy(height) {
      assert ImageUrl(path, width, height, supabaseUrl) == Some(base + "?" + TransformQuery(width, height));
      assert base + "?" + TransformQuery(width, height) == base + ("?" + TransformQuery(width, height));
    } else {
      assert ImageUrl(path, width, height, supabaseUrl) == Some(base);
      assert base + "" == base;
    }
  }

  /** The cases of the storage url: nothing for a missing or empty path, a full url unchanged,
      and otherwise the public storage url of the path with a query exactly when a width or a
      height is given, the width first. */
  lemma ImageUrlCases(path: Option<string>, width: Option<int>, height: Option<int>, supabaseUrl: Option<string>)
    ensures ImageUrl(path, width, height, supabaseUrl).None? <==> !StrTruthy(path)
    ensures StrTruthy(path) && IsAbsolute(path.value) ==> ImageUrl(path, width, height, supabaseUrl) == path
    ensures StrTruthy(path) && !IsAbsolute(path.value) ==>
              var url := ImageUrl(path, width, height, supabaseUrl).value;
              var base := EnvText(supabaseUrl) + StoragePath + path.value;
              StartsWith(url, base) && url[|base|..] == (if NumTruthy(width) || NumTruthy(height) then "?" + TransformQuery(width, height) else "")
  {
    if StrTruthy(path) && !IsAbsolute(path.value) {
      var base := EnvText(supabaseUrl) + StoragePath + path.value;
      var tail := if NumTruthy(width) || NumTruthy(height) then "?" + TransformQuery(width, height) else "";
      RelativeImageUrl(path, width, height, supabaseUrl);
      assert ImageUrl(path, width, height, supabaseUrl).value == base + tail;
      StartsWithConcat(base, tail);
    }
  }

  /** The query names the width before the height, each only when it is given. */
  lemma TransformQueryWidthFirst(width: Option<int>, height: Option<int>)
    ensures NumTruthy(width) && NumTruthy(height) ==>
              TransformQuery(width, height) == "width=" + IntToString(width.value) + "&height=" + IntToString(height.value)
    ensures NumTruthy(width) && !NumTruthy(height) ==> TransformQuery(width, height) == "width=" + IntToString(width.value)
    ensures !NumTruthy(width) && NumTruthy(height) ==> TransformQuery(width, height) == "height=" + IntToString(height.value)
    ensures !NumTruthy(width) && !NumTruthy(height) ==> TransformQuery(width, height) == ""
  {
    if NumTruthy(width) && !NumTruthy(height) {
      assert "width=" + IntToString(width.value) + "" + "" == "width=" + IntToString(width.value);
    } else if !NumTruthy(width) && NumTruthy(height) {
      assert "" + "" + ("height=" + IntToString(height.value)) == "height=" + IntToString(height.value);
    }
  }

  /** A string that starts with a prefix still does after anything is appended. */
  lemma StartsWithAppend(s: string, prefix: string, rest: string)
    requires StartsWith(s, prefix)
    ensures StartsWith(s + rest, prefix)
  {
    assert (s + rest)[..|prefix|] == s[..|prefix|];
  }

  /** With an http(s) storage host, a built url is itself a full url: building again, with any
      options, gives it back unchanged. */
  lemma ImageUrlIdempotent(path: Option<string>, width: Option<int>, height: Option<int>, supabaseUrl: Option<string>,
                           width2: Option<int>, height2: Option<int>)
    requires supabaseUrl.Some? && IsAbsolute(supabaseUrl.value)
    ensures ImageUrl(ImageUrl(path, width, height, supabaseUrl), width2, height2, supabaseUrl)
         == ImageUrl(path, width, height, supabaseUrl)
  {
    if StrTruthy(path) && !IsAbsolute(path.value) {
      var host := supabaseUrl.value;
      RelativeImageUrl(path, width, height, supabaseUrl);
      var url := ImageUrl(path, width, height, supabaseUrl).value;
      var tail := StoragePath + path.value
                  + (if NumTruthy(width) || NumTruthy(height) then "?" + TransformQuery(width, height) else "");
      assert url == host + tail;
      var rest := tail;
      if StartsWith(host, "http://") {
        StartsWithAppend(host, "http://", rest);
      } else {
        StartsWithAppend(host, "https://", rest);
      }
      assert IsAbsolute(url);
    }
  }
}
