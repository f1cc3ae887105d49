/** The public blog listing (GET without a session): published posts only,
    optionally narrowed to a category or to featured posts, featured posts
    first and then newest first, one page at a time. */
module PublicBlogRoute {
  import opened Common
  import opened Tables
  import opened WhereClause
  import opened Ordering
  import opened UrlQuery

  /** What the public filters ask of a row: it is published, it is in the
      category when a non-empty one is given, and it is featured when
      `featured` is exactly "true" (any other value does not filter). */
  predicate PublicWants(category: Option<string>, featured: Option<string>, p: Post): (r: bool)
    ensures r ==> p.published
  {
    && p.published
    && (Truthy(category) ==> p.category == category.value)
    && (featured == Some("true") ==> p.featured)
  }

  /** The WHERE clause, which always starts with `bp.published = 1`, and the
      parameters of its placeholders. */
  method BuildPublicWhere(category: Option<string>, featured: Option<string>)
    returns (conds: seq<Condition>, params: seq<Value>)
    ensures conds != [] && conds[0] == Equals(PublishedColumn, Literal(IntValue(1)))
    ensures Placeholders(conds) == |params|
    ensures Bind(conds, params).Some?
    ensures forall p :: Satisfies(p, Bind(conds, params).value) <==> PublicWants(category, featured, p)
  {
    conds, params := [Equals(PublishedColumn, Literal(IntValue(1)))], [];
    ghost var bound := [(PublishedColumn, IntValue(1))];
    assert conds[1..] == [] && Bind(conds[1..], params) == Some([]);
    assert Bind(conds, params).value == bound;
    if Truthy(category) {
      BindPush(conds, params, Equals(CategoryColumn, Placeholder), [TextValue(category.value)]);
      conds := conds + [Equals(CategoryColumn, Placeholder)];
      params := params + [TextValue(category.value)];
      bound := bound + [(CategoryColumn, TextValue(category.value))];
    }
    if featured == Some("true") {
      BindPush(conds, params, Equals(FeaturedColumn, Literal(IntValue(1))), []);
      conds := conds + [Equals(FeaturedColumn, Literal(IntValue(1)))];
      params := params + [];
      bound := bound + [(FeaturedColumn, IntValue(1))];
    }
    assert Bind(conds, params) == Some(bound);
  }

  /** `ORDER BY bp.featured DESC, bp.createdAt DESC` */
  function PublicOrder(p: Post): Key {
    Key(if p.featured then 1 else 0, p.createdAt)
  }

  /** `author: {name, username}` from the LEFT JOIN; both null when the
      post's authorId names no admin. */
  datatype PublicAuthor = UnknownAuthor | PublicAuthor(name: string, username: string)

  /** The columns the public query selects; content and the flags other
      than `featured` are not among them. */
  datatype PublicPost = PublicPost(
    id: int,
    title: string,
    slug: string,
    excerpt: string,
    image: Option<string>,
    category: string,
    tags: Option<string>,
    readTime: int,
    views: int,
    featured: bool,
    createdAt: int,
    author: PublicAuthor)

  function PublicView(p: Post, admins: seq<Admin>): (r: PublicPost)
    ensures r.id == p.id && r.title == p.title && r.slug == p.slug && r.excerpt == p.excerpt
    ensures r.image == p.image && r.category == p.category && r.tags == p.tags
    ensures r.readTime == p.readTime && r.views == p.views && r.featured == p.featured && r.createdAt == p.createdAt
    ensures r.author.UnknownAuthor? <==> forall i :: 0 <= i < |admins| ==> admins[i].id != p.authorId
    ensures r.author.PublicAuthor? ==>
      exists i :: 0 <= i < |admins| && admins[i].id == p.authorId
        && r.author.name == admins[i].name && r.author.username == admins[i].username
  {
    var author := match FindById(admins, p.authorId)
      case None => UnknownAuthor
      case Some(a) => PublicAuthor(a.name, a.username);
    PublicPost(p.id, p.title, p.slug, p.excerpt, p.image, p.category, p.tags,
               p.readTime, p.views, p.featured, p.createdAt, author)
  }

  function PublicViews(shown: seq<Post>, admins: seq<Admin>): (r: seq<PublicPost>)
    ensures |r| == |shown|
    ensures forall i :: 0 <= i < |r| ==> r[i] == PublicView(shown[i], admins)
  {
    seq(|shown|, i requires 0 <= i < |shown| => PublicView(shown[i], admins))
  }

  datatype PublicListResponse =
    | PublicFailed
    | PublicListing(posts: seq<PublicPost>, pagination: Pagination)
  {
    function Status(): int {
      if PublicFailed? then 500 else 200
    }
  }

  /** The rows the public filters select, in the listing's order. */
  function PublicOrdered(posts: seq<Post>, query: Params): (r: seq<Post>)
    ensures SortedDesc(r, PublicOrder)
    ensures forall i :: 0 <= i < |r| ==>
      r[i] in posts && PublicWants(Get(query, "category"), Get(query, "featured"), r[i])
    ensures |r| == |Filter(posts, (p: Post) => PublicWants(Get(query, "category"), Get(query, "featured"), p))|
    ensures multiset(r) == multiset(Filter(posts, (p: Post) => PublicWants(Get(query, "category"), Get(query, "featured"), p)))
  {
    var matching := Filter(posts, (p: Post) => PublicWants(Get(query, "category"), Get(query, "featured"), p));
    SortDescKeeps(matching, PublicOrder);
    SortDesc(matching, PublicOrder)
  }

  /** The listing: filter, sort, cut out one page (page 1 and 10 rows
      unless the query says otherwise). */
  function PublishedListing(admins: seq<Admin>, posts: seq<Post>, query: Params): (r: PublicListResponse)
    ensures r.PublicFailed? <==>
      var page := ParseInt(GetOr(query, "page", "1"));
      var limit := ParseInt(GetOr(query, "limit", "10"));
      page.None? || limit.None? || limit.value < 0 || (limit.value > 0 && page.value < 1)
    ensures r.PublicListing? ==>
      r.pagination.total == |Filter(posts, (p: Post) => PublicWants(Get(query, "category"), Get(query, "featured"), p))|
    ensures r.PublicListing? ==> |r.posts| <= r.pagination.limit
  {
    match Paginate(PublicOrdered(posts, query), ParseInt(GetOr(query, "page", "1")), ParseInt(GetOr(query, "limit", "10")))
    case None => PublicFailed
    case Some((shown, pagination)) => PublicListing(PublicViews(shown, admins), pagination)
  }

  /** GET, built the way the handler builds it. */
  method ListPublished(admins: seq<Admin>, posts: seq<Post>, query: Params) returns (r: PublicListResponse)
    ensures r == PublishedListing(admins, posts, query)
  {
    var category, featured := Get(query, "category"), Get(query, "featured");
    var conds, params := BuildPublicWhere(category, featured);
    var bound := Bind(conds, params).value;
    var selected := Select(posts, conds, params).value;
    FilterCongruent(posts, (p: Post) => Satisfies(p, bound), (p: Post) => PublicWants(category, featured, p));
    var ordered := SortDesc(selected, PublicOrder);
    assert ordered == PublicOrdered(posts, query);
    var page := ParseInt(GetOr(query, "page", "1"));
    var limit := ParseInt(GetOr(query, "limit", "10"));
    match Paginate(ordered, page, limit)
    case None =>
      r := PublicFailed;
    case Some((shown, pagination)) =>
      r := PublicListing(PublicViews(shown, admins), pagination);
  }

  /** v is the public view of a published row of the table that passes
      the filters. */
  predicate FromWantedRow(
    v: PublicPost, admins: seq<Admin>, posts: seq<Post>, category: Option<string>, featured: Option<string>)
  {
    exists k :: 0 <= k < |posts| && posts[k].published && v == PublicView(posts[k], admins)
      && PublicWants(category, featured, posts[k])
  }

  /** Whatever the query, every listed post is a published row of the
      table that passes the filters. */
  lemma PublicListingOnlyPublished(admins: seq<Admin>, posts: seq<Post>, query: Params)
    requires PublishedListing(admins, posts, query).PublicListing?
    ensures var listed := PublishedListing(admins, posts, query).posts;
      forall i :: 0 <= i < |listed| ==> FromWantedRow(listed[i], admins, posts, Get(query, "category"), Get(query, "featured"))
  {
    var page, limit := ParseInt(GetOr(query, "page", "1")), ParseInt(GetOr(query, "limit", "10"));
    ListingIsPage(admins, posts, query);
    ShownRowsWanted(posts, query, page, limit);
    var shown := Paginate(PublicOrdered(posts, query), page, limit).value.0;
    ViewsOfWantedRows(admins, posts, shown, Get(query, "category"), Get(query, "featured"));
  }

  /** Each public view of rows taken from the table is the view of one of
      its rows. */
  lemma ViewsOfWantedRows(
    admins: seq<Admin>, posts: seq<Post>, shown: seq<Post>, category: Option<string>, featured: Option<string>)
    requires forall i :: 0 <= i < |shown| ==> shown[i] in posts && PublicWants(category, featured, shown[i])
    ensures var listed := PublicViews(shown, admins);
      forall i :: 0 <= i < |listed| ==> FromWantedRow(listed[i], admins, posts, category, featured)
  {
    var listed := PublicViews(shown, admins);
    forall i | 0 <= i < |listed|
      ensures FromWantedRow(listed[i], admins, posts, category, featured)
    {
      var k :| 0 <= k < |posts| && posts[k] == shown[i];
      assert listed[i] == PublicView(posts[k], admins);
    }
  }

  /** A listing shows the page the query asks for, each row as seen by the
      public. */
  lemma ListingIsPage(admins: seq<Admin>, posts: seq<Post>, query: Params)
    requires PublishedListing(admins, posts, query).PublicListing?
    ensures var paged := Paginate(PublicOrdered(posts, query), ParseInt(GetOr(query, "page", "1")), ParseInt(GetOr(query, "limit", "10")));
      && paged.Some?
      && PublishedListing(admins, posts, query) == PublicListing(PublicViews(paged.value.0, admins), paged.value.1)
  {}

  /** Every row of a page is a row of the table the filters select. */
  lemma ShownRowsWanted(posts: seq<Post>, query: Params, page: Option<int>, limit: Option<int>)
    requires Paginate(PublicOrdered(posts, query), page, limit).Some?
    ensures var shown := Paginate(PublicOrdered(posts, query), page, limit).value.0;
      forall i :: 0 <= i < |shown| ==>
        shown[i] in posts && PublicWants(Get(query, "category"), Get(query, "featured"), shown[i])
  {
    var ordered := PublicOrdered(posts, query);
    PaginateKeepsOrder(ordered, PublicOrder, page, limit);
    var shown := Paginate(ordered, page, limit).value.0;
    forall i | 0 <= i < |shown|
      ensures shown[i] in posts && PublicWants(Get(query, "category"), Get(query, "featured"), shown[i])
    {
      var j :| 0 <= j < |ordered| && ordered[j] == shown[i];
    }
  }

  /** Featured posts come first and, among posts alike in that, newer ones
      come first. */
  lemma PublicListingOrder(admins: seq<Admin>, posts: seq<Post>, query: Params)
    requires PublishedListing(admins, posts, query).PublicListing?
    ensures var listed := PublishedListing(admins, posts, query).posts;
      forall i, j :: 0 <= i < j < |listed| ==>
        (listed[i].featured || !listed[j].featured)
        && (listed[i].featured == listed[j].featured ==> listed[i].createdAt >= listed[j].createdAt)
  {
    var ordered := PublicOrdered(posts, query);
    var page, limit := ParseInt(GetOr(query, "page", "1")), ParseInt(GetOr(query, "limit", "10"));
    PaginateKeepsOrder(ordered, PublicOrder, page, limit);
    var shown := Paginate(ordered, page, limit).value.0;
    ListingIsPage(admins, posts, query);
    var listed := PublicViews(shown, admins);
    forall i, j | 0 <= i < j < |listed|
      ensures listed[i].featured || !listed[j].featured
      ensures listed[i].featured == listed[j].featured ==> listed[i].createdAt >= listed[j].createdAt
    {
      assert AtLeast(PublicOrder(shown[i]), PublicOrder(shown[j]));
    }
  }
}
