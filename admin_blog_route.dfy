/** The admin blog endpoint: GET lists posts with filters and pages, POST
    creates a post. Both first check the session cookie the way the login
    endpoint's GET does. */
module AdminBlogRoute {
  import opened Common
  import opened Validation
  import opened Tables
  import opened AdminAuthRoute
  import opened WhereClause
  import opened Ordering
  import opened UrlQuery

  /** The row `verifyAuth` reads: `SELECT id, username, email, name`. */
  datatype SessionAdmin = SessionAdmin(id: int, username: string, email: string, name: string)

  /** `verifyAuth`: the active admin named by a token the library accepts,
      or null. */
  function VerifyAuth(cookie: Option<string>, admins: seq<Admin>, crypto: Crypto): (r: Option<SessionAdmin>)
    ensures r.Some? <==> CheckSession(cookie, admins, crypto).SessionOk?
    ensures r.Some? ==> r.value.id == CheckSession(cookie, admins, crypto).admin.id
    ensures r.Some? ==> exists i :: 0 <= i < |admins| && admins[i].active && admins[i].id == r.value.id
  {
    match NullIfFalsy(cookie)
    case None => None
    case Some(token) =>
      match crypto.verify(token)
      case None => None
      case Some(claims) =>
        match FindActive(admins, IdOf, claims.adminId)
        case None => None
        case Some(a) => Some(SessionAdmin(a.id, a.username, a.email, a.name))
  }

  /** `author: {id, username, name}` from `LEFT JOIN admins a ON bp.authorId = a.id`;
      all three are null when no admin has the post's authorId. */
  datatype AuthorRef = NoAuthor | AuthorRef(id: int, username: string, name: string)

  function AuthorOf(p: Post, admins: seq<Admin>): (r: AuthorRef)
    ensures r.NoAuthor? <==> forall i :: 0 <= i < |admins| ==> admins[i].id != p.authorId
    ensures r.AuthorRef? ==>
      r.id == p.authorId
      && exists i :: 0 <= i < |admins| && admins[i].id == p.authorId
           && r.username == admins[i].username && r.name == admins[i].name
  {
    match FindById(admins, p.authorId)
    case None => NoAuthor
    case Some(a) => AuthorRef(a.id, a.username, a.name)
  }

  /** A post row spread into the response together with its author. */
  datatype ListedPost = ListedPost(post: Post, author: AuthorRef)

  function WithAuthors(shown: seq<Post>, admins: seq<Admin>): (r: seq<ListedPost>)
    ensures |r| == |shown|
    ensures forall i :: 0 <= i < |r| ==> r[i].post == shown[i] && r[i].author == AuthorOf(shown[i], admins)
  {
    seq(|shown|, i requires 0 <= i < |shown| => ListedPost(shown[i], AuthorOf(shown[i], admins)))
  }

  // ---------------------------------------------------------------- GET

  /** What the admin filters ask of a row: a `published` parameter selects
      published rows when it is "true" and drafts for any other value; a
      non-empty `category` selects that category. */
  predicate AdminWants(published: Option<string>, category: Option<string>, p: Post): (r: bool)
    ensures published.None? && !Truthy(category) ==> r
  {
    (published.Some? ==> p.published == (published.value == "true"))
    && (Truthy(category) ==> p.category == category.value)
  }

  /** The WHERE clause and its parameters, pushed one filter at a time. */
  method BuildAdminWhere(published: Option<string>, category: Option<string>)
    returns (conds: seq<Condition>, params: seq<Value>)
    ensures Placeholders(conds) == |params|
    ensures conds == [] <==> published.None? && !Truthy(category)
    ensures Bind(conds, params).Some?
    ensures forall p :: Satisfies(p, Bind(conds, params).value) <==> AdminWants(published, category, p)
  {
    conds, params := [], [];
    ghost var bound := [];
    if published.Some? {
      var flag := IntValue(if published.value == "true" then 1 else 0);
      BindPush(conds, params, Equals(PublishedColumn, Placeholder), [flag]);
      conds := conds + [Equals(PublishedColumn, Placeholder)];
      params := params + [flag];
      bound := bound + [(PublishedColumn, flag)];
    }
    if Truthy(category) {
      BindPush(conds, params, Equals(CategoryColumn, Placeholder), [TextValue(category.value)]);
      conds := conds + [Equals(CategoryColumn, Placeholder)];
      params := params + [TextValue(category.value)];
      bound := bound + [(CategoryColumn, TextValue(category.value))];
    }
    assert Bind(conds, params) == Some(bound);
  }

  /** Newest first: `ORDER BY bp.createdAt DESC`. */
  function AdminOrder(p: Post): Key {
    Key(p.createdAt, 0)
  }

  datatype AdminListResponse =
    | ListUnauthorized
    | ListFailed
    | Listing(posts: seq<ListedPost>, pagination: Pagination)
  {
    function Status(): int {
      match this
      case ListUnauthorized => 401
      case ListFailed => 500
      case Listing(_, _) => 200
    }
  }

  /** The rows the admin filters select, newest first. */
  function AdminOrdered(posts: seq<Post>, query: Params): (r: seq<Post>)
    ensures SortedDesc(r, AdminOrder)
    ensures forall i :: 0 <= i < |r| ==>
      r[i] in posts && AdminWants(Get(query, "published"), Get(query, "category"), r[i])
    ensures |r| == |Filter(posts, (p: Post) => AdminWants(Get(query, "published"), Get(query, "category"), p))|
    ensures multiset(r) == multiset(Filter(posts, (p: Post) => AdminWants(Get(query, "published"), Get(query, "category"), p)))
  {
    var matching := Filter(posts, (p: Post) => AdminWants(Get(query, "published"), Get(query, "category"), p));
    SortDescKeeps(matching, AdminOrder);
    SortDesc(matching, AdminOrder)
  }

  /** The admin listing: filter, sort newest first, cut out one page. */
  function AdminListing(cookie: Option<string>, crypto: Crypto, admins: seq<Admin>, posts: seq<Post>, query: Params)
    : (r: AdminListResponse)
    ensures r.ListUnauthorized? <==> VerifyAuth(cookie, admins, crypto).None?
    ensures r.ListFailed? <==>
      VerifyAuth(cookie, admins, crypto).Some?
      && var page := ParseInt(GetOr(query, "page", "1"));
         var limit := ParseInt(GetOr(query, "limit", "10"));
         page.None? || limit.None? || limit.value < 0 || (limit.value > 0 && page.value < 1)
    ensures r.Listing? ==>
      r.pagination.total == |Filter(posts, (p: Post) => AdminWants(Get(query, "published"), Get(query, "category"), p))|
    ensures r.Listing? ==> |r.posts| <= r.pagination.limit
  {
    if VerifyAuth(cookie, admins, crypto).None? then ListUnauthorized
    else
      match Paginate(AdminOrdered(posts, query), ParseInt(GetOr(query, "page", "1")), ParseInt(GetOr(query, "limit", "10")))
      case None => ListFailed
      case Some((shown, pagination)) => Listing(WithAuthors(shown, admins), pagination)
  }

  /** A listing shows the page the query asks for, each row with its author. */
  lemma AdminListingIsPage(cookie: Option<string>, crypto: Crypto, admins: seq<Admin>, posts: seq<Post>, query: Params)
    requires AdminListing(cookie, crypto, admins, posts, query).Listing?
    ensures var paged := Paginate(AdminOrdered(posts, query), ParseInt(GetOr(query, "page", "1")), ParseInt(GetOr(query, "limit", "10")));
      && paged.Some?
      && AdminListing(cookie, crypto, admins, posts, query) == Listing(WithAuthors(paged.value.0, admins), paged.value.1)
  {}

  /** A listed page holds only rows the filters select, newest first. */
  lemma AdminListingRows(cookie: Option<string>, crypto: Crypto, admins: seq<Admin>, posts: seq<Post>, query: Params)
    requires AdminListing(cookie, crypto, admins, posts, query).Listing?
    ensures var listed := AdminListing(cookie, crypto, admins, posts, query).posts;
      && (forall i :: 0 <= i < |listed| ==>
            listed[i].post in posts && AdminWants(Get(query, "published"), Get(query, "category"), listed[i].post))
      && (forall i, j :: 0 <= i < j < |listed| ==> listed[i].post.createdAt >= listed[j].post.createdAt)
  {
    var ordered := AdminOrdered(posts, query);
    var page, limit := ParseInt(GetOr(query, "page", "1")), ParseInt(GetOr(query, "limit", "10"));
    PaginateKeepsOrder(ordered, AdminOrder, page, limit);
    var shown := Paginate(ordered, page, limit).value.0;
    AdminListingIsPage(cookie, crypto, admins, posts, query);
    var listed := WithAuthors(shown, admins);
    forall i, j | 0 <= i < j < |listed|
      ensures listed[i].post.createdAt >= listed[j].post.createdAt
    {
      assert AtLeast(AdminOrder(shown[i]), AdminOrder(shown[j]));
    }
  }

  /** GET, built the way the handler builds it: WHERE clause and parameters
      first, then the statement over the table. */
  method ListPosts(cookie: Option<string>, crypto: Crypto, admins: seq<Admin>, posts: seq<Post>, query: Params)
    returns (r: AdminListResponse)
    ensures r == AdminListing(cookie, crypto, admins, posts, query)
  {
    if VerifyAuth(cookie, admins, crypto).None? {
      return ListUnauthorized;
    }
    var published, category := Get(query, "published"), Get(query, "category");
    var conds, params := BuildAdminWhere(published, category);
    var bound := Bind(conds, params).value;
    var selected := Select(posts, conds, params).value;
    FilterCongruent(posts, (p: Post) => Satisfies(p, bound), (p: Post) => AdminWants(published, category, p));
    var ordered := SortDesc(selected, AdminOrder);
    assert ordered == AdminOrdered(posts, query);
    var page := ParseInt(GetOr(query, "page", "1"));
    var limit := ParseInt(GetOr(query, "limit", "10"));
    match Paginate(ordered, page, limit)
    case None =>
      r := ListFailed;
    case Some((shown, pagination)) =>
      r := Listing(WithAuthors(shown, admins), pagination);
  }

  // ---------------------------------------------------------------- POST

  /** A request body for `blogPostSchema`. */
  datatype PostInput = PostInput(
    title: Field<string>,
    slug: Field<string>,
    excerpt: Field<string>,
    content: Field<string>,
    image: Field<string>,
    published: Field<bool>,
    featured: Field<bool>,
    category: Field<string>,
    tags: Field<string>,
    metaTitle: Field<string>,
    metaDescription: Field<string>,
    readTime: Field<int>)

  /** `blogPostSchema`, member by member in its order. Every issue names a
      member of the schema. */
  function PostIssues(b: PostInput, fmt: Formats): (r: seq<Issue>)
    ensures forall i :: 0 <= i < |r| ==> r[i].path in PostMembers
  {
    TextIssues("title", b.title, true, [MinLength(5)], fmt)
    + TextIssues("slug", b.slug, true, [MinLength(3), SlugPattern], fmt)
    + TextIssues("excerpt", b.excerpt, true, [MinLength(20)], fmt)
    + TextIssues("content", b.content, true, [MinLength(100)], fmt)
    + TextIssues("image", b.image, false, [Url], fmt)
    + FlagIssues("published", b.published)
    + FlagIssues("featured", b.featured)
    + TextIssues("category", b.category, true, [MinLength(2)], fmt)
    + TextIssues("tags", b.tags, false, [], fmt)
    + TextIssues("metaTitle", b.metaTitle, false, [], fmt)
    + TextIssues("metaDescription", b.metaDescription, false, [], fmt)
    + NumberIssues("readTime", b.readTime, false, 1, 60)
  }

  const PostMembers := {"title", "slug", "excerpt", "content", "image", "published", "featured",
                        "category", "tags", "metaTitle", "metaDescription", "readTime"}

  /** Every member has its JSON type; the required ones are present. */
  predicate WellFormed(b: PostInput) {
    && b.title.Given? && b.slug.Given? && b.excerpt.Given? && b.content.Given? && b.category.Given?
    && !b.image.Malformed? && !b.published.Malformed? && !b.featured.Malformed?
    && !b.tags.Malformed? && !b.metaTitle.Malformed? && !b.metaDescription.Malformed?
    && !b.readTime.Malformed?
  }

  /** The field rules of `blogPostSchema`, stated directly. */
  predicate AcceptablePost(b: PostInput, fmt: Formats) {
    && WellFormed(b)
    && Utf16Length(b.title.value) >= 5
    && Utf16Length(b.slug.value) >= 3 && MatchesSlugPattern(b.slug.value)
    && Utf16Length(b.excerpt.value) >= 20
    && Utf16Length(b.content.value) >= 100
    && (b.image.Given? ==> fmt.isUrl(b.image.value))
    && Utf16Length(b.category.value) >= 2
    && (b.readTime.Given? ==> 1 <= b.readTime.value <= 60)
  }

  /** The schema reports no issue exactly when the field rules hold. */
  lemma PostIssuesAgree(b: PostInput, fmt: Formats)
    ensures PostIssues(b, fmt) == [] <==> AcceptablePost(b, fmt)
  {
    assert [MinLength(3), SlugPattern][0] == MinLength(3) && [MinLength(3), SlugPattern][1] == SlugPattern;
    var parts := [
      TextIssues("title", b.title, true, [MinLength(5)], fmt),
      TextIssues("slug", b.slug, true, [MinLength(3), SlugPattern], fmt),
      TextIssues("excerpt", b.excerpt, true, [MinLength(20)], fmt),
      TextIssues("content", b.content, true, [MinLength(100)], fmt),
      TextIssues("image", b.image, false, [Url], fmt),
      FlagIssues("published", b.published),
      FlagIssues("featured", b.featured),
      TextIssues("category", b.category, true, [MinLength(2)], fmt),
      TextIssues("tags", b.tags, false, [], fmt),
      TextIssues("metaTitle", b.metaTitle, false, [], fmt),
      TextIssues("metaDescription", b.metaDescription, false, [], fmt),
      NumberIssues("readTime", b.readTime, false, 1, 60)];
    assert |PostIssues(b, fmt)| == |parts[0]| + |parts[1]| + |parts[2]| + |parts[3]| + |parts[4]| + |parts[5]|
      + |parts[6]| + |parts[7]| + |parts[8]| + |parts[9]| + |parts[10]| + |parts[11]|;
  }

  /** The validated data, defaults filled in. */
  datatype PostData = PostData(
    title: string,
    slug: string,
    excerpt: string,
    content: string,
    image: Option<string>,
    published: bool,
    featured: bool,
    category: string,
    tags: Option<string>,
    metaTitle: Option<string>,
    metaDescription: Option<string>,
    readTime: int)

  function Parse(b: PostInput): (d: PostData)
    requires WellFormed(b)
    ensures d.slug == b.slug.value
    ensures d.published <==> b.published == Given(true)
    ensures d.featured <==> b.featured == Given(true)
    ensures b.readTime.Missing? ==> d.readTime == 5
    ensures d.image.None? <==> b.image.Missing?
    ensures d.title == b.title.value && d.excerpt == b.excerpt.value
    ensures d.content == b.content.value && d.category == b.category.value
    ensures d.image == Optional(b.image) && d.tags == Optional(b.tags)
    ensures d.metaTitle == Optional(b.metaTitle) && d.metaDescription == Optional(b.metaDescription)
    ensures b.readTime.Given? ==> d.readTime == b.readTime.value
  {
    PostData(
      b.title.value, b.slug.value, b.excerpt.value, b.content.value, Optional(b.image),
      WithDefault(b.published, false), WithDefault(b.featured, false), b.category.value,
      Optional(b.tags), Optional(b.metaTitle), Optional(b.metaDescription),
      WithDefault(b.readTime, 5))
  }

  /** `SELECT id FROM blog_posts WHERE slug = ?` finds a row. */
  function SlugTaken(posts: seq<Post>, slug: string): (r: bool)
    ensures r <==> exists i :: 0 <= i < |posts| && posts[i].slug == slug
  {
    var found := Filter(posts, (p: Post) => p.slug == slug);
    assert found != [] ==> found[0] in posts;
    found != []
  }

  /** The inserted row: empty optional strings become null, the author is
      the session's admin, both timestamps are the insertion time, and the
      view count starts at the column default. */
  function NewRow(d: PostData, id: int, authorId: int, now: int): (p: Post)
    ensures p.id == id && p.slug == d.slug && p.authorId == authorId
    ensures p.title == d.title && p.excerpt == d.excerpt
    ensures p.content == d.content && p.category == d.category
    ensures p.image == NullIfFalsy(d.image) && p.tags == NullIfFalsy(d.tags)
    ensures p.metaTitle == NullIfFalsy(d.metaTitle) && p.metaDescription == NullIfFalsy(d.metaDescription)
    ensures p.published == d.published && p.featured == d.featured && p.readTime == d.readTime
    ensures p.views == 0 && p.createdAt == now && p.updatedAt == now
  {
    Post(id, d.title, d.slug, d.excerpt, d.content, NullIfFalsy(d.image), d.category,
         NullIfFalsy(d.tags), NullIfFalsy(d.metaTitle), NullIfFalsy(d.metaDescription),
         d.readTime, 0, d.published, d.featured, authorId, now, now)
  }

  datatype CreateResponse =
    | CreateUnauthorized
    | CreateInvalid(issues: seq<Issue>)
    | DuplicateSlug
    | Created(post: ListedPost)
  {
    function Status(): int {
      match this
      case CreateUnauthorized => 401
      case CreateInvalid(_) => 400
      case DuplicateSlug => 400
      case Created(_) => 201
    }

    function Message(): string {
      match this
      case CreateUnauthorized => "No autorizado"
      case CreateInvalid(_) => "Datos inválidos"
      case DuplicateSlug => "Ya existe un post con ese slug"
      case Created(_) => "Post creado exitosamente"
    }
  }

  /** The checks POST makes before inserting, in order: session, schema,
      free slug. Ok carries the data to insert; Err the response. */
  function Admit(posts: seq<Post>, session: Option<SessionAdmin>, b: PostInput, fmt: Formats)
    : (r: Result<PostData, CreateResponse>)
    ensures session.None? ==> r == Err(CreateUnauthorized)
    ensures session.Some? && !AcceptablePost(b, fmt) ==> r == Err(CreateInvalid(PostIssues(b, fmt)))
    ensures r == Err(DuplicateSlug) <==>
      session.Some? && AcceptablePost(b, fmt) && exists i :: 0 <= i < |posts| && posts[i].slug == b.slug.value
    ensures r.Ok? <==>
      session.Some? && AcceptablePost(b, fmt) && forall i :: 0 <= i < |posts| ==> posts[i].slug != b.slug.value
    ensures r.Ok? ==> r.value == Parse(b)
  {
    if session.None? then Err(CreateUnauthorized)
    else
      PostIssuesAgree(b, fmt);
      var issues := PostIssues(b, fmt);
      if issues != [] then Err(CreateInvalid(issues))
      else if SlugTaken(posts, b.slug.value) then Err(DuplicateSlug)
      else Ok(Parse(b))
  }

  /** Slugs are unique (POST never inserts a taken one) and ids increase
      along the table and stay below the AUTO_INCREMENT counter. */
  predicate StoreInvariant(posts: seq<Post>, nextId: int) {
    && (forall i, j :: 0 <= i < j < |posts| ==> posts[i].slug != posts[j].slug)
    && (forall i, j :: 0 <= i < j < |posts| ==> posts[i].id < posts[j].id)
    && (forall i :: 0 <= i < |posts| ==> posts[i].id < nextId)
  }

  /** Appending a row with a free slug under the counter's id keeps the invariant. */
  lemma InsertKeepsInvariant(posts: seq<Post>, nextId: int, row: Post)
    requires StoreInvariant(posts, nextId)
    requires row.id == nextId
    requires forall i :: 0 <= i < |posts| ==> posts[i].slug != row.slug
    ensures StoreInvariant(posts + [row], nextId + 1)
  {}

  /** Inserting an admitted post under the counter's id keeps the invariant. */
  lemma AdmittedKeepsInvariant(
    posts: seq<Post>, nextId: int, session: Option<SessionAdmin>, b: PostInput, fmt: Formats, now: int)
    requires StoreInvariant(posts, nextId)
    requires Admit(posts, session, b, fmt).Ok?
    ensures session.Some?
    ensures StoreInvariant(posts + [NewRow(Parse(b), nextId, session.value.id, now)], nextId + 1)
  {
    var row := NewRow(Parse(b), nextId, session.value.id, now);
    assert row.slug == b.slug.value;
    InsertKeepsInvariant(posts, nextId, row);
  }

  /** The `blog_posts` table as POST changes it. */
  class BlogStore {
    var posts: seq<Post>
    var nextId: int   // the AUTO_INCREMENT counter

    ghost predicate Valid()
      reads this
    {
      StoreInvariant(posts, nextId)
    }

    constructor()
      ensures Valid()
      ensures posts == [] && nextId == 1
    {
      posts, nextId := [], 1;
    }

    /** The INSERT: append the row under the counter's id and advance the counter. */
    method Insert(d: PostData, authorId: int, now: int) returns (row: Post)
      requires Valid()
      requires forall i :: 0 <= i < |posts| ==> posts[i].slug != d.slug
      modifies this
      ensures Valid()
      ensures row == NewRow(d, old(nextId), authorId, now)
      ensures posts == old(posts) + [row] && nextId == old(nextId) + 1
    {
      row := NewRow(d, nextId, authorId, now);
      InsertKeepsInvariant(posts, nextId, row);
      posts, nextId := posts + [row], nextId + 1;
    }

    /** POST: reject with 401, 400 or 400 and leave the table as it was, or
        insert one row and answer 201 with the row joined to its author. */
    method Create(cookie: Option<string>, crypto: Crypto, admins: seq<Admin>, b: PostInput, fmt: Formats, now: int)
      returns (r: CreateResponse)
      requires Valid()
      modifies this
      ensures Valid()
      ensures Admit(old(posts), VerifyAuth(cookie, admins, crypto), b, fmt).Err? ==>
        r == Admit(old(posts), VerifyAuth(cookie, admins, crypto), b, fmt).error
        && posts == old(posts) && nextId == old(nextId)
      ensures Admit(old(posts), VerifyAuth(cookie, admins, crypto), b, fmt).Ok? ==>
        var row := NewRow(Parse(b), old(nextId), VerifyAuth(cookie, admins, crypto).value.id, now);
        && posts == old(posts) + [row]
        && nextId == old(nextId) + 1
        && r == Created(ListedPost(row, AuthorOf(row, admins)))
    {
      var session := VerifyAuth(cookie, admins, crypto);
      var admitted := Admit(posts, session, b, fmt);
      if admitted.Err? {
        return admitted.error;
      }
      var row := Insert(Parse(b), session.value.id, now);
      r := Created(ListedPost(row, AuthorOf(row, admins)));
    }
  }

  /** A slug that went in once is refused the second time. */
  lemma SecondCreateRefused(
    posts: seq<Post>, session: SessionAdmin, b: PostInput, fmt: Formats, id: int, now: int)
    requires Admit(posts, Some(session), b, fmt).Ok?
    ensures Admit(posts + [NewRow(Parse(b), id, session.id, now)], Some(session), b, fmt) == Err(DuplicateSlug)
  {
    var after := posts + [NewRow(Parse(b), id, session.id, now)];
    assert after[|posts|].slug == b.slug.value;
  }
}
