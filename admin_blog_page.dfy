/** The admin blog list page: the query it sends for the current page and
    status filter, what it keeps from the answer, the search box over the
    loaded rows, the previous/next buttons and the bodies of the two flag
    toggles. */
module AdminBlogPage {
  import opened Common
  import opened Tables
  import opened Ordering
  import opened UrlQuery
  import opened AdminAuthRoute
  import opened AdminBlogRoute

  /** Rows per request; the page always asks for ten. */
  const PageSize := 10

  // ------------------------------------------------------------ request

  /** `loadPosts`' query string: page and limit, then `published` unless
      the status filter is "all" ("true" for "published", "false" for any
      other status). */
  function LoadPostsParams(page: nat, status: string): (r: Params)
    ensures Get(r, "page") == Some(Decimal(page)) && Get(r, "limit") == Some("10")
    ensures Get(r, "category") == None
    ensures status == "all" <==> Get(r, "published") == None
    ensures status != "all" ==> Get(r, "published") == Some(if status == "published" then "true" else "false")
  {
    [("page", Decimal(page)), ("limit", "10")]
    + (if status != "all" then [("published", if status == "published" then "true" else "false")] else [])
  }

  /** The rows a status filter means to list. */
  predicate StatusWants(status: string, p: Post) {
    status == "all" || p.published == (status == "published")
  }

  /** The server reads back the page number the page sent. */
  lemma ServerReadsPage(page: nat, status: string)
    requires page >= 1
    ensures ParseInt(GetOr(LoadPostsParams(page, status), "page", "1")) == Some(page as int)
  {
    var q := LoadPostsParams(page, status);
    assert GetOr(q, "page", "1") == Decimal(page);
    ParseIntOfDecimal(page);
  }

  /** The server reads back the limit of ten the page sent. */
  lemma ServerReadsLimit(page: nat, status: string)
    ensures ParseInt(GetOr(LoadPostsParams(page, status), "limit", "10")) == Some(PageSize)
  {
    var q := LoadPostsParams(page, status);
    assert GetOr(q, "limit", "10") == "10";
    assert Decimal(1) == "1";
    assert Decimal(10) == "10";
    ParseIntOfDecimal(10);
  }

  /** The server's `published` filter selects exactly the rows the status
      means. */
  lemma ServerReadsStatus(page: nat, status: string)
    ensures var q := LoadPostsParams(page, status);
      forall p :: AdminWants(Get(q, "published"), Get(q, "category"), p) <==> StatusWants(status, p)
  {}

  /** How many rows page `page` holds when the filter selects `total` rows:
      ten, fewer on the last page, none past it. */
  function RowsOnPage(total: nat, page: nat): nat
    requires page >= 1
  {
    var offset := (page - 1) * PageSize;
    if offset >= total then 0 else Min(PageSize, total - offset)
  }

  /** For a signed-in admin the answer to the page's request is a listing
      of that page, ten rows per page, of the rows the status means. */
  lemma PageRequestIsListed(
    cookie: Option<string>, crypto: Crypto, admins: seq<Admin>, posts: seq<Post>, page: nat, status: string)
    requires page >= 1
    requires VerifyAuth(cookie, admins, crypto).Some?
    ensures var r := AdminListing(cookie, crypto, admins, posts, LoadPostsParams(page, status));
      && r.Listing? && r.pagination.page == page && r.pagination.limit == PageSize
      && r.pagination.total == |Filter(posts, (p: Post) => StatusWants(status, p))|
      && r.pagination.totalPages == Some(CeilDiv(r.pagination.total, PageSize))
      && |r.posts| == RowsOnPage(r.pagination.total, page)
  {
    var q := LoadPostsParams(page, status);
    ServerReadsPage(page, status);
    ServerReadsLimit(page, status);
    ListingOfParsedPage(cookie, crypto, admins, posts, q, page);
    assert |AdminOrdered(posts, q)| == |Filter(posts, (p: Post) => StatusWants(status, p))| by {
      ServerReadsStatus(page, status);
      FilterCongruent(posts,
        (p: Post) => AdminWants(Get(q, "published"), Get(q, "category"), p),
        (p: Post) => StatusWants(status, p));
    }
  }

  /** Any query the server reads as page `page` of ten rows gets that page
      of the rows its filters select. */
  lemma ListingOfParsedPage(
    cookie: Option<string>, crypto: Crypto, admins: seq<Admin>, posts: seq<Post>, q: Params, page: nat)
    requires page >= 1
    requires VerifyAuth(cookie, admins, crypto).Some?
    requires ParseInt(GetOr(q, "page", "1")) == Some(page as int)
    requires ParseInt(GetOr(q, "limit", "10")) == Some(PageSize)
    ensures var r := AdminListing(cookie, crypto, admins, posts, q);
      var total := |AdminOrdered(posts, q)|;
      && r.Listing?
      && r.pagination == Pagination(page, PageSize, total, Some(CeilDiv(total, PageSize)))
      && |r.posts| == RowsOnPage(total, page)
  {
    var ordered := AdminOrdered(posts, q);
    PageLength(ordered, page, PageSize);
    var paged := Paginate(ordered, Some(page as int), Some(PageSize));
    assert paged.value.1 == Pagination(page, PageSize, |ordered|, Some(CeilDiv(|ordered|, PageSize)));
    assert |paged.value.0| == RowsOnPage(|ordered|, page);
    var r := AdminListing(cookie, crypto, admins, posts, q);
    assert r == Listing(WithAuthors(paged.value.0, admins), paged.value.1);
  }

  // ------------------------------------------------------------ search

  /** The search keeps a row when its lower-cased title or category holds
      the lower-cased term. */
  predicate MatchesSearch(p: ListedPost, term: string): (r: bool)
    ensures term == "" ==> r
  {
    IncludesEmpty(Lower(p.post.title));
    Includes(Lower(p.post.title), Lower(term)) || Includes(Lower(p.post.category), Lower(term))
  }

  /** `filteredPosts`, over the rows of the current page only. */
  function FilteredPosts(posts: seq<ListedPost>, term: string): (r: seq<ListedPost>)
    ensures forall p :: p in r <==> p in posts && MatchesSearch(p, term)
    ensures term == "" ==> r == posts
  {
    if term == "" then
      FilterAll(posts, (p: ListedPost) => MatchesSearch(p, term));
      Filter(posts, (p: ListedPost) => MatchesSearch(p, term))
    else
      Filter(posts, (p: ListedPost) => MatchesSearch(p, term))
  }

  lemma FilteredPostsKeepOrder(posts: seq<ListedPost>, term: string)
    ensures Subsequence(FilteredPosts(posts, term), posts)
  {
    FilterIsSubsequence(posts, (p: ListedPost) => MatchesSearch(p, term));
  }

  // ------------------------------------------------------------ toggles

  /** The JSON body of a flag update. */
  datatype FlagUpdate = PublishedUpdate(published: bool) | FeaturedUpdate(featured: bool)

  /** `togglePublished` asks for the opposite of the flag it was shown. */
  function TogglePublishedBody(current: bool): (u: FlagUpdate)
    ensures u.PublishedUpdate? && u.published != current
  {
    PublishedUpdate(!current)
  }

  /** `toggleFeatured` asks for the opposite of the flag it was shown. */
  function ToggleFeaturedBody(current: bool): (u: FlagUpdate)
    ensures u.FeaturedUpdate? && u.featured != current
  {
    FeaturedUpdate(!current)
  }

  // ------------------------------------------------------------ pages

  /** "Anterior": one page back, never below page 1. */
  function PreviousPage(page: int): (r: int)
    ensures page > 1 ==> r == page - 1
    ensures page <= 1 ==> r == 1
  {
    Max(1, page - 1)
  }

  /** "Siguiente": one page on, never past the last page. */
  function NextPage(page: int, totalPages: int): (r: int)
    ensures page < totalPages ==> r == page + 1
    ensures page >= totalPages ==> r == totalPages
  {
    Min(totalPages, page + 1)
  }

  /** Both buttons keep a page that is in range in range. */
  lemma ButtonsKeepPageInRange(page: int, totalPages: int)
    requires 1 <= page <= totalPages
    ensures 1 <= PreviousPage(page) <= totalPages
    ensures 1 <= NextPage(page, totalPages) <= totalPages
  {}

  /** Next then previous comes back when next was enabled, and previous
      then next when previous was. */
  lemma NextPreviousInverse(page: int, totalPages: int)
    requires 1 <= page <= totalPages
    ensures page < totalPages ==> PreviousPage(NextPage(page, totalPages)) == page
    ensures page > 1 ==> NextPage(PreviousPage(page), totalPages) == page
  {}

  // ------------------------------------------------------------ page state

  class PostsPage {
    var posts: seq<ListedPost>
    var searchTerm: string
    var filterStatus: string
    var currentPage: int
    var totalPages: int

    /** Every handler leaves the current page at 1 or above. */
    ghost predicate Valid()
      reads this
    {
      currentPage >= 1
    }

    constructor ()
      ensures posts == [] && searchTerm == "" && filterStatus == "all"
      ensures currentPage == 1 && totalPages == 1
      ensures Valid()
    {
      posts, searchTerm, filterStatus := [], "", "all";
      currentPage, totalPages := 1, 1;
    }

    /** The query the page sends for its current state. */
    function Request(): Params
      requires Valid()
      reads this
    {
      LoadPostsParams(currentPage as nat, filterStatus)
    }

    /** The rows the table shows. */
    function Shown(): seq<ListedPost>
      reads this
    {
      FilteredPosts(posts, searchTerm)
    }

    predicate ControlsShown()
      reads this
    {
      totalPages > 1
    }

    predicate PreviousDisabled()
      reads this
    {
      currentPage == 1
    }

    predicate NextDisabled()
      reads this
    {
      currentPage == totalPages
    }

    predicate InRange()
      reads this
    {
      1 <= currentPage <= totalPages
    }

    /** Keeps rows and page count from a successful answer; a null page
        count (a zero limit, which the page never asks for) behaves as 0
        in every comparison the page makes. */
    method Apply(response: AdminListResponse)
      requires Valid()
      modifies this
      ensures response.Listing? ==> posts == response.posts
      ensures response.Listing? ==>
        totalPages == (if response.pagination.totalPages.Some? then response.pagination.totalPages.value else 0)
      ensures !response.Listing? ==> posts == old(posts) && totalPages == old(totalPages)
      ensures searchTerm == old(searchTerm) && filterStatus == old(filterStatus) && currentPage == old(currentPage)
      ensures Valid()
    {
      if response.Listing? {
        posts := response.posts;
        totalPages := if response.pagination.totalPages.Some? then response.pagination.totalPages.value else 0;
      }
    }

    /** The "Anterior" button, present only when there are several pages. */
    method Previous()
      requires Valid() && ControlsShown()
      modifies this
      ensures currentPage == PreviousPage(old(currentPage))
      ensures old(InRange()) ==> InRange()
      ensures old(PreviousDisabled()) ==> currentPage == old(currentPage)
      ensures posts == old(posts) && searchTerm == old(searchTerm) && filterStatus == old(filterStatus)
      ensures totalPages == old(totalPages)
      ensures Valid()
    {
      currentPage := PreviousPage(currentPage);
    }

    /** The "Siguiente" button, present only when there are several pages. */
    method Next()
      requires Valid() && ControlsShown()
      modifies this
      ensures currentPage == NextPage(old(currentPage), old(totalPages))
      ensures old(InRange()) ==> InRange()
      ensures old(NextDisabled()) ==> currentPage == old(currentPage)
      ensures posts == old(posts) && searchTerm == old(searchTerm) && filterStatus == old(filterStatus)
      ensures totalPages == old(totalPages)
      ensures Valid()
    {
      currentPage := NextPage(currentPage, totalPages);
    }

    method SetSearchTerm(term: string)
      requires Valid()
      modifies this
      ensures searchTerm == term
      ensures posts == old(posts) && filterStatus == old(filterStatus)
      ensures currentPage == old(currentPage) && totalPages == old(totalPages)
      ensures Valid()
    {
      searchTerm := term;
    }

    /** The status select as written: the filter changes, the page number
        stays. */
    method SetFilterStatus(status: string)
      requires Valid()
      modifies this
      ensures filterStatus == status
      ensures posts == old(posts) && searchTerm == old(searchTerm)
      ensures currentPage == old(currentPage) && totalPages == old(totalPages)
      ensures Valid()
    {
      filterStatus := status;
    }

    /** The status select as evidently intended: a new filter starts from
        its first page. */
    method SetFilterStatusFromFirstPage(status: string)
      requires Valid()
      modifies this
      ensures filterStatus == status && currentPage == 1
      ensures posts == old(posts) && searchTerm == old(searchTerm) && totalPages == old(totalPages)
      ensures Valid()
    {
      filterStatus := status;
      currentPage := 1;
    }
  }

  // ------------------------------------------------------------ finding

  /** As written: after a status change on page 2 or later, a filter that
      selects between 1 and 10 rows answers with an empty page and a page
      count of 1, so the list says nothing matches and the buttons that
      would lead back are hidden. */
  lemma StatusChangeStrandsLaterPage(
    cookie: Option<string>, crypto: Crypto, admins: seq<Admin>, posts: seq<Post>, page: nat, status: string)
    requires page >= 2
    requires VerifyAuth(cookie, admins, crypto).Some?
    requires 1 <= |Filter(posts, (p: Post) => StatusWants(status, p))| <= PageSize
    ensures var r := AdminListing(cookie, crypto, admins, posts, LoadPostsParams(page, status));
      r.Listing? && r.posts == [] && r.pagination.totalPages == Some(1)
  {
    PageRequestIsListed(cookie, crypto, admins, posts, page, status);
    var total := |Filter(posts, (p: Post) => StatusWants(status, p))|;
    var n := CeilDiv(total, PageSize);
    assert n * PageSize >= total && (n - 1) * PageSize < total;
    assert n == 1;
    assert (page - 1) * PageSize >= total;
  }

  /** As intended: the first page of a filter shows its first ten rows, so
      it is not empty when the filter selects any row. */
  lemma FirstPageShowsMatches(
    cookie: Option<string>, crypto: Crypto, admins: seq<Admin>, posts: seq<Post>, status: string)
    requires VerifyAuth(cookie, admins, crypto).Some?
    ensures var r := AdminListing(cookie, crypto, admins, posts, LoadPostsParams(1, status));
      && r.Listing?
      && |r.posts| == Min(PageSize, |Filter(posts, (p: Post) => StatusWants(status, p))|)
  {
    PageRequestIsListed(cookie, crypto, admins, posts, 1, status);
  }
}
