/** The public blog page: it loads up to fifty published posts once, lists
    their categories for a filter, splits the filtered posts into featured
    and regular ones and renders each as a card. */
module BlogPage {
  import opened Common
  import opened Tables
  import opened Ordering
  import opened UrlQuery
  import opened PublicBlogRoute

  // ------------------------------------------------------------ loading

  /** The page's one request: `?limit=50`, nothing else. */
  const BlogQuery: Params := [("limit", "50")]

  /** What the listing reads from the page's request: page 1, fifty rows,
      no category and no featured filter. */
  lemma BlogQueryReads()
    ensures ParseInt(GetOr(BlogQuery, "page", "1")) == Some(1)
    ensures ParseInt(GetOr(BlogQuery, "limit", "10")) == Some(50)
    ensures Get(BlogQuery, "category") == None && Get(BlogQuery, "featured") == None
  {
    assert Get(BlogQuery, "page") == None;
    assert GetOr(BlogQuery, "page", "1") == "1";
    assert Get(BlogQuery, "limit") == Some("50");
    assert GetOr(BlogQuery, "limit", "10") == "50";
    DecimalOfSmall();
    ParseIntOfDecimal(1);
    ParseIntOfDecimal(50);
  }

  lemma DecimalOfSmall()
    ensures Decimal(1) == "1" && Decimal(50) == "50"
  {
    assert Decimal(5) == "5";
    assert Decimal(50) == Decimal(5) + "0";
  }

  /** The page receives the first fifty published posts in the listing's
      order; any later post is never shown. */
  lemma BlogQueryListsFirstFifty(admins: seq<Admin>, posts: seq<Post>)
    ensures var r := PublishedListing(admins, posts, BlogQuery);
      && r.PublicListing?
      && r.pagination.total == |Filter(posts, (p: Post) => p.published)|
      && |r.posts| == Min(50, r.pagination.total)
  {
    BlogQueryReads();
    FilterCongruent(posts, (p: Post) => PublicWants(None, None, p), (p: Post) => p.published);
    var ordered := PublicOrdered(posts, BlogQuery);
    var page := Paginate(ordered, Some(1), Some(50));
    PageLength(ordered, 1, 50);
    assert PublishedListing(admins, posts, BlogQuery) == PublicListing(PublicViews(page.value.0, admins), page.value.1);
  }

  // ------------------------------------------------------------ categories

  /** Position of the first x in s. */
  function IndexOf<T(==)>(s: seq<T>, x: T): (k: nat)
    requires x in s
    ensures k < |s| && s[k] == x
    ensures forall j :: 0 <= j < k ==> s[j] != x
  {
    if s[0] == x then 0 else 1 + IndexOf(s[1..], x)
  }

  /** A first occurrence inside a prefix is the first occurrence in the
      whole sequence. */
  lemma IndexOfPrefix<T>(s: seq<T>, n: nat, x: T)
    requires n <= |s| && x in s[..n]
    ensures IndexOf(s, x) == IndexOf(s[..n], x)
  {
    var k1, k2 := IndexOf(s, x), IndexOf(s[..n], x);
    assert s[k2] == x;
    assert s[..n][k1] == x by {
      assert k1 <= k2;
    }
  }

  /** `Array.from(new Set(s))`: each value once, in the order of its first
      appearance. */
  function Distinct(s: seq<string>): (r: seq<string>)
    ensures NoDuplicates(r)
    ensures forall x :: x in r <==> x in s
  {
    if s == [] then []
    else
      var rest := Distinct(s[..|s| - 1]);
      if s[|s| - 1] in rest then rest else rest + [s[|s| - 1]]
  }

  /** The values come out in the order of their first appearance. */
  lemma {:induction false} DistinctFirstAppearance(s: seq<string>)
    ensures forall i, j :: 0 <= i < j < |Distinct(s)| ==> IndexOf(s, Distinct(s)[i]) < IndexOf(s, Distinct(s)[j])
  {
    if s != [] {
      var init, x := s[..|s| - 1], s[|s| - 1];
      DistinctFirstAppearance(init);
      var rest := Distinct(init);
      var r := Distinct(s);
      assert s[..|init|] == init;
      assert r == if x in rest then rest else rest + [x];
      forall i, j | 0 <= i < j < |r|
        ensures IndexOf(s, r[i]) < IndexOf(s, r[j])
      {
        assert r[i] == rest[i];
        IndexOfPrefix(s, |init|, r[i]);
        if j < |rest| {
          assert r[j] == rest[j];
          IndexOfPrefix(s, |init|, r[j]);
        } else {
          assert r[j] == x && x !in init;
          assert IndexOf(s, x) == |init|;
        }
      }
    }
  }

  function CategoryColumn(shown: seq<PublicPost>): (r: seq<string>)
    ensures |r| == |shown|
    ensures forall i :: 0 <= i < |r| ==> r[i] == shown[i].category
  {
    seq(|shown|, i requires 0 <= i < |shown| => shown[i].category)
  }

  const AllCategories := "Todos"

  /** The filter's options: "Todos", then every category of the loaded
      posts once, in the order the posts first use it. A post whose
      category is itself "Todos" makes that option appear twice. */
  function Categories(shown: seq<PublicPost>): (r: seq<string>)
    ensures |r| >= 1 && r[0] == AllCategories
    ensures NoDuplicates(r[1..])
    ensures forall c :: c in r[1..] <==> exists i :: 0 <= i < |shown| && shown[i].category == c
    ensures forall i, j :: 1 <= i < j < |r| ==>
      && r[i] in CategoryColumn(shown) && r[j] in CategoryColumn(shown)
      && IndexOf(CategoryColumn(shown), r[i]) < IndexOf(CategoryColumn(shown), r[j])
  {
    var column := CategoryColumn(shown);
    var distinct := Distinct(column);
    DistinctFirstAppearance(column);
    var r := [AllCategories] + distinct;
    assert r[1..] == distinct;
    forall i, j | 1 <= i < j < |r|
      ensures r[i] in column && r[j] in column && IndexOf(column, r[i]) < IndexOf(column, r[j])
    {
      assert r[i] == distinct[i - 1] && r[j] == distinct[j - 1];
      assert IndexOf(column, distinct[i - 1]) < IndexOf(column, distinct[j - 1]);
    }
    r
  }

  // ------------------------------------------------------------ filtering

  /** `filteredPosts`: every post under "Todos", otherwise the posts of the
      chosen category. */
  function FilterByCategory(shown: seq<PublicPost>, selected: string): (r: seq<PublicPost>)
    ensures selected == AllCategories ==> r == shown
    ensures selected != AllCategories ==> forall p :: p in r <==> p in shown && p.category == selected
    ensures Subsequence(r, shown)
  {
    if selected == AllCategories then
      SubsequenceOfItself(shown);
      shown
    else
      FilterIsSubsequence(shown, (p: PublicPost) => p.category == selected);
      Filter(shown, (p: PublicPost) => p.category == selected)
  }

  lemma {:induction false} SubsequenceOfItself<T>(s: seq<T>)
    ensures Subsequence(s, s)
  {
    if s != [] {
      SubsequenceOfItself(s[1..]);
    }
  }

  function FeaturedPosts(filtered: seq<PublicPost>): seq<PublicPost> {
    Filter(filtered, (p: PublicPost) => p.featured)
  }

  function RegularPosts(filtered: seq<PublicPost>): seq<PublicPost> {
    Filter(filtered, (p: PublicPost) => !p.featured)
  }

  /** The two sections split the filtered posts: no post is in both, and
      each post is in one of them exactly as often as it is in the list. */
  lemma FeaturedRegularPartition(filtered: seq<PublicPost>)
    ensures forall p :: p in FeaturedPosts(filtered) ==> p.featured
    ensures forall p :: p in RegularPosts(filtered) ==> !p.featured
    ensures multiset(FeaturedPosts(filtered)) + multiset(RegularPosts(filtered)) == multiset(filtered)
  {
    var featured, regular := FeaturedPosts(filtered), RegularPosts(filtered);
    forall p
      ensures (multiset(featured) + multiset(regular))[p] == multiset(filtered)[p]
    {
      FilterCount(filtered, (p: PublicPost) => p.featured, p);
      FilterCount(filtered, (p: PublicPost) => !p.featured, p);
    }
  }

  /** Both sections keep the list's order. */
  lemma SectionsKeepOrder(filtered: seq<PublicPost>)
    ensures Subsequence(FeaturedPosts(filtered), filtered) && Subsequence(RegularPosts(filtered), filtered)
  {
    FilterIsSubsequence(filtered, (p: PublicPost) => p.featured);
    FilterIsSubsequence(filtered, (p: PublicPost) => !p.featured);
  }

  // ------------------------------------------------------------ cards

  const DefaultImage := "https://images.unsplash.com/photo-1576091160399-112ba8d25d1f?ixlib=rb-4.0.3&auto=format&fit=crop&w=800&q=80"

  /** The card's background: the post's image when it is a non-empty
      string, the fixed picture otherwise. */
  function CardImage(p: PublicPost): (url: string)
    ensures Truthy(p.image) ==> url == p.image.value
    ensures !Truthy(p.image) ==> url == DefaultImage
    ensures url != ""
  {
    if Truthy(p.image) then p.image.value else DefaultImage
  }

  /** The view counter appears only for posts read at least once. */
  predicate ShowsViews(p: PublicPost) {
    p.views > 0
  }

  // ------------------------------------------------------------ page state

  /** What the page holds: the loaded posts, the filter's options and the
      chosen category. */
  datatype PageState = PageState(posts: seq<PublicPost>, categories: seq<string>, selected: string)

  function Initial(): (st: PageState)
    ensures st.posts == [] && st.categories == [AllCategories] && st.selected == AllCategories
  {
    PageState([], [AllCategories], AllCategories)
  }

  /** A successful answer replaces the posts and rebuilds the options; a
      failed one leaves the state as it was. The chosen category is kept. */
  function Load(st: PageState, response: PublicListResponse): (r: PageState)
    ensures response.PublicFailed? ==> r == st
    ensures response.PublicListing? ==>
      r.posts == response.posts && r.categories == Categories(response.posts) && r.selected == st.selected
  {
    match response
    case PublicFailed => st
    case PublicListing(shown, _) => st.(posts := shown, categories := Categories(shown))
  }

  /** The two card sections for a state. */
  function Sections(st: PageState): (r: (seq<PublicPost>, seq<PublicPost>))
    ensures var filtered := FilterByCategory(st.posts, st.selected);
      r == (FeaturedPosts(filtered), RegularPosts(filtered))
  {
    var filtered := FilterByCategory(st.posts, st.selected);
    (FeaturedPosts(filtered), RegularPosts(filtered))
  }

  /** Choosing a category the filter offers shows, across both sections,
      exactly the loaded posts of that category (every post under
      "Todos"). */
  lemma SectionsShowChosenCategory(st: PageState, p: PublicPost)
    ensures var (featured, regular) := Sections(st);
      (p in featured || p in regular) <==>
        p in st.posts && (st.selected == AllCategories || p.category == st.selected)
  {
    var filtered := FilterByCategory(st.posts, st.selected);
    FeaturedRegularPartition(filtered);
    assert (p in FeaturedPosts(filtered) || p in RegularPosts(filtered)) <==> p in filtered by {
      assert multiset(filtered)[p] ==
        multiset(FeaturedPosts(filtered))[p] + multiset(RegularPosts(filtered))[p];
    }
  }
}
