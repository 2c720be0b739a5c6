/** The blog page: a featured article, a category selector with an "All"
    wildcard, a case-insensitive search over title and excerpt, and a grid of
    the matching articles without its first entry. */
module Blog {
  import opened Text
  import Catalog

  /** The fields of a post that the page reads. */
  datatype Post = Post(
    id: nat,
    title: string,
    excerpt: string,
    author: string,
    category: string,
    tags: seq<string>)

  /** The page's two filter controls. */
  datatype FilterState = FilterState(category: string, search: string)

  const Wildcard := "All"

  /** The state the page starts in. */
  const Defaults := FilterState(Wildcard, "")

  /** The six seed posts, in page order. */
  const AllPosts: seq<Post> := [
    Post(1, "The Future of Web Development: Trends to Watch in 2024",
         "Explore the latest trends shaping the web development landscape, from AI integration to progressive web apps.",
         "Sarah Johnson", "Web Development", ["JavaScript", "React", "AI", "PWA"]),
    Post(2, "Machine Learning for Beginners: A Complete Guide",
         "Start your journey into machine learning with this comprehensive guide covering fundamentals and practical applications.",
         "Dr. Michael Chen", "Data Science", ["Python", "ML", "AI", "Data Science"]),
    Post(3, "Digital Marketing Strategies That Actually Work",
         "Discover proven digital marketing strategies that drive real results for businesses of all sizes.",
         "Emma Rodriguez", "Marketing", ["SEO", "Social Media", "Content Marketing"]),
    Post(4, "UI/UX Design Principles Every Designer Should Know",
         "Master the fundamental principles of user interface and user experience design to create exceptional digital products.",
         "Alex Kim", "Design", ["UI", "UX", "Design", "Figma"]),
    Post(5, "Cybersecurity Best Practices for Remote Work",
         "Essential cybersecurity measures to protect your data and systems while working remotely.",
         "James Wilson", "Security", ["Security", "Remote Work", "VPN"]),
    Post(6, "Mobile App Development: Native vs Cross-Platform",
         "Compare native and cross-platform development approaches to choose the best strategy for your mobile app.",
         "Lisa Park", "Mobile Development", ["React Native", "Flutter", "iOS", "Android"])
  ]

  predicate MatchesCategory(p: Post, f: FilterState) {
    f.category == Wildcard || p.category == f.category
  }

  predicate MatchesSearch(p: Post, f: FilterState) {
    Includes(Lower(p.title), Lower(f.search)) || Includes(Lower(p.excerpt), Lower(f.search))
  }

  /** The predicate handed to `blogPosts.filter`. */
  predicate Matches(p: Post, f: FilterState) {
    MatchesCategory(p, f) && MatchesSearch(p, f)
  }

  /** `filteredPosts`. */
  function FilteredPosts(ps: seq<Post>, f: FilterState): (r: seq<Post>)
    ensures forall p :: p in r <==> p in ps && MatchesCategory(p, f) && MatchesSearch(p, f)
  {
    Catalog.Filter(ps, p => Matches(p, f))
  }

  /** The filter only removes posts; it never adds or reorders any. */
  lemma FilteredIsSubsequence(ps: seq<Post>, f: FilterState)
    ensures Catalog.IsSubsequence(FilteredPosts(ps, f), ps)
  {
    Catalog.FilterIsSubsequence(ps, p => Matches(p, f));
  }

  /** The filter keeps every copy of a matching post and no copy of another. */
  lemma FilteredCounts(ps: seq<Post>, f: FilterState)
    ensures forall p :: multiset(FilteredPosts(ps, f))[p] == if Matches(p, f) then multiset(ps)[p] else 0
  {
    Catalog.FilterCounts(ps, p => Matches(p, f));
  }

  /** With the initial controls every post passes the filter, in order. */
  lemma DefaultsShowAll(ps: seq<Post>)
    ensures FilteredPosts(ps, Defaults) == ps
  {
    LowerEmpty();
    forall p | p in ps ensures Matches(p, Defaults) {
      IncludesEmpty(Lower(p.title));
    }
    Catalog.FilterAllPass(ps, p => Matches(p, Defaults));
  }

  /** Two search terms that lower-case alike give the same list. */
  lemma SearchCaseInsensitive(ps: seq<Post>, f: FilterState, term: string)
    requires Lower(term) == Lower(f.search)
    ensures FilteredPosts(ps, f.(search := term)) == FilteredPosts(ps, f)
  {
    var g := f.(search := term);
    forall p | p in ps ensures Matches(p, g) == Matches(p, f) {
      assert MatchesSearch(p, g) == MatchesSearch(p, f);
    }
    Catalog.FilterCongruent(ps, p => Matches(p, g), p => Matches(p, f));
  }

  /** Only title and excerpt are searched: the author and the tags never decide a match. */
  lemma SearchIgnoresAuthorAndTags(p: Post, f: FilterState, author: string, tags: seq<string>)
    ensures Matches(p.(author := author, tags := tags), f) == Matches(p, f)
  {
  }

  /** A post with an empty title and excerpt is found only by an empty search, even though
      its author (post 2's "Dr. Michael Chen") and its tags are not empty. */
  lemma AuthorNotSearched(f: FilterState)
    requires f.category == Wildcard
    ensures Matches(AllPosts[1].(title := "", excerpt := ""), f) <==> Lower(f.search) == ""
  {
    var p := AllPosts[1].(title := "", excerpt := "");
    if Lower(f.search) == "" {
      IncludesEmpty("");
      LowerEmpty();
    } else {
      LowerEmpty();
      if Includes(Lower(p.title), Lower(f.search)) {
        IncludesShorter(Lower(p.title), Lower(f.search));
      }
      if Includes(Lower(p.excerpt), Lower(f.search)) {
        IncludesShorter(Lower(p.excerpt), Lower(f.search));
      }
    }
  }

  /** Filtering the filtered list again with the same controls changes nothing. */
  lemma FilterIdempotent(ps: seq<Post>, f: FilterState)
    ensures FilteredPosts(FilteredPosts(ps, f), f) == FilteredPosts(ps, f)
  {
    Catalog.FilterIdempotent(ps, p => Matches(p, f));
  }

  /** `featuredPost`: always the first seed post, whatever the filter. */
  const Featured: Post := AllPosts[0]

  /** `recentPosts`: positions 1 to 3 of the unfiltered list. */
  function RecentPosts(ps: seq<Post>): (r: seq<Post>)
    ensures |r| == if |ps| <= 1 then 0 else if |ps| >= 4 then 3 else |ps| - 1
    ensures forall i :: 0 <= i < |r| ==> r[i] == ps[i + 1]
  {
    Catalog.Slice(ps, 1, 4)
  }

  /** On the seed data the featured post is post 1 and the recent posts are posts 2, 3 and 4. */
  lemma SeedFeaturedAndRecent()
    ensures Featured.id == 1
    ensures RecentPosts(AllPosts) == [AllPosts[1], AllPosts[2], AllPosts[3]]
    ensures [RecentPosts(AllPosts)[0].id, RecentPosts(AllPosts)[1].id, RecentPosts(AllPosts)[2].id] == [2, 3, 4]
  {
  }

  /** The "Latest Articles" grid as written: `filteredPosts.slice(1)`. */
  function GridPosts(ps: seq<Post>, f: FilterState): (r: seq<Post>)
    ensures |r| == if |FilteredPosts(ps, f)| == 0 then 0 else |FilteredPosts(ps, f)| - 1
    ensures |r| > 0 ==> r == FilteredPosts(ps, f)[1..]
  {
    Catalog.SliceFrom(FilteredPosts(ps, f), 1)
  }

  /** "No articles found matching your criteria." is shown. */
  predicate ShowsNoArticles(ps: seq<Post>, f: FilterState) {
    |FilteredPosts(ps, f)| == 0
  }

  /** The empty-result message appears exactly when no post passes the filter. */
  lemma NoArticlesIff(ps: seq<Post>, f: FilterState)
    ensures ShowsNoArticles(ps, f) <==> forall p :: p in ps ==> !Matches(p, f)
  {
    Catalog.FilterEmptyIff(ps, p => Matches(p, f));
  }

  /** With exactly one match the grid is empty and no message is shown. */
  lemma SingleMatchShowsNothing(ps: seq<Post>, f: FilterState)
    requires |FilteredPosts(ps, f)| == 1
    ensures GridPosts(ps, f) == [] && !ShowsNoArticles(ps, f)
  {
  }

  /** Each card shows at most its first three tags. */
  function VisibleTags(p: Post): (r: seq<string>)
    ensures |r| <= 3 && |r| <= |p.tags|
    ensures |r| == if |p.tags| < 3 then |p.tags| else 3
    ensures r <= p.tags
  {
    Catalog.Slice(p.tags, 0, 3)
  }

  /** Counterexample: category "Design" matches post 4 only, which is not the featured
      post, yet the grid drops it and the empty-result message stays hidden. */
  lemma SeedDesignPostHidden()
    ensures FilteredPosts(AllPosts, Defaults.(category := "Design")) == [AllPosts[3]]
    ensures AllPosts[3] != Featured
    ensures GridPosts(AllPosts, Defaults.(category := "Design")) == []
    ensures !ShowsNoArticles(AllPosts, Defaults.(category := "Design"))
  {
    DesignMatchesOnly();
    SeedIdsDistinctFromFeatured();
  }

  /** Category "Design" matches post 4 only. */
  lemma DesignMatchesOnly()
    ensures FilteredPosts(AllPosts, Defaults.(category := "Design")) == [AllPosts[3]]
  {
    var f := Defaults.(category := "Design");
    LowerEmpty();
    IncludesEmpty(Lower(AllPosts[3].title));
    assert forall j :: 0 <= j < |AllPosts| && j != 3 ==> AllPosts[j].category != "Design";
    Catalog.FilterExactlyOne(AllPosts, p => Matches(p, f), 3);
  }

  /** The grid as evidently intended: every matching post except the featured one,
      which is already shown above the grid. */
  function GridPostsWithoutFeatured(ps: seq<Post>, f: FilterState): (r: seq<Post>)
    ensures forall p :: p in r <==> p in FilteredPosts(ps, f) && p != Featured
  {
    Catalog.Filter(FilteredPosts(ps, f), p => p != Featured)
  }

  /** With the corrected grid every matching post is visible, either in the grid or as
      the featured post, and the featured post is never repeated in the grid. */
  lemma WithoutFeaturedShowsEveryMatch(ps: seq<Post>, f: FilterState)
    ensures forall p :: p in FilteredPosts(ps, f) ==> p in GridPostsWithoutFeatured(ps, f) || p == Featured
    ensures Featured !in GridPostsWithoutFeatured(ps, f)
    ensures Catalog.IsSubsequence(GridPostsWithoutFeatured(ps, f), FilteredPosts(ps, f))
  {
    Catalog.FilterIsSubsequence(FilteredPosts(ps, f), p => p != Featured);
  }

  /** Whenever the matching posts start with the featured post and hold it nowhere else,
      the corrected grid and the grid as written coincide. */
  lemma WithoutFeaturedAgreesWhenFeaturedLeads(ps: seq<Post>, f: FilterState)
    requires |FilteredPosts(ps, f)| > 0 && FilteredPosts(ps, f)[0] == Featured
    requires forall j :: 1 <= j < |FilteredPosts(ps, f)| ==> FilteredPosts(ps, f)[j] != Featured
    ensures GridPostsWithoutFeatured(ps, f) == GridPosts(ps, f)
  {
    Catalog.FilterDropsHead(FilteredPosts(ps, f), p => p != Featured);
  }

  /** On the initial page the corrected grid is exactly the grid as written. */
  lemma WithoutFeaturedAgreesOnDefaults()
    ensures GridPostsWithoutFeatured(AllPosts, Defaults) == GridPosts(AllPosts, Defaults)
    ensures GridPosts(AllPosts, Defaults) == AllPosts[1..]
  {
    DefaultsShowAll(AllPosts);
    SeedIdsDistinctFromFeatured();
    WithoutFeaturedAgreesWhenFeaturedLeads(AllPosts, Defaults);
  }

  lemma SeedIdsDistinctFromFeatured()
    ensures forall j :: 1 <= j < |AllPosts| ==> AllPosts[j] != Featured
  {
    forall j | 1 <= j < |AllPosts| ensures AllPosts[j] != Featured {
      assert AllPosts[j].id != Featured.id;
    }
  }

  /** A lone match other than the featured post is exactly what the corrected grid shows. */
  lemma WithoutFeaturedSingle(ps: seq<Post>, f: FilterState, d: Post)
    requires FilteredPosts(ps, f) == [d] && d != Featured
    ensures GridPostsWithoutFeatured(ps, f) == [d]
  {
    Catalog.FilterAllPass([d], p => p != Featured);
  }

  /** In the counterexample the corrected grid shows the Design post. */
  lemma WithoutFeaturedShowsDesignPost()
    ensures GridPostsWithoutFeatured(AllPosts, Defaults.(category := "Design")) == [AllPosts[3]]
  {
    DesignMatchesOnly();
    SeedIdsDistinctFromFeatured();
    WithoutFeaturedSingle(AllPosts, Defaults.(category := "Design"), AllPosts[3]);
  }
}
