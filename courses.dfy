/** The course catalogue page: a fixed list of courses narrowed by a
    category selector, a level selector (both with an "All" wildcard) and a
    case-insensitive search over title and instructor name. */
module Courses {
  import opened Wrappers
  import opened Text
  import Catalog

  /** The fields of a course that the filter, the badges and the prices read. */
  datatype Course = Course(
    id: nat,
    title: string,
    instructor: string,
    price: int,
    originalPrice: Option<int>,
    level: string,
    category: string,
    features: seq<string>)

  /** The page's three filter controls. */
  datatype FilterState = FilterState(category: string, level: string, search: string)

  /** The selector value that matches every course. */
  const Wildcard := "All"

  /** The state the page starts in. */
  const Defaults := FilterState(Wildcard, Wildcard, "")

  /** The six seed courses, in page order. */
  const AllCourses: seq<Course> := [
    Course(1, "Full Stack Web Development", "John Smith", 299, Some(399), "Intermediate", "Web Development",
           ["React & Redux", "Node.js & Express", "MongoDB", "Authentication", "Deployment"]),
    Course(2, "Data Science & Machine Learning", "Sarah Johnson", 399, Some(499), "Advanced", "Data Science",
           ["Python Programming", "TensorFlow", "Data Analysis", "ML Algorithms", "Deep Learning"]),
    Course(3, "Digital Marketing Mastery", "Mike Chen", 199, Some(299), "Beginner", "Marketing",
           ["SEO Optimization", "Social Media", "Google Ads", "Content Marketing", "Analytics"]),
    Course(4, "UI/UX Design Fundamentals", "Emma Wilson", 249, Some(349), "Beginner", "Design",
           ["Design Principles", "Figma", "Prototyping", "User Research", "Wireframing"]),
    Course(5, "Cybersecurity Essentials", "Alex Rodriguez", 349, Some(449), "Intermediate", "Security",
           ["Network Security", "Ethical Hacking", "Risk Assessment", "Incident Response", "Compliance"]),
    Course(6, "Mobile App Development", "Lisa Park", 329, Some(429), "Intermediate", "Mobile Development",
           ["React Native", "Flutter", "iOS Development", "Android Development", "App Store Deployment"])
  ]

  predicate MatchesCategory(c: Course, f: FilterState) {
    f.category == Wildcard || c.category == f.category
  }

  predicate MatchesLevel(c: Course, f: FilterState) {
    f.level == Wildcard || c.level == f.level
  }

  predicate MatchesSearch(c: Course, f: FilterState) {
    Includes(Lower(c.title), Lower(f.search)) || Includes(Lower(c.instructor), Lower(f.search))
  }

  /** The predicate handed to `courses.filter`. */
  predicate Matches(c: Course, f: FilterState) {
    MatchesCategory(c, f) && MatchesLevel(c, f) && MatchesSearch(c, f)
  }

  /** `filteredCourses`. */
  function FilteredCourses(cs: seq<Course>, f: FilterState): (r: seq<Course>)
    ensures forall c :: c in r <==> c in cs && Matches(c, f)
  {
    Catalog.Filter(cs, c => Matches(c, f))
  }

  /** The filter only removes courses; it never adds or reorders any. */
  lemma FilteredIsSubsequence(cs: seq<Course>, f: FilterState)
    ensures Catalog.IsSubsequence(FilteredCourses(cs, f), cs)
  {
    Catalog.FilterIsSubsequence(cs, c => Matches(c, f));
  }

  /** The filter keeps every copy of a matching course and no copy of another. */
  lemma FilteredCounts(cs: seq<Course>, f: FilterState)
    ensures forall c :: multiset(FilteredCourses(cs, f))[c] == if Matches(c, f) then multiset(cs)[c] else 0
  {
    Catalog.FilterCounts(cs, c => Matches(c, f));
  }

  /** A course is shown exactly when it passes all three tests. */
  lemma ShownIff(cs: seq<Course>, f: FilterState, c: Course)
    ensures c in FilteredCourses(cs, f) <==>
            c in cs && MatchesCategory(c, f) && MatchesLevel(c, f) && MatchesSearch(c, f)
  {
  }

  /** With the initial controls ("All", "All", empty search) every course is listed, in order. */
  lemma DefaultsShowAll(cs: seq<Course>)
    ensures FilteredCourses(cs, Defaults) == cs
  {
    LowerEmpty();
    forall c | c in cs ensures Matches(c, Defaults) {
      IncludesEmpty(Lower(c.title));
    }
    Catalog.FilterAllPass(cs, c => Matches(c, Defaults));
  }

  /** Two search terms that lower-case alike give the same list ("CHEN" and "chen"). */
  lemma SearchCaseInsensitive(cs: seq<Course>, f: FilterState, term: string)
    requires Lower(term) == Lower(f.search)
    ensures FilteredCourses(cs, f.(search := term)) == FilteredCourses(cs, f)
  {
    var g := f.(search := term);
    forall c | c in cs ensures Matches(c, g) == Matches(c, f) {
      assert MatchesSearch(c, g) == MatchesSearch(c, f);
    }
    Catalog.FilterCongruent(cs, c => Matches(c, g), c => Matches(c, f));
  }

  /** In particular, searching for the lower-cased term is the same as searching for the term. */
  lemma SearchByLowered(cs: seq<Course>, f: FilterState)
    ensures FilteredCourses(cs, f.(search := Lower(f.search))) == FilteredCourses(cs, f)
  {
    LowerIdempotent(f.search);
    SearchCaseInsensitive(cs, f, Lower(f.search));
  }

  /** Filtering the filtered list again with the same controls changes nothing. */
  lemma FilterIdempotent(cs: seq<Course>, f: FilterState)
    ensures FilteredCourses(FilteredCourses(cs, f), f) == FilteredCourses(cs, f)
  {
    Catalog.FilterIdempotent(cs, c => Matches(c, f));
  }

  /** "No courses found matching your criteria." is shown. */
  predicate ShowsNoResults(cs: seq<Course>, f: FilterState) {
    |FilteredCourses(cs, f)| == 0
  }

  /** The empty-result message appears exactly when no course passes the filter. */
  lemma NoResultsIff(cs: seq<Course>, f: FilterState)
    ensures ShowsNoResults(cs, f) <==> forall c :: c in cs ==> !Matches(c, f)
  {
    Catalog.FilterEmptyIff(cs, c => Matches(c, f));
  }

  /** The colour of the level badge. */
  datatype Tone = Green | Yellow | Red

  function LevelTone(level: string): (r: Tone)
    ensures r == Green <==> level == "Beginner"
    ensures r == Yellow <==> level == "Intermediate"
    ensures r == Red <==> level != "Beginner" && level != "Intermediate"
  {
    if level == "Beginner" then Green
    else if level == "Intermediate" then Yellow
    else Red
  }

  /** The "Save $n" badge: shown only when a (non-zero) original price is present,
      and then it is the original price minus the price. */
  function SaveBadge(c: Course): (r: Option<int>)
    ensures r.Some? <==> c.originalPrice.Some? && c.originalPrice.value != 0
    ensures r.Some? ==> r.value + c.price == c.originalPrice.value
  {
    match c.originalPrice
    case Some(o) => if o != 0 then Some(o - c.price) else None
    case None => None
  }

  /** Every seed course shows a saving of exactly $100. */
  lemma SeedSavings()
    ensures forall i :: 0 <= i < |AllCourses| ==> SaveBadge(AllCourses[i]) == Some(100)
  {
  }

  /** The "What you'll learn" chips: at most the first three features. */
  function VisibleFeatures(c: Course): (r: seq<string>)
    ensures |r| <= 3 && |r| <= |c.features|
    ensures |r| == if |c.features| < 3 then |c.features| else 3
    ensures r <= c.features
  {
    Catalog.Slice(c.features, 0, 3)
  }

  // ---- The seed scenarios ----

  /** A text in which no "h" is followed by an "e", ignoring case, does not contain
      "chen" once lower-cased. */
  lemma NoChen(raw: string)
    requires forall i :: 0 <= i < |raw| - 1 ==> LowerChar(raw[i]) != 'h' || LowerChar(raw[i + 1]) != 'e'
    ensures !Includes(Lower(raw), "chen")
  {
    var s := Lower(raw);
    forall i: nat | i <= |s| ensures !OccursAt(s, "chen", i) {
      if i + 4 <= |s| {
        assert s[i + 1] != 'h' || s[i + 2] != 'e';
        assert s[i..i + 4][1] == s[i + 1] && s[i..i + 4][2] == s[i + 2];
      }
    }
  }

  lemma NoChen1() ensures !Includes(Lower(AllCourses[0].title), "chen") && !Includes(Lower(AllCourses[0].instructor), "chen")
  { NoChen(AllCourses[0].title); NoChen(AllCourses[0].instructor); }
  lemma NoChen2T() ensures !Includes(Lower(AllCourses[1].title), "chen") { NoChen(AllCourses[1].title); }
  lemma NoChen2I() ensures !Includes(Lower(AllCourses[1].instructor), "chen") { NoChen(AllCourses[1].instructor); }
  lemma NoChen4() ensures !Includes(Lower(AllCourses[3].title), "chen") && !Includes(Lower(AllCourses[3].instructor), "chen")
  { NoChen(AllCourses[3].title); NoChen(AllCourses[3].instructor); }
  lemma NoChen5() ensures !Includes(Lower(AllCourses[4].title), "chen") && !Includes(Lower(AllCourses[4].instructor), "chen")
  { NoChen(AllCourses[4].title); NoChen(AllCourses[4].instructor); }
  lemma NoChen6() ensures !Includes(Lower(AllCourses[5].title), "chen") && !Includes(Lower(AllCourses[5].instructor), "chen")
  { NoChen(AllCourses[5].title); NoChen(AllCourses[5].instructor); }

  /** Searching "chen" lists exactly course 3, whose instructor is Mike Chen. */
  lemma SeedSearchChen()
    ensures FilteredCourses(AllCourses, Defaults.(search := "chen")) == [AllCourses[2]]
    ensures AllCourses[2].id == 3
  {
    var f := Defaults.(search := "chen");
    assert Lower("chen") == "chen";
    NoChen1(); NoChen2T(); NoChen2I(); NoChen4(); NoChen5(); NoChen6();
    var s := Lower(AllCourses[2].instructor);
    assert s[5..9] == "chen";
    assert OccursAt(s, "chen", 5);
    Catalog.FilterExactlyOne(AllCourses, c => Matches(c, f), 2);
  }

  /** The same search typed in capitals gives the same single course. */
  lemma SeedSearchChenCapitals()
    ensures FilteredCourses(AllCourses, Defaults.(search := "CHEN")) == [AllCourses[2]]
  {
    SeedSearchChen();
    CapitalsLowered();
    SearchCaseInsensitive(AllCourses, Defaults.(search := "chen"), "CHEN");
  }

  lemma CapitalsLowered()
    ensures Lower("CHEN") == Lower("chen") == "chen"
  {
  }

  /** Selecting category "Design" lists exactly course 4, "UI/UX Design Fundamentals". */
  lemma SeedCategoryDesign()
    ensures FilteredCourses(AllCourses, Defaults.(category := "Design")) == [AllCourses[3]]
    ensures AllCourses[3].id == 4
  {
    var f := Defaults.(category := "Design");
    LowerEmpty();
    IncludesEmpty(Lower(AllCourses[3].title));
    Catalog.FilterExactlyOne(AllCourses, c => Matches(c, f), 3);
  }
}
