/** The two browsing pages: the guide list of src/pages/Guides.tsx, filtered
    by a tag and a search term, and the destination list of
    src/pages/Destinations.tsx, filtered by a category and a search term. */
module Listings {
  import opened Text
  import opened Sequences

  /** The tag and the category that select everything. */
  const ALL := "全部"

  /** The fields of a guide card that the filter and the tag list read. */
  datatype GuideCard = GuideCard(title: string, excerpt: string, tags: seq<string>)

  /** The fields of a destination that its filter reads. */
  datatype Destination = Destination(name: string, country: string, category: string)

  /** The category buttons of the destination page. */
  const CATEGORIES := [ALL, "海岛", "自然风光", "城市", "文化古迹"]

  /** `a.toLowerCase().includes(needle) || b.toLowerCase().includes(needle)`,
      with `needle` already lower-cased. */
  predicate EitherIncludes(a: string, b: string, needle: string) {
    Includes(Lower(a), needle) || Includes(Lower(b), needle)
  }

  /** The test of `filteredGuides`, with the search term lower-cased. */
  predicate GuideShown(g: GuideCard, tag: string, needle: string) {
    (tag == ALL || tag in g.tags) && EitherIncludes(g.title, g.excerpt, needle)
  }

  function GuideTest(tag: string, needle: string): GuideCard -> bool {
    (g: GuideCard) => GuideShown(g, tag, needle)
  }

  /** `filteredGuides`: the guides with the selected tag (any, for "全部") whose
      title or excerpt contains the search term, ignoring case, in list order. */
  function FilterGuides(guides: seq<GuideCard>, tag: string, term: string): (r: seq<GuideCard>)
    ensures forall i :: 0 <= i < |r| ==> r[i] in guides && GuideShown(r[i], tag, Lower(term))
    ensures forall i :: 0 <= i < |guides| && GuideShown(guides[i], tag, Lower(term)) ==> guides[i] in r
  {
    Filter(guides, GuideTest(tag, Lower(term)))
  }

  /** The test of `filteredDestinations`, with the search term lower-cased. */
  predicate DestinationShown(d: Destination, category: string, needle: string) {
    (category == ALL || d.category == category) && EitherIncludes(d.name, d.country, needle)
  }

  function DestinationTest(category: string, needle: string): Destination -> bool {
    (d: Destination) => DestinationShown(d, category, needle)
  }

  /** `filteredDestinations`: the destinations of the selected category (any,
      for "全部") whose name or country contains the search term, ignoring
      case, in list order. */
  function FilterDestinations(destinations: seq<Destination>, category: string, term: string): (r: seq<Destination>)
    ensures forall i :: 0 <= i < |r| ==> r[i] in destinations && DestinationShown(r[i], category, Lower(term))
    ensures forall i :: 0 <= i < |destinations| && DestinationShown(destinations[i], category, Lower(term)) ==> destinations[i] in r
  {
    Filter(destinations, DestinationTest(category, Lower(term)))
  }

  /** Every string contains the empty search term. */
  lemma EmptyTermMatches(s: string)
    ensures Includes(Lower(s), Lower(""))
  {
    assert Lower("") == "";
    assert IsPrefixAt(Lower(s), 0, "");
  }

  /** Both filters keep the list order and repeat nothing: the result is a
      subsequence of the list. */
  lemma FiltersKeepOrder(guides: seq<GuideCard>, tag: string, destinations: seq<Destination>, category: string, term: string)
    ensures IsSubsequence(FilterGuides(guides, tag, term), guides)
    ensures IsSubsequence(FilterDestinations(destinations, category, term), destinations)
  {
    FilterIsSubsequence(guides, GuideTest(tag, Lower(term)));
    FilterIsSubsequence(destinations, DestinationTest(category, Lower(term)));
  }

  /** The reset button ("全部" and an empty term) shows every guide and
      every destination. */
  lemma ResetShowsAll(guides: seq<GuideCard>, destinations: seq<Destination>)
    ensures FilterGuides(guides, ALL, "") == guides
    ensures FilterDestinations(destinations, ALL, "") == destinations
  {
    forall i | 0 <= i < |guides|
      ensures GuideTest(ALL, Lower(""))(guides[i])
    {
      EmptyTermMatches(guides[i].title);
    }
    FilterKeepsAll(guides, GuideTest(ALL, Lower("")));
    forall i | 0 <= i < |destinations|
      ensures DestinationTest(ALL, Lower(""))(destinations[i])
    {
      EmptyTermMatches(destinations[i].name);
    }
    FilterKeepsAll(destinations, DestinationTest(ALL, Lower("")));
  }

  /** Choosing a tag or a category only narrows what the search alone shows. */
  lemma SelectionNarrows(guides: seq<GuideCard>, tag: string, destinations: seq<Destination>, category: string, term: string)
    ensures FilterGuides(guides, tag, term) == Filter(FilterGuides(guides, ALL, term), GuideTest(tag, Lower(term)))
    ensures FilterDestinations(destinations, category, term)
      == Filter(FilterDestinations(destinations, ALL, term), DestinationTest(category, Lower(term)))
  {
    FilterNarrows(guides, GuideTest(tag, Lower(term)), GuideTest(ALL, Lower(term)));
    FilterNarrows(destinations, DestinationTest(category, Lower(term)), DestinationTest(ALL, Lower(term)));
  }

  /** Lower-casing twice is lower-casing once. */
  lemma LowerIdempotent(s: string)
    ensures Lower(Lower(s)) == Lower(s)
  {
    assert forall k :: 0 <= k < |s| ==> LowerChar(LowerChar(s[k])) == LowerChar(s[k]);
  }

  /** The search ignores the case of the term. */
  lemma SearchIgnoresCase(guides: seq<GuideCard>, tag: string, destinations: seq<Destination>, category: string, term: string)
    ensures FilterGuides(guides, tag, Lower(term)) == FilterGuides(guides, tag, term)
    ensures FilterDestinations(destinations, category, Lower(term)) == FilterDestinations(destinations, category, term)
  {
    LowerIdempotent(term);
  }

  function TagLists(guides: seq<GuideCard>): (r: seq<seq<string>>)
    ensures |r| == |guides| && forall i :: 0 <= i < |r| ==> r[i] == guides[i].tags
  {
    seq(|guides|, i requires 0 <= i < |guides| => guides[i].tags)
  }

  /** `allTags`: every tag used by some guide, once each, in the order of
      first use. */
  function AllTags(guides: seq<GuideCard>): (r: seq<string>)
    ensures NoDuplicates(r)
    ensures forall i, t :: 0 <= i < |guides| && t in guides[i].tags ==> t in r
    ensures forall k :: 0 <= k < |r| ==> exists i :: 0 <= i < |guides| && r[k] in guides[i].tags
  {
    TagsOfFlattened(guides);
    Dedupe(Flatten(TagLists(guides)))
  }

  lemma TagsOfFlattened(guides: seq<GuideCard>)
    ensures forall i, t :: 0 <= i < |guides| && t in guides[i].tags ==> t in Dedupe(Flatten(TagLists(guides)))
    ensures forall k :: 0 <= k < |Dedupe(Flatten(TagLists(guides)))| ==>
      exists i :: 0 <= i < |guides| && Dedupe(Flatten(TagLists(guides)))[k] in guides[i].tags
  {
    var lists := TagLists(guides);
    var flat := Flatten(lists);
    var r := Dedupe(flat);
    forall i, t | 0 <= i < |guides| && t in guides[i].tags
      ensures t in r
    {
      assert t in lists[i];
      assert t in flat;
      var j :| 0 <= j < |flat| && flat[j] == t;
    }
    forall k | 0 <= k < |r|
      ensures exists i :: 0 <= i < |guides| && r[k] in guides[i].tags
    {
      assert r[k] in flat;
      var j :| 0 <= j < |flat| && flat[j] == r[k];
      var i :| 0 <= i < |lists| && flat[j] in lists[i];
      assert r[k] in guides[i].tags;
    }
  }
}
