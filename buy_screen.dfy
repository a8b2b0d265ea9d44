/** The search panel of the buy screen: a free-text query, a guard against a
    blank query, one read of the whole property collection, and a
    case-insensitive substring filter on name or location whose result
    replaces the displayed list. */
module BuyScreen {
  import opened Records
  import opened Seqs
  import opened Text

  const EmptyQueryMessage := "Please enter a search query."
  const NoMatchesMessage := "No properties found matching your search."
  const SearchErrorMessage := "An error occurred while searching properties."

  /** The filter callback: the lower-case name or the lower-case location
      contains the lower-case query. The query is used as typed, untrimmed.
      Under the ASCII lower-casing of `ToLower`, which keeps lengths and works
      character by character, a record whose name or location holds the query
      in its exact case always matches, and a query longer than both fields
      never does. */
  predicate Matches(p: Property, query: string): (b: bool)
    ensures Includes(p.name, query) || Includes(p.location, query) ==> b
    ensures |query| > |p.name| && |query| > |p.location| ==> !b
  {
    assert Includes(p.name, query) ==> Includes(ToLower(p.name), ToLower(query)) by {
      if Includes(p.name, query) {
        IncludesSurvivesLowerCase(p.name, query);
      }
    }
    assert Includes(p.location, query) ==> Includes(ToLower(p.location), ToLower(query)) by {
      if Includes(p.location, query) {
        IncludesSurvivesLowerCase(p.location, query);
      }
    }
    || Includes(ToLower(p.name), ToLower(query))
    || Includes(ToLower(p.location), ToLower(query))
  }

  function MatchesQuery(query: string): Property -> bool
  {
    p => Matches(p, query)
  }

  /** `data.filter(...)` with the match callback: exactly the fetched records
      that match, each as often as fetched, in the order fetched. */
  function SearchResults(records: seq<Property>, query: string): (r: seq<Property>)
    ensures forall p :: p in r <==> p in records && Matches(p, query)
    ensures forall p :: multiset(r)[p] == if Matches(p, query) then multiset(records)[p] else 0
    ensures IsSubsequence(r, records) && |r| <= |records|
  {
    FilterComplete(MatchesQuery(query), records);
    FilterIsSubsequence(MatchesQuery(query), records);
    forall p ensures multiset(Filter(MatchesQuery(query), records))[p]
                     == if Matches(p, query) then multiset(records)[p] else 0 {
      FilterCount(MatchesQuery(query), records, p);
    }
    Filter(MatchesQuery(query), records)
  }

  /** Zero results exactly when no fetched record matches. */
  lemma NoResultsIff(records: seq<Property>, query: string)
    ensures SearchResults(records, query) == [] <==> forall p :: p in records ==> !Matches(p, query)
  {
    FilterEmptyIff(MatchesQuery(query), records);
  }

  /** Only the lower-case form of the query matters: queries that differ only
      in the case of ASCII letters give the same results. */
  lemma SearchIgnoresCase(records: seq<Property>, q1: string, q2: string)
    requires ToLower(q1) == ToLower(q2)
    ensures SearchResults(records, q1) == SearchResults(records, q2)
  {
    FilterCongruent(MatchesQuery(q1), MatchesQuery(q2), records);
  }

  /** Searching for the lower-case form of a query finds the same records. */
  lemma SearchLowerCaseQuery(records: seq<Property>, query: string)
    ensures SearchResults(records, ToLower(query)) == SearchResults(records, query)
  {
    ToLowerIdempotent(query);
    SearchIgnoresCase(records, ToLower(query), query);
  }

  /** The component's view state: the query being typed and the displayed
      search results. */
  class PropertySearchSection {
    var searchQuery: string
    var properties: seq<Property>

    constructor ()
      ensures searchQuery == "" && properties == []
    {
      searchQuery := "";
      properties := [];
    }

    /** The input's change handler. */
    method SetSearchQuery(value: string)
      modifies this`searchQuery
      ensures searchQuery == value
    {
      searchQuery := value;
    }

    /** `handleSearch`. `response` is what the read of the collection would
        yield; it is consulted only when a request is made. `requested` tells
        whether the read was issued; `toast` is the notification shown. */
    method HandleSearch(response: FetchOutcome) returns (requested: bool, toast: Toast)
      modifies this`properties
      ensures requested <==> !IsBlank(searchQuery)
      ensures !requested ==> properties == old(properties) && toast == Error(EmptyQueryMessage)
      ensures requested && response.Fetched? ==>
                && properties == SearchResults(response.records, searchQuery)
                && toast == (if properties == [] then Info(NoMatchesMessage) else NoToast)
      ensures requested && !response.Fetched? ==>
                properties == old(properties) && toast == Error(SearchErrorMessage)
    {
      if Trim(searchQuery) == [] {
        return false, Error(EmptyQueryMessage);
      }
      requested := true;
      match response
      case Fetched(data) =>
        var filtered := SearchResults(data, searchQuery);
        properties := filtered;
        toast := if |filtered| == 0 then Info(NoMatchesMessage) else NoToast;
      case NotOk =>
        toast := Error(SearchErrorMessage);
      case Threw =>
        toast := Error(SearchErrorMessage);
    }
  }

  /** Two searches for the same query against the same collection display the
      same list, whatever was displayed before the first. */
  method SearchTwice(panel: PropertySearchSection, records: seq<Property>)
    returns (first: seq<Property>, second: seq<Property>)
    modifies panel
    ensures first == second == panel.properties
    ensures !IsBlank(old(panel.searchQuery)) ==> first == SearchResults(records, old(panel.searchQuery))
    ensures IsBlank(old(panel.searchQuery)) ==> first == old(panel.properties)
  {
    var _, _ := panel.HandleSearch(Fetched(records));
    first := panel.properties;
    var _, _ := panel.HandleSearch(Fetched(records));
    second := panel.properties;
  }

  /** Lower-case forms of the strings in the worked example below. */
  lemma ExampleLowerCases()
    ensures ToLower("austin") == "austin" && ToLower("Austin") == "austin"
    ensures ToLower("Oak House") == "oak house" && ToLower("Dallas") == "dallas"
  {
    assert ToLower("austin") == "austin" by {
      ToLowerOfLower("austin");
    }
    assert ToLower("Austin") == "austin" by {
      assert "Austin" == ['A'] + "ustin";
      ToLowerOfLower("ustin");
    }
    assert ToLower("Oak House") == "oak house" by {
      ToLowerAppend("Oak ", "House");
      assert "Oak " == ['O'] + "ak " && "House" == ['H'] + "ouse";
      ToLowerOfLower("ak ");
      ToLowerOfLower("ouse");
      assert "Oak House" == "Oak " + "House";
    }
    assert ToLower("Dallas") == "dallas" by {
      assert "Dallas" == ['D'] + "allas";
      ToLowerOfLower("allas");
    }
  }

  /** Of two records where only the first matches, the search keeps the first. */
  lemma SearchFirstOfTwo(a: Property, b: Property, query: string)
    requires Matches(a, query) && !Matches(b, query)
    ensures SearchResults([a, b], query) == [a]
  {
    var keep := MatchesQuery(query);
    assert keep(a) && !keep(b);
    assert [a, b][1..] == [b] && [b][1..] == [];
    assert Filter(keep, [b]) == [];
  }

  /** The worked example: with a house in Sunset Villa, Austin and one in
      Oak House, Dallas, the query "austin" finds the first (its location
      matches in another case) and not the second. */
  lemma AustinExample(villa: Property, oak: Property, query: string)
    requires villa.name == "Sunset Villa" && villa.location == "Austin"
    requires oak.name == "Oak House" && oak.location == "Dallas"
    requires query == "austin"
    ensures SearchResults([villa, oak], query) == [villa]
  {
    assert Matches(villa, query) && !Matches(oak, query) by {
      ExampleLowerCases();
      MissingCharNotIncluded("oak house", "austin", 't');
      MissingCharNotIncluded("dallas", "austin", 't');
    }
    SearchFirstOfTwo(villa, oak, query);
  }

  /** The query is matched as typed: "austin " with a trailing blank passes
      the guard but then takes part in the substring test, so it does not
      find a loft located in "Austin". */
  lemma UntrimmedQueryExample(loft: Property, query: string)
    requires loft.name == "Loft" && loft.location == "Austin"
    requires query == "austin "
    ensures SearchResults([loft], query) == []
    ensures !IsBlank(query)
  {
    assert !Matches(loft, query);
    NoResultsIff([loft], query);
    assert !IsWhitespace(query[0]);
  }
}
