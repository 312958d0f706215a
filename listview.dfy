/**
 * The list page of the GraphQL front end: it sorts the fetched countries by
 * name, filters them by a search string, shows one page of ten, offers
 * Previous/Next buttons and compares two countries picked from drop-downs.
 */
module ListView {
  import opened Wrappers
  import opened Text
  import opened Seqs
  import opened Sorting
  import opened Gateway

  /** `itemsPerPage`. */
  const ItemsPerPage: nat := 10

  function Min(a: int, b: int): int { if a <= b then a else b }

  function Max(a: int, b: int): int { if a >= b then a else b }

  // ---------------------------------------------------------------- sorting

  function NameOf(c: Country): string { c.name }

  /** `[...data.countries].sort((a, b) => a.name.localeCompare(b.name))`. */
  function SortCountries(countries: seq<Country>): (r: seq<Country>)
    ensures multiset(r) == multiset(countries)
    ensures SortedBy(r, NameOf)
  {
    SortBy(countries, NameOf)
  }

  /** Sorting neither adds nor loses countries. */
  lemma SortedFromList(countries: seq<Country>)
    ensures forall c :: c in SortCountries(countries) ==> c in countries
  {
    forall c | c in SortCountries(countries)
      ensures c in countries
    {
      assert c in multiset(SortCountries(countries));
    }
  }

  /** Countries of equal name keep the order they had in the fetched list. */
  lemma SortCountriesStable(countries: seq<Country>, name: string)
    ensures Keep(SortCountries(countries), HasName(name)) == Keep(countries, HasName(name))
  {
    SortByStable(countries, NameOf, HasName(name), name);
  }

  function HasName(name: string): Country -> bool
  {
    (c: Country) => c.name == name
  }

  // -------------------------------------------------------------- filtering

  /**
   * The search test: the lower-cased name contains the lower-cased query, or
   * there is a capital array whose first entry, lower-cased, contains it.
   * A null capital or an empty array (`capital[0]` undefined) fails the
   * second half.
   */
  predicate Matches(query: string, c: Country)
  {
    ContainsIgnoringCase(c.name, query)
    || (c.capital.Some? && |c.capital.value| > 0 && ContainsIgnoringCase(c.capital.value[0], query))
  }

  function MatchesQuery(query: string): Country -> bool
  {
    (c: Country) => Matches(query, c)
  }

  /** `sortedCountries.filter(...)` with the search test. */
  function FilterCountries(sorted: seq<Country>, query: string): (r: seq<Country>)
    ensures |r| <= |sorted|
    ensures forall i :: 0 <= i < |r| ==> Matches(query, r[i])
  {
    Keep(sorted, MatchesQuery(query))
  }

  /**
   * The filtered list is a subsequence of the sorted list and holds exactly
   * the countries of it that match the search.
   */
  lemma FilterCountriesExact(sorted: seq<Country>, query: string)
    ensures IsSubseq(FilterCountries(sorted, query), sorted)
    ensures forall c :: c in FilterCountries(sorted, query) <==> c in sorted && Matches(query, c)
  {
    KeepIsSubseq(sorted, MatchesQuery(query));
    forall c
      ensures c in FilterCountries(sorted, query) <==> c in sorted && Matches(query, c)
    {
      KeepMembers(sorted, MatchesQuery(query), c);
    }
  }

  /** An empty search string keeps every country. */
  lemma FilterEmptyQuery(sorted: seq<Country>)
    ensures FilterCountries(sorted, "") == sorted
  {
    forall i | 0 <= i < |sorted|
      ensures MatchesQuery("")(sorted[i])
    {
      ContainsEmpty(Lower(sorted[i].name));
      assert Lower("") == "";
    }
    KeepAll(sorted, MatchesQuery(""));
  }

  /** Filtering the filtered list again with the same query changes nothing. */
  lemma FilterIdempotent(sorted: seq<Country>, query: string)
    ensures FilterCountries(FilterCountries(sorted, query), query) == FilterCountries(sorted, query)
  {
    KeepIdempotent(sorted, MatchesQuery(query));
  }

  // ------------------------------------------------------------- pagination

  /** `Math.ceil(n / itemsPerPage)`. */
  function TotalPages(n: nat): (t: nat)
    ensures t * ItemsPerPage >= n
    ensures t > 0 ==> (t - 1) * ItemsPerPage < n
    ensures t == 0 <==> n == 0
  {
    (n + ItemsPerPage - 1) / ItemsPerPage
  }

  /** How `Array.prototype.slice` reads one bound: negative counts from the end, then clamp to [0, len]. */
  function SliceBound(i: int, len: nat): (r: nat)
    ensures r <= len
  {
    if i < 0 then Max(len + i, 0) else Min(i, len)
  }

  /** `s.slice(start, end)`. */
  function Slice<T>(s: seq<T>, start: int, end: int): (r: seq<T>)
  {
    var from, to := SliceBound(start, |s|), SliceBound(end, |s|);
    if from <= to then s[from..to] else []
  }

  /**
   * `filteredCountries.slice(indexOfFirstItem, indexOfLastItem)` for the
   * given page number. Page 0, which Next reaches when nothing matches,
   * slices from -10 to 0 and is empty.
   */
  function PageItems<T>(s: seq<T>, page: int): (r: seq<T>)
    ensures |r| <= ItemsPerPage
    ensures page >= 1 ==> r == s[Min((page - 1) * ItemsPerPage, |s|)..Min(page * ItemsPerPage, |s|)]
    ensures page == 0 ==> r == []
  {
    var indexOfLastItem := page * ItemsPerPage;
    var indexOfFirstItem := indexOfLastItem - ItemsPerPage;
    Slice(s, indexOfFirstItem, indexOfLastItem)
  }

  /** Element i sits on page i / 10 + 1, which exists, and on no other page. */
  lemma PageOfIndex<T>(s: seq<T>, i: int)
    requires 0 <= i < |s|
    ensures var p := i / ItemsPerPage + 1;
      1 <= p <= TotalPages(|s|) && PageItems(s, p)[i - (p - 1) * ItemsPerPage] == s[i]
    ensures forall q :: 1 <= q <= TotalPages(|s|) && q != i / ItemsPerPage + 1 ==>
      !((q - 1) * ItemsPerPage <= i < q * ItemsPerPage)
  {
  }

  /** Every item on a page comes from the list being paged. */
  lemma PageItemsFromList<T>(s: seq<T>, page: int)
    ensures forall x :: x in PageItems(s, page) ==> x in s
  {
    var r := PageItems(s, page);
    forall x | x in r
      ensures x in s
    {
      var k :| 0 <= k < |r| && r[k] == x;
      if page >= 1 {
        assert x == s[Min((page - 1) * ItemsPerPage, |s|) + k];
      }
    }
  }

  /** Pages p, p + 1, ... up to the last non-empty one. */
  function PagesFrom<T>(s: seq<T>, p: nat): seq<seq<T>>
    requires p >= 1
    decreases |s| - (p - 1) * ItemsPerPage
  {
    if (p - 1) * ItemsPerPage >= |s| then [] else [PageItems(s, p)] + PagesFrom(s, p + 1)
  }

  function Flatten<T>(pages: seq<seq<T>>): seq<T>
  {
    if |pages| == 0 then [] else pages[0] + Flatten(pages[1..])
  }

  /** From page p on there are `totalPages - (p - 1)` pages, or none past the end. */
  lemma {:induction false} PagesFromLength<T>(s: seq<T>, p: nat)
    requires p >= 1
    ensures |PagesFrom(s, p)| == Max(TotalPages(|s|) - (p - 1), 0)
    decreases |s| - (p - 1) * ItemsPerPage
  {
    if (p - 1) * ItemsPerPage < |s| {
      assert TotalPages(|s|) >= p;
      PagesFromLength(s, p + 1);
    } else {
      assert TotalPages(|s|) <= p - 1;
    }
  }

  /** The k-th page from page p on is page p + k. */
  lemma {:induction false} PagesFromAt<T>(s: seq<T>, p: nat, k: nat)
    requires p >= 1 && k < |PagesFrom(s, p)|
    ensures PagesFrom(s, p)[k] == PageItems(s, p + k)
    decreases k
  {
    if k > 0 {
      PagesFromAt(s, p + 1, k - 1);
    }
  }

  /** The pages from page p on, concatenated, are the list from item (p - 1) * 10 on. */
  lemma {:induction false} PagesFromFlatten<T>(s: seq<T>, p: nat)
    requires p >= 1
    ensures Flatten(PagesFrom(s, p)) == s[Min((p - 1) * ItemsPerPage, |s|)..]
    decreases |s| - (p - 1) * ItemsPerPage
  {
    if (p - 1) * ItemsPerPage < |s| {
      PagesFromFlatten(s, p + 1);
      var lo := (p - 1) * ItemsPerPage;
      var mid := Min(p * ItemsPerPage, |s|);
      assert s[lo..] == s[lo..mid] + s[mid..];
    }
  }

  /**
   * Pages 1 to `totalPages`, concatenated in order, give back the filtered
   * list: no element is lost, repeated or moved.
   */
  lemma PagesPartition<T>(s: seq<T>)
    ensures |PagesFrom(s, 1)| == TotalPages(|s|)
    ensures forall k :: 0 <= k < TotalPages(|s|) ==> PagesFrom(s, 1)[k] == PageItems(s, k + 1)
    ensures Flatten(PagesFrom(s, 1)) == s
  {
    PagesFromLength(s, 1);
    forall k | 0 <= k < TotalPages(|s|)
      ensures PagesFrom(s, 1)[k] == PageItems(s, k + 1)
    {
      PagesFromAt(s, 1, k);
    }
    PagesFromFlatten(s, 1);
  }

  /**
   * The page numbers the buttons can reach: 1 to `totalPages`, or 0 and 1
   * when nothing matches (Next then yields `min(2, 0)`).
   */
  predicate PageInRange(page: int, totalPages: nat)
  {
    0 <= page <= Max(totalPages, 1) && (page == 0 ==> totalPages == 0)
  }

  /** The "No countries found" row appears exactly when nothing matches the search. */
  lemma EmptyPageIffNoMatches<T>(s: seq<T>, page: int)
    requires PageInRange(page, TotalPages(|s|))
    ensures PageItems(s, page) == [] <==> |s| == 0
  {
  }

  /** Previous: `Math.max(prev - 1, 1)`. */
  function PreviousPage(page: int): (r: int)
    ensures r >= 1
    ensures page > 1 ==> r == page - 1
    ensures page <= 1 ==> r == 1
  {
    Max(page - 1, 1)
  }

  /** Next: `Math.min(prev + 1, totalPages)`. */
  function NextPage(page: int, totalPages: nat): (r: int)
    ensures r <= totalPages
    ensures page < totalPages ==> r == page + 1
    ensures page >= totalPages ==> r == totalPages
  {
    Min(page + 1, totalPages)
  }

  /** Both buttons keep the page number in range. */
  lemma ButtonsKeepPageInRange(page: int, totalPages: nat)
    requires PageInRange(page, totalPages)
    ensures PageInRange(PreviousPage(page), totalPages)
    ensures PageInRange(NextPage(page, totalPages), totalPages)
    ensures totalPages > 0 ==> 1 <= NextPage(page, totalPages)
  {
  }

  // ------------------------------------------------------- comparison table

  /** Position i holds the first country with the given code. */
  predicate IsFirstWithCode(countries: seq<Country>, code: string, i: int)
  {
    0 <= i < |countries| && countries[i].cca3 == code
    && forall j :: 0 <= j < i ==> countries[j].cca3 != code
  }

  /** `data.countries.find(c => c.cca3 === code)`: the first country with that code. */
  function FindByCode(countries: seq<Country>, code: string): (r: Option<Country>)
    ensures r.None? <==> forall i :: 0 <= i < |countries| ==> countries[i].cca3 != code
    ensures r.Some? ==> exists i :: IsFirstWithCode(countries, code, i) && countries[i] == r.value
    decreases |countries|
  {
    if |countries| == 0 then None
    else if countries[0].cca3 == code then
      assert IsFirstWithCode(countries, code, 0);
      Some(countries[0])
    else
      var r := FindByCode(countries[1..], code);
      if r.Some? then
        var i :| IsFirstWithCode(countries[1..], code, i) && countries[1..][i] == r.value;
        assert IsFirstWithCode(countries, code, i + 1) by {
          forall j | 0 < j < i + 1
            ensures countries[j].cca3 != code
          {
            assert countries[j] == countries[1..][j - 1];
          }
        }
        r
      else
        assert forall i :: 0 < i < |countries| ==> countries[i] == countries[1..][i - 1];
        r
  }

  /** What a GDP cell shows: "N/A" or the grouped digits of the amount. */
  datatype GdpShown = NotAvailable | Amount(value: int)

  /** `gdp ? gdp.toLocaleString() : "N/A"`: null and 0 are both falsy. */
  function GdpCell(gdp: Option<int>): (r: GdpShown)
    ensures r.NotAvailable? <==> gdp.None? || gdp == Some(0)
    ensures r.Amount? ==> gdp == Some(r.value) && r.value != 0
  {
    match gdp
    case Some(v) => if v != 0 then Amount(v) else NotAvailable
    case None => NotAvailable
  }

  /** Every record the gateway produces shows "N/A" for GDP. */
  lemma GdpCellOfMapped(raw: Upstream.RawCountry)
    ensures GdpCell(ToCountry(raw).gdp) == NotAvailable
  {
  }

  /**
   * `country.capital ? country.capital[0] : "N/A"`. An empty array is truthy
   * and its `[0]` is undefined, which renders as nothing, written "" here.
   */
  function CapitalCell(capital: Option<seq<string>>): (r: string)
    ensures capital.None? ==> r == "N/A"
    ensures capital.Some? && |capital.value| > 0 ==> r == capital.value[0]
    ensures capital == Some([]) ==> r == ""
  {
    match capital
    case None => "N/A"
    case Some(names) => if |names| > 0 then names[0] else ""
  }

  /**
   * For a record that went through the gateway, the capital cell reads "N/A"
   * exactly when the upstream capital was absent or its first entry was
   * itself "N/A"; an upstream empty array shows an empty cell.
   */
  lemma CapitalCellOfMapped(raw: Upstream.RawCountry)
    ensures CapitalCell(ToCountry(raw).capital) == "N/A" <==>
      raw.capital.None? || (|raw.capital.value| > 0 && raw.capital.value[0] == "N/A")
    ensures raw.capital == Some([]) ==> CapitalCell(ToCountry(raw).capital) == ""
  {
  }

  // ---------------------------------------------------------- page state

  /**
   * The state cells of the page component: the fetched list, the search
   * string, the page number and the two countries picked for comparison.
   */
  class Home {
    const countries: seq<Country>
    var searchQuery: string
    var currentPage: int
    var country1: Option<Country>
    var country2: Option<Country>

    /** `filteredCountries`. */
    function Filtered(): seq<Country>
      reads this
    {
      FilterCountries(SortCountries(countries), searchQuery)
    }

    /** `totalPages`. */
    function PageCount(): nat
      reads this
    {
      TotalPages(|Filtered()|)
    }

    /** `currentCountries`: the rows of the table. */
    function CurrentCountries(): (r: seq<Country>)
      reads this
      ensures |r| <= ItemsPerPage
      ensures forall c :: c in r ==> c in countries && Matches(searchQuery, c)
    {
      var sorted := SortCountries(countries);
      FilterCountriesExact(sorted, searchQuery);
      PageItemsFromList(Filtered(), currentPage);
      SortedFromList(countries);
      PageItems(Filtered(), currentPage)
    }

    /** The page number is one the buttons can reach, and each pick is a fetched country. */
    ghost predicate Valid()
      reads this
    {
      PageInRange(currentPage, PageCount())
      && (country1.Some? ==> country1.value in countries)
      && (country2.Some? ==> country2.value in countries)
    }

    /** The "No countries found" row is shown instead of the table rows. */
    function ShowsNoResults(): (r: bool)
      reads this
      requires Valid()
      ensures r <==> |Filtered()| == 0
    {
      EmptyPageIffNoMatches(Filtered(), currentPage);
      |CurrentCountries()| == 0
    }

    /**
     * `country1 && country2`: the comparison table is rendered when both
     * drop-downs hold a country, and then compares two fetched countries.
     */
    function ShowsComparison(): (r: bool)
      reads this
      requires Valid()
      ensures r <==> country1.Some? && country2.Some?
      ensures r ==> country1.value in countries && country2.value in countries
    {
      country1.Some? && country2.Some?
    }

    constructor (data: seq<Country>)
      ensures countries == data && searchQuery == "" && currentPage == 1
      ensures country1 == None && country2 == None
      ensures Valid()
    {
      countries := data;
      searchQuery := "";
      currentPage := 1;
      country1 := None;
      country2 := None;
    }

    /** Typing in the search box: store the query and go back to page 1. */
    method OnSearchChange(query: string)
      requires Valid()
      modifies this
      ensures searchQuery == query && currentPage == 1
      ensures country1 == old(country1) && country2 == old(country2)
      ensures Valid()
    {
      searchQuery := query;
      currentPage := 1;
    }

    /**
     * The Previous button. Its `disabled` flag (page 1) changes nothing: the
     * update would leave page 1 as it is.
     */
    method OnPrevious()
      requires Valid()
      modifies this
      ensures currentPage == PreviousPage(old(currentPage)) && currentPage >= 1
      ensures old(currentPage) == 1 ==> currentPage == 1
      ensures searchQuery == old(searchQuery)
      ensures country1 == old(country1) && country2 == old(country2)
      ensures Valid()
    {
      ButtonsKeepPageInRange(currentPage, PageCount());
      currentPage := Max(currentPage - 1, 1);
    }

    /**
     * The Next button. Its `disabled` flag (page == totalPages) changes
     * nothing: the update would leave that page as it is.
     */
    method OnNext()
      requires Valid()
      modifies this
      ensures currentPage == NextPage(old(currentPage), PageCount()) && currentPage <= PageCount()
      ensures old(currentPage) == PageCount() ==> currentPage == old(currentPage)
      ensures searchQuery == old(searchQuery)
      ensures country1 == old(country1) && country2 == old(country2)
      ensures Valid()
    {
      ButtonsKeepPageInRange(currentPage, PageCount());
      currentPage := Min(currentPage + 1, PageCount());
    }

    /** Picking a code in the first drop-down ("" is the "Select Country 1" entry). */
    method OnSelectFirst(code: string)
      requires Valid()
      modifies this
      ensures country1 == FindByCode(countries, code) && country2 == old(country2)
      ensures searchQuery == old(searchQuery) && currentPage == old(currentPage)
      ensures Valid()
      ensures ShowsComparison() <==> FindByCode(countries, code).Some? && old(country2).Some?
    {
      country1 := FindByCode(countries, code);
    }

    /** Picking a code in the second drop-down. */
    method OnSelectSecond(code: string)
      requires Valid()
      modifies this
      ensures country2 == FindByCode(countries, code) && country1 == old(country1)
      ensures searchQuery == old(searchQuery) && currentPage == old(currentPage)
      ensures Valid()
      ensures ShowsComparison() <==> old(country1).Some? && FindByCode(countries, code).Some?
    {
      country2 := FindByCode(countries, code);
    }
  }
}
