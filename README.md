# Country explorer: resolvers, list pipeline and comparison selection

A Dafny model of the logic of a small country explorer built on Next.js. A
GraphQL route proxies the public REST country API (`restcountries.com`) and
reshapes each raw record into a fixed `Country` type. There are two list
pages:

- the GraphQL page (`src/app/page.js`) queries that route. It sorts by name,
  filters by a case-insensitive substring of the name or the first capital,
  shows pages of ten with Previous/Next buttons, and compares two countries
  picked from drop-downs;
- the REST page (`countries_app/src/app/sample-test-without-graphql.js`)
  fetches the REST API directly, without the route. It filters by name only
  and lets the user toggle a selection of at most two countries. Their
  comparison appears once two are selected.

Files and modules:

| file | module | models |
|---|---|---|
| `wrappers.dfy` | `Wrappers` | `Option` (null/undefined) and `Result` (a throw) |
| `text.dfy` | `Text` | `toLowerCase`, `includes`, and the name order used for sorting |
| `seqs.dfy` | `Seqs` | `Array.prototype.filter` (`Keep`), subsequences, duplicate-freedom |
| `sorting.dfy` | `Sorting` | the stable `Array.prototype.sort` on a string key |
| `upstream.dfy` | `Upstream` | the raw REST record |
| `gateway.dfy` | `Gateway` | `src/app/api/graphql/route.js`: the `countries` and `country(code)` resolvers |
| `listview.dfy` | `ListView` | `src/app/page.js`: sort, filter, pagination, buttons, drop-downs, cell rules; class `Home` holds the page's state cells |
| `compare.dfy` | `Compare` | `countries_app/src/app/sample-test-without-graphql.js`: name filter, selection toggle; class `Selection` holds `selectedCountries` |

The pure parts are functions, each with lemmas about it. Five state cells
are fields of a class, and the handlers that set them are methods:
`searchQuery`, `currentPage`, `country1` and `country2` of `src/app/page.js`
are fields of `ListView.Home`, and `selectedCountries` of the REST page is the
field of `Compare.Selection`. The methods' postconditions tie the new state to
the pure functions, for example `Selection.Toggle` to `Toggled`. The REST
page's other cells are not fields. Its `countries` cell holds the value of
`Compare.LoadedCountries`. Its `search` cell is a parameter of
`Compare.FilterByName`. Its `loading` and `error` cells are left out.

Modelling choices:

- `country.capital || ["N/A"]` replaces only an absent or null capital. An
  empty array is truthy in JavaScript and is passed through unchanged.
- The resolvers do not check the HTTP status of the REST response. They have
  no lookup by name and do not validate the code before the call. The only
  error they throw themselves is "Country not found", and it is the only
  error in the model.
- `localeCompare` is replaced by lexicographic order on character codes
  (`Text.Leq`). The model proves that this order is reflexive, total,
  transitive and antisymmetric.
- `toLowerCase` maps the ASCII letters `A`-`Z` only.
- `slice` follows JavaScript: negative bounds count from the end, and all
  bounds are clamped. Page 0 is reachable. Next sets it when nothing matches,
  because `min(1 + 1, 0)` is 0. Page 0 slices from -10 to 0 and is empty.
- Object identity, as used by `includes` and `!==` in the toggle, is modelled
  as equality of record values.

## Model

| member | source | states |
|---|---|---|
| `Gateway.Countries` | src/app/api/graphql/route.js:34-42 | the `countries` result has one record per upstream record (same length) |
| `Gateway.CountriesProjection` | src/app/api/graphql/route.js:34-40 | record i of the result is upstream record i: `name` is `name.common`, `flag` is `flags.png`, and population, area and cca3 are copied |
| `Gateway.CapitalFallback` | src/app/api/graphql/route.js:36 | the mapped capital is never null; it is the upstream array whenever there is one, even an empty one, and `["N/A"]` only when the field is absent; it is empty iff upstream sent `[]` |
| `Gateway.GdpAlwaysNull` | src/app/api/graphql/route.js:41-56 | `gdp` is null in every record from either resolver |
| `Gateway.CountryByCode` | src/app/api/graphql/route.js:44-58 | `country(code)` fails with "Country not found" iff the response has no first element; otherwise it returns the `countries` mapping of that element |
| `Gateway.CountryAgreesWithCountries` | src/app/api/graphql/route.js:47-57 | on a non-empty response, `country(code)` equals `countries`' first record and keeps the upstream cca3 |
| `Text.ContainsIffOccurs` | src/app/page.js:54 | `includes` holds iff the needle occurs at some index |
| `Text.ContainsIgnoringCaseOfExact` | src/app/page.js:54-55 | an exact occurrence also matches once both sides are lower-cased |
| `Sorting.SortBy` | src/app/page.js:48-50 | the sorted list is a permutation of the input and ordered by key for every pair of positions |
| `Sorting.SortByStable` | src/app/page.js:48-50 | elements with equal keys keep their input order |
| `ListView.SortCountries` | src/app/page.js:48-50 | `sortedCountries` is a permutation of the fetched list, ordered by name |
| `ListView.SortCountriesStable` | src/app/page.js:48-50 | countries with the same name keep their fetched order |
| `ListView.FilterCountries` | src/app/page.js:53-56 | every kept country matches the search on its name or first capital |
| `ListView.FilterCountriesExact` | src/app/page.js:53-56 | the filtered list is a subsequence of the sorted list; a country is in it iff it is in the sorted list and matches |
| `ListView.FilterEmptyQuery` | src/app/page.js:53-56 | an empty search keeps every country |
| `ListView.FilterIdempotent` | src/app/page.js:53-56 | filtering twice with the same search equals filtering once |
| `ListView.TotalPages` | src/app/page.js:59 | `totalPages` is the ceiling of n/10: the least t with 10t >= n, and 0 iff n is 0 |
| `ListView.PageItems` | src/app/page.js:60-62 | page p >= 1 is `filtered[(p-1)*10 .. min(p*10, n)]` (empty past the end), page 0 is empty, and no page has more than 10 items |
| `ListView.PageOfIndex` | src/app/page.js:59-62 | element i is item i - (p-1)*10 of page p = i/10+1, and p is between 1 and `totalPages`; no other page's index range contains i (that each element lands on exactly one page, in order, is `PagesPartition`) |
| `ListView.PagesPartition` | src/app/page.js:59-62 | there are exactly `totalPages` pages, page k is the slice for k, and concatenating them in order gives back the filtered list, so each element is on exactly one page |
| `ListView.EmptyPageIffNoMatches` | src/app/page.js:146-174 | for any reachable page number, the shown page is empty iff nothing matches the search |
| `ListView.PreviousPage` | src/app/page.js:182 | Previous yields `max(p-1, 1)` and never goes below 1 |
| `ListView.NextPage` | src/app/page.js:192 | Next yields `min(p+1, totalPages)` and never goes past `totalPages` |
| `ListView.ButtonsKeepPageInRange` | src/app/page.js:180-196 | both buttons keep the page number in range: 1 to `totalPages`, or 0 and 1 when nothing matches |
| `ListView.FindByCode` | src/app/page.js:83 | the drop-down picks the first country with that cca3, or none iff no country has it |
| `ListView.GdpCell` | src/app/page.js:126 | GDP shows "N/A" iff it is null or 0, and otherwise shows the amount (the display rule itself; what it means for gateway records is `GdpCellOfMapped`) |
| `ListView.GdpCellOfMapped` | src/app/page.js:126 | every record from the gateway shows "N/A" for GDP |
| `ListView.CapitalCell` | src/app/page.js:158 | a null capital shows "N/A", a non-empty one its first entry, and an empty array shows nothing (the display rule itself; what it means for gateway records is `CapitalCellOfMapped`) |
| `ListView.CapitalCellOfMapped` | src/app/page.js:158 | after the gateway, the capital cell reads "N/A" iff the upstream capital was absent or its first entry was "N/A" |
| `ListView.Home.CurrentCountries` | src/app/page.js:60-62 | the table shows at most 10 rows, each a fetched country that matches the search |
| `ListView.Home.ShowsNoResults` | src/app/page.js:146 | the "No countries found" row appears iff the filtered list is empty |
| `ListView.Home.constructor` | src/app/page.js:24-27 | the page starts with an empty search, page 1 and nothing picked |
| `ListView.Home.OnSearchChange` | src/app/page.js:74-77 | a search change stores the query, resets the page to 1 and keeps both picks |
| `ListView.Home.OnPrevious` | src/app/page.js:180-186 | Previous sets the page to `max(p-1, 1)`; on page 1, where the button is disabled, the page stays put |
| `ListView.Home.OnNext` | src/app/page.js:190-196 | Next sets the page to `min(p+1, totalPages)`; on the last page, where the button is disabled, the page stays put |
| `ListView.Home.ShowsComparison` | src/app/page.js:98 | the comparison table is rendered iff both drop-downs hold a country, and then both are fetched countries |
| `ListView.Home.OnSelectFirst` | src/app/page.js:83 | the first drop-down holds the country that `FindByCode` finds; afterwards the comparison shows iff that lookup found one and the second drop-down already holds one |
| `ListView.Home.OnSelectSecond` | src/app/page.js:90 | the second drop-down holds the country that `FindByCode` finds; afterwards the comparison shows iff the first drop-down holds one and that lookup found one |
| `Compare.LoadedCountries` | countries_app/src/app/sample-test-without-graphql.js:21-23 | the loaded list is a permutation of the response, sorted by common name |
| `Compare.FilterByName` | countries_app/src/app/sample-test-without-graphql.js:36-38 | every kept country's lower-cased common name contains the lower-cased search |
| `Compare.FilterByNameExact` | countries_app/src/app/sample-test-without-graphql.js:36-38 | the result keeps the original order, and a country is kept iff its name matches |
| `Compare.ToggleRemoves` | countries_app/src/app/sample-test-without-graphql.js:42-43 | toggling a selected country removes exactly it and leaves the others in order |
| `Compare.ToggleAdds` | countries_app/src/app/sample-test-without-graphql.js:45 | an unselected country is appended when fewer than 2 are selected, and ignored otherwise |
| `Compare.ToggleKeepsValid` | countries_app/src/app/sample-test-without-graphql.js:40-47 | the toggle keeps the selection at most 2 long and free of duplicates |
| `Compare.ToggleTwiceRestores` | countries_app/src/app/sample-test-without-graphql.js:42-45 | toggling an unselected country twice, from fewer than 2, gives back the original selection |
| `Compare.Comparison` | countries_app/src/app/sample-test-without-graphql.js:113-121 | the comparison is shown iff exactly 2 are selected, with the first and second selected countries as its columns (the display rule itself; that the pair is two different countries is `Selection.Compared`) |
| `Compare.SelectionWalkthrough` | countries_app/src/app/sample-test-without-graphql.js:40-47 | select a, select b, try c, deselect a: gives [a], [a, b], [a, b], [b]; the comparison shows only for [a, b] |
| `Compare.Selection.constructor` | countries_app/src/app/sample-test-without-graphql.js:14 | the selection starts empty |
| `Compare.Selection.Toggle` | countries_app/src/app/sample-test-without-graphql.js:40-47 | the new selection is `Toggled` of the old one, with each of the three cases spelled out, and the invariant is kept |
| `Compare.Selection.Compared` | countries_app/src/app/sample-test-without-graphql.js:113 | when rendered, the comparison holds two different countries, exactly when 2 are selected |

## Left out

- Network access is not modelled: `fetch`, `res.json()`, promise rejection and the `useEffect` loading/error cells. The parsed REST response is a parameter instead.
- The Apollo Server, the Apollo Client with its cache, the GraphQL schema checking and the Next.js handler exports are not modelled. They are library wiring.
- `src/app/layout.js` is not modelled. It holds markup only.
- React rendering, the loading and error screens, CSS and JSX markup are not modelled. Only the conditions that choose what is shown are modelled.
- Locale-aware collation (`localeCompare`) is not modelled. The order used is plain character-code order.
- `toLocaleString` digit grouping is not modelled, and Unicode case mapping beyond ASCII is not modelled either.
- Floating-point `area` and `gdp` are integers here. Nothing in the code computes on them.
- The comparison table's capital cell (`src/app/page.js:111`) indexes `capital[0]` without a check. This throws for an empty capital array. The rendering error is not modelled.
- A response body that is not an array is not modelled. The API sends such a body with an error status. `countries` then throws a TypeError at `data.map` (`src/app/api/graphql/route.js:34`). `country` finds no `data[0]` and throws "Country not found" (`src/app/api/graphql/route.js:47`).
- The REST page's `search` cell (`countries_app/src/app/sample-test-without-graphql.js:13`) is a plain setter with no logic. It is a parameter of `Compare.FilterByName`.
- The country detail pages (`countries_app/src/app/country/[name]/`) are not part of this model.
