/**
 * The list page that reads the REST API directly: countries sorted by common
 * name, a name-only search, and a selection of at most two countries that,
 * once complete, shows a side-by-side comparison.
 *
 * The source tests selection membership by object identity (`includes`,
 * `!==`); each upstream record is a distinct object, modelled here as value
 * equality of records.
 */
module Compare {
  import opened Wrappers
  import opened Text
  import opened Seqs
  import opened Sorting
  import opened Upstream

  function CommonName(c: RawCountry): string { c.name.common }

  /** The list as loaded: `data.sort((a, b) => a.name.common.localeCompare(b.name.common))`. */
  function LoadedCountries(data: seq<RawCountry>): (r: seq<RawCountry>)
    ensures multiset(r) == multiset(data)
    ensures SortedBy(r, CommonName)
  {
    SortBy(data, CommonName)
  }

  // -------------------------------------------------------------- filtering

  /** The search test of this page: the common name only, ignoring case. */
  predicate NameMatches(search: string, c: RawCountry)
  {
    ContainsIgnoringCase(c.name.common, search)
  }

  function NameMatchesQuery(search: string): RawCountry -> bool
  {
    (c: RawCountry) => NameMatches(search, c)
  }

  /** `countries.filter(country => country.name.common.toLowerCase().includes(search.toLowerCase()))`. */
  function FilterByName(countries: seq<RawCountry>, search: string): (r: seq<RawCountry>)
    ensures |r| <= |countries|
    ensures forall i :: 0 <= i < |r| ==> NameMatches(search, r[i])
  {
    Keep(countries, NameMatchesQuery(search))
  }

  /**
   * The name filter keeps exactly the countries whose lower-cased common name
   * contains the lower-cased search, in their original order.
   */
  lemma FilterByNameExact(countries: seq<RawCountry>, search: string)
    ensures IsSubseq(FilterByName(countries, search), countries)
    ensures forall c :: c in FilterByName(countries, search) <==> c in countries && NameMatches(search, c)
  {
    KeepIsSubseq(countries, NameMatchesQuery(search));
    forall c
      ensures c in FilterByName(countries, search) <==> c in countries && NameMatches(search, c)
    {
      KeepMembers(countries, NameMatchesQuery(search), c);
    }
  }

  // -------------------------------------------------------------- selection

  /** The largest selection the toggle builds up. */
  const MaxSelected: nat := 2

  /** The selection invariant: at most two countries, none twice. */
  predicate ValidSelection(selected: seq<RawCountry>)
  {
    |selected| <= MaxSelected && NoDup(selected)
  }

  function Other(country: RawCountry): RawCountry -> bool
  {
    (c: RawCountry) => c != country
  }

  /**
   * The functional update `toggleCountrySelection` passes to
   * `setSelectedCountries`: remove the country if it is selected, append it
   * if fewer than two are selected, and otherwise keep the selection.
   */
  function Toggled(selected: seq<RawCountry>, country: RawCountry): seq<RawCountry>
  {
    if country in selected then Keep(selected, Other(country))
    else if |selected| < MaxSelected then selected + [country]
    else selected
  }

  /** Deselecting removes exactly that country and leaves the others in order. */
  lemma ToggleRemoves(selected: seq<RawCountry>, i: int)
    requires NoDup(selected) && 0 <= i < |selected|
    ensures Toggled(selected, selected[i]) == selected[..i] + selected[i + 1..]
  {
    var c := selected[i];
    assert forall k :: 0 <= k < |selected| && k != i ==> Other(c)(selected[k]) by {
      forall k | 0 <= k < |selected| && k != i
        ensures selected[k] != c
      {
        if k < i {
          assert selected[k] != selected[i];
        } else {
          assert selected[i] != selected[k];
        }
      }
    }
    KeepDropsOne(selected, Other(c), i);
  }

  /** An unselected country is appended when there is room, and ignored when there is not. */
  lemma ToggleAdds(selected: seq<RawCountry>, country: RawCountry)
    requires country !in selected
    ensures |selected| < MaxSelected ==> Toggled(selected, country) == selected + [country]
    ensures |selected| >= MaxSelected ==> Toggled(selected, country) == selected
    ensures country in Toggled(selected, country) <==> |selected| < MaxSelected
  {
  }

  /** The toggle preserves the selection invariant. */
  lemma ToggleKeepsValid(selected: seq<RawCountry>, country: RawCountry)
    requires ValidSelection(selected)
    ensures ValidSelection(Toggled(selected, country))
  {
    if country in selected {
      KeepNoDup(selected, Other(country));
    } else if |selected| < MaxSelected {
      var r := selected + [country];
      forall i, j | 0 <= i < j < |r|
        ensures r[i] != r[j]
      {
        if j == |selected| {
          assert r[i] == selected[i];
        }
      }
    }
  }

  /** Selecting an unselected country and then deselecting it restores the selection. */
  lemma {:induction false} ToggleTwiceRestores(selected: seq<RawCountry>, country: RawCountry)
    requires country !in selected && |selected| < MaxSelected
    ensures Toggled(Toggled(selected, country), country) == selected
  {
    var r := selected + [country];
    assert Toggled(selected, country) == r;
    assert country in r;
    KeepAppend(selected, [country], Other(country));
    KeepAll(selected, Other(country));
  }

  /** `selectedCountries.length === 2`: the comparison table and the pair it shows. */
  function Comparison(selected: seq<RawCountry>): (r: Option<(RawCountry, RawCountry)>)
    ensures r.Some? <==> |selected| == MaxSelected
    ensures r.Some? ==> r.value.0 == selected[0] && r.value.1 == selected[1]
  {
    if |selected| == MaxSelected then Some((selected[0], selected[1])) else None
  }

  /**
   * From an empty selection: select a, select b, try c, deselect a. The
   * comparison appears after b, survives the ignored c, and goes with a.
   */
  lemma SelectionWalkthrough(a: RawCountry, b: RawCountry, c: RawCountry)
    requires a != b && b != c && a != c
    ensures Toggled([], a) == [a]
    ensures Toggled([a], b) == [a, b]
    ensures Toggled([a, b], c) == [a, b]
    ensures Toggled([a, b], a) == [b]
    ensures Comparison([a]).None? && Comparison([a, b]) == Some((a, b)) && Comparison([b]).None?
  {
    ToggleAdds([], a);
    ToggleAdds([a], b);
    ToggleAdds([a, b], c);
    ToggleRemoves([a, b], 0);
    assert [a, b][1..] == [b];
  }

  /** The `selectedCountries` state cell. */
  class Selection {
    var selected: seq<RawCountry>

    ghost predicate Valid()
      reads this
    {
      ValidSelection(selected)
    }

    constructor ()
      ensures selected == [] && Valid()
    {
      selected := [];
    }

    /** `toggleCountrySelection(country)`. */
    method Toggle(country: RawCountry)
      requires Valid()
      modifies this
      ensures selected == Toggled(old(selected), country)
      ensures country in old(selected) ==> country !in selected && |selected| == |old(selected)| - 1
      ensures country !in old(selected) && |old(selected)| < MaxSelected ==> selected == old(selected) + [country]
      ensures country !in old(selected) && |old(selected)| >= MaxSelected ==> selected == old(selected)
      ensures Valid()
    {
      ToggleKeepsValid(selected, country);
      if country in selected {
        var i :| 0 <= i < |selected| && selected[i] == country;
        ToggleRemoves(selected, i);
        KeepMembers(selected, Other(country), country);
        selected := Keep(selected, Other(country));
      } else if |selected| < MaxSelected {
        selected := selected + [country];
      }
    }

    /** The pair shown side by side, if the comparison is rendered. */
    function Compared(): (r: Option<(RawCountry, RawCountry)>)
      reads this
      requires Valid()
      ensures r.Some? ==> r.value.0 != r.value.1
      ensures r.Some? <==> |selected| == MaxSelected
    {
      Comparison(selected)
    }
  }
}
