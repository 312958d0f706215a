/**
 * The two GraphQL resolvers of the server (`countries` and `country(code)`).
 * The REST response they fetch is a parameter: what `/v3.1/all` or
 * `/v3.1/alpha/{code}` returned, already parsed.
 */
module Gateway {
  import opened Wrappers
  import opened Upstream

  /** The GraphQL `Country` type; `capital` and `gdp` are nullable in the schema. */
  datatype Country = Country(
    name: string,
    capital: Option<seq<string>>,
    population: int,
    area: int,
    cca3: string,
    flag: string,
    gdp: Option<int>)

  /** Substituted for an absent capital. */
  const CapitalPlaceholder: seq<string> := ["N/A"]

  /** The message of the error `country(code)` throws on an empty response. */
  const NotFoundMessage: string := "Country not found"

  /**
   * `country.capital || ["N/A"]`: only an absent or null capital is replaced;
   * every array, the empty one included, is truthy and passes through.
   */
  function CapitalOrPlaceholder(capital: Option<seq<string>>): seq<string>
  {
    match capital
    case None => CapitalPlaceholder
    case Some(names) => names
  }

  /** The object literal both resolvers build from one raw record. */
  function ToCountry(raw: RawCountry): Country
  {
    Country(
      name := raw.name.common,
      capital := Some(CapitalOrPlaceholder(raw.capital)),
      population := raw.population,
      area := raw.area,
      cca3 := raw.cca3,
      flag := raw.flags.png,
      gdp := None)
  }

  /** The `countries` resolver: `data.map(...)` over the upstream array. */
  function Countries(data: seq<RawCountry>): (r: seq<Country>)
    ensures |r| == |data|
  {
    seq(|data|, i requires 0 <= i < |data| => ToCountry(data[i]))
  }

  /**
   * The `country(code)` resolver: throws "Country not found" when the
   * response has no first element, and maps that element otherwise.
   */
  function CountryByCode(data: seq<RawCountry>): (r: Result<Country, string>)
    ensures r.Err? <==> |data| == 0
    ensures r.Err? ==> r.error == NotFoundMessage
    ensures r.Ok? ==> r.value == Countries(data)[0]
  {
    if |data| == 0 then Err(NotFoundMessage) else Ok(ToCountry(data[0]))
  }

  /**
   * `countries` keeps length and order: position i of the result is record i
   * of the upstream array, projected field by field.
   */
  lemma CountriesProjection(data: seq<RawCountry>, i: int)
    requires 0 <= i < |data|
    ensures |Countries(data)| == |data|
    ensures var c, raw := Countries(data)[i], data[i];
      c.name == raw.name.common && c.population == raw.population && c.area == raw.area
      && c.cca3 == raw.cca3 && c.flag == raw.flags.png
  {
  }

  /**
   * The capital of a mapped record is never null; it is the upstream capital
   * whenever there is one, an empty array included, and the placeholder only
   * when there is none.
   */
  lemma CapitalFallback(raw: RawCountry)
    ensures ToCountry(raw).capital.Some?
    ensures raw.capital.Some? ==> ToCountry(raw).capital.value == raw.capital.value
    ensures raw.capital.None? ==> ToCountry(raw).capital.value == CapitalPlaceholder
    ensures ToCountry(raw).capital.value == [] <==> raw.capital == Some([])
  {
  }

  /** Neither resolver ever yields a GDP. */
  lemma GdpAlwaysNull(data: seq<RawCountry>)
    ensures forall c :: c in Countries(data) ==> c.gdp.None?
    ensures CountryByCode(data).Ok? ==> CountryByCode(data).value.gdp.None?
  {
  }

  /**
   * The resolvers agree: a successful `country(code)` is the `countries`
   * mapping of the first record of its own response, and that record keeps
   * the upstream code.
   */
  lemma CountryAgreesWithCountries(data: seq<RawCountry>)
    requires |data| > 0
    ensures CountryByCode(data) == Ok(Countries(data)[0])
    ensures CountryByCode(data).value.cca3 == data[0].cca3
  {
  }
}
