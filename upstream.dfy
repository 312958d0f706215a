/**
 * One element of the array the public REST country API returns, reduced to
 * the fields the resolvers and the list views read.
 */
module Upstream {
  import opened Wrappers

  /** The `name` object; only `name.common` is read. */
  datatype RawName = RawName(common: string)

  /** The `flags` object; only `flags.png` is read. */
  datatype RawFlags = RawFlags(png: string)

  /**
   * A raw country record. `capital` is None when the field is absent or null;
   * an empty array is `Some([])`. `area` is a number with a fraction upstream;
   * nothing computes on it, so it is kept as an opaque integer.
   */
  datatype RawCountry = RawCountry(
    name: RawName,
    capital: Option<seq<string>>,
    population: int,
    area: int,
    cca3: string,
    flags: RawFlags)
}
