/** The country record as the REST Countries catalog (and the bundled
    snapshot) delivers it, and the requests the pages send to the backend. */
module Country {
  import opened Wrappers

  datatype Name = Name(common: string)

  /** `flags.png` is the image, `flags.alt` the catalog's own alt text. */
  datatype Flags = Flags(png: Option<string>, alt: Option<string>)

  /** One element of the catalog. `name.common` is always present; the
      three-letter code `cca3`, the capitals and the flags may be missing. */
  datatype CountryRecord = CountryRecord(
    name: Name,
    cca3: Option<string>,
    population: int,
    capital: Option<seq<string>>,
    region: string,
    flags: Option<Flags>)

  datatype Verb = GET | POST

  /** A JSON request body: none, or `{country_name}`. */
  datatype Body = NoBody | CountryNameBody(country_name: string)

  datatype Request = Request(verb: Verb, path: string, body: Body)
}
