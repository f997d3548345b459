/** Version 1's `App`: the catalog load state `(countries, isLoading, error)`
    and `fetchCountries`, which fetches the catalog once on mount and falls
    back to the bundled snapshot on any failure. The network is an input:
    `FetchOutcome` says what `fetch` and `res.json()` produced. The bundled
    snapshot (`localData`) is a parameter, since its contents are not part of
    this model. */
module AppLoad {
  import opened Wrappers
  import opened Country
  import Effects

  const BackupMessage := "API is down — showing local backup data."

  /** `fetch(url)` rejected, or resolved with a response whose `ok` flag and
      `status` are given; `json` is what `res.json()` resolved to, `None` when
      it rejected. */
  datatype FetchOutcome =
    | NetworkError
    | Response(ok: bool, status: int, json: Option<seq<CountryRecord>>)

  /** Why the `try` block threw. */
  datatype LoadError = FetchRejected | HttpError(status: int) | JsonRejected

  datatype LoadState = LoadState(countries: seq<CountryRecord>, isLoading: bool, error: Option<string>)

  /** The three `useState` initial values. */
  const Initial := LoadState([], true, None)

  /** The body of the `try` block: the parsed catalog, or what it threw. */
  function Attempt(o: FetchOutcome): (r: Result<seq<CountryRecord>, LoadError>)
    ensures r.Success? <==> o.Response? && o.ok && o.json.Some?
    ensures r.Success? ==> r.value == o.json.value
    ensures o.Response? && !o.ok ==> r == Failure(HttpError(o.status))
  {
    match o
    case NetworkError => Failure(FetchRejected)
    case Response(ok, status, json) =>
      if !ok then Failure(HttpError(status))
      else
        match json
        case None => Failure(JsonRejected)
        case Some(data) => Success(data)
  }

  /** The state committed before the request goes out: loading on, error cleared. */
  function StartLoad(s: LoadState): (r: LoadState)
    ensures r.isLoading && r.error.None?
    ensures r.countries == s.countries
  {
    s.(isLoading := true, error := None)
  }

  /** The `catch` and `finally` blocks once the request has settled. */
  function Settle(s: LoadState, o: FetchOutcome, localData: seq<CountryRecord>): (r: LoadState)
    ensures !r.isLoading
    ensures Attempt(o).Success? ==> r.countries == o.json.value && r.error == s.error
    ensures Attempt(o).Failure? ==> r.countries == localData && r.error == Some(BackupMessage)
  {
    match Attempt(o)
    case Success(data) => s.(countries := data, isLoading := false)
    case Failure(_) => s.(countries := localData, error := Some(BackupMessage), isLoading := false)
  }

  /** One run of `fetchCountries` from state `s`, to the state it settles in. */
  function FetchCountries(s: LoadState, o: FetchOutcome, localData: seq<CountryRecord>): (r: LoadState)
    ensures !r.isLoading
    ensures r.error.None? <==> o.Response? && o.ok && o.json.Some?
    ensures r.error.Some? ==> r.error.value == BackupMessage && r.countries == localData
    ensures r.error.None? ==> r.countries == o.json.value
  {
    Settle(StartLoad(s), o, localData)
  }

  /** What the page header shows: the loading line and the advisory (shown
      when `error` is truthy, that is non-null and non-empty). */
  datatype Banners = Banners(loading: bool, advisory: Option<string>)

  function BannersOf(s: LoadState): (b: Banners)
    ensures b.loading == s.isLoading
    ensures b.advisory.Some? <==> s.error.Some? && s.error.value != ""
    ensures b.advisory.Some? ==> b.advisory == s.error
  {
    Banners(s.isLoading, if s.error.Some? && s.error.value != "" then s.error else None)
  }

  /** Before the load settles the page shows only the loading line. */
  lemma InitialShowsLoading()
    ensures Initial.countries == []
    ensures BannersOf(Initial) == Banners(true, None)
    ensures BannersOf(StartLoad(Initial)) == Banners(true, None)
  {
  }

  /** A non-OK status is handled exactly like a rejected `fetch`: every failing
      outcome leads to the same state. */
  lemma FailuresAreIndistinguishable(s: LoadState, o1: FetchOutcome, o2: FetchOutcome, localData: seq<CountryRecord>)
    requires Attempt(o1).Failure? && Attempt(o2).Failure?
    ensures FetchCountries(s, o1, localData) == FetchCountries(s, o2, localData)
  {
  }

  /** After the mount-time load the loading line is gone, and the advisory is
      shown exactly when the bundled snapshot is in use. */
  lemma SettledBanners(o: FetchOutcome, localData: seq<CountryRecord>)
    ensures var r := FetchCountries(Initial, o, localData);
      && !BannersOf(r).loading
      && (BannersOf(r).advisory == Some(BackupMessage) <==> Attempt(o).Failure?)
      && (Attempt(o).Failure? ==> r.countries == localData)
      && (Attempt(o).Success? ==> r.countries == o.json.value && BannersOf(r).advisory.None?)
  {
  }

  /** The effect has an empty dependency array, so however many times `App`
      re-renders, the catalog is requested once. */
  lemma FetchesOnceOnMount(commits: nat)
    requires commits > 0
    ensures Effects.RunCount(Effects.EmptyDeps(commits)) == 1
  {
    Effects.UnchangingDepsRunOnce(Effects.EmptyDeps(commits));
  }
}
