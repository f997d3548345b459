/** Version 2's saved-countries page: the profile form's state, the two reads
    issued on mount (newest user, saved countries), and the reconciliation of
    saved names against the catalog. The form's submit only logs and resets;
    it sends nothing. */
module SavedCountries {
  import opened Wrappers
  import opened Country
  import Search
  import Effects

  const NewestUserPath := "/api/get-newest-user"
  const SavedCountriesPath := "/api/get-all-saved-countries"

  // ---- Profile form ----

  /** The `name` attributes of the form's four controls. */
  datatype Field = FullName | Email | CountryField | Bio

  datatype ProfileForm = ProfileForm(fullName: string, email: string, country: string, bio: string)

  const EmptyForm := ProfileForm("", "", "", "")

  function FieldValue(f: ProfileForm, field: Field): string {
    match field
    case FullName => f.fullName
    case Email => f.email
    case CountryField => f.country
    case Bio => f.bio
  }

  /** `handleInputChange`: `{...formData, [name]: value}`. */
  function InputChange(f: ProfileForm, field: Field, value: string): (r: ProfileForm)
    ensures FieldValue(r, field) == value
    ensures forall other :: other != field ==> FieldValue(r, other) == FieldValue(f, other)
  {
    match field
    case FullName => f.(fullName := value)
    case Email => f.(email := value)
    case CountryField => f.(country := value)
    case Bio => f.(bio := value)
  }

  /** What a submit does: the form it leaves, what it logs, the requests it sends. */
  datatype SubmitEffect = SubmitEffect(form: ProfileForm, logged: ProfileForm, sent: seq<Request>)

  /** `handleSubmit`. */
  function Submit(f: ProfileForm): (r: SubmitEffect)
    ensures forall field :: FieldValue(r.form, field) == ""
    ensures r.logged == f
    ensures r.sent == []
  {
    SubmitEffect(EmptyForm, f, [])
  }

  /** Whatever was typed, a submit leaves the same empty form. */
  lemma SubmitForgetsInput(f: ProfileForm, g: ProfileForm)
    ensures Submit(f).form == Submit(g).form == EmptyForm
  {
  }

  /** Two edits to different fields commute. */
  lemma EditsToDifferentFieldsCommute(f: ProfileForm, a: Field, x: string, b: Field, y: string)
    requires a != b
    ensures InputChange(InputChange(f, a, x), b, y) == InputChange(InputChange(f, b, y), a, x)
  {
  }

  // ---- Reads on mount ----

  /** The newest-user record; the page reads only its `name`. */
  datatype User = User(name: string)

  datatype SavedEntry = SavedEntry(country_name: string)

  /** The parsed body of the saved-countries read as the page stores it: an
      array of entries, or any other JSON value (an error object, `null`, a
      string), which `setSavedCountries` stores all the same. */
  datatype SavedBody = Entries(entries: seq<SavedEntry>) | NotAList

  /** How a read settled: rejected (caught and logged), or the parsed body. */
  datatype Reply<T> = Rejected | Parsed(data: T)

  /** `newestUserData` (`None` for `null` and for the `undefined` that
      `data[0]` gives on an empty array: both are falsy) and `savedCountries`. */
  datatype PageState = PageState(form: ProfileForm, newestUser: Option<User>, saved: SavedBody)

  const Initial := PageState(EmptyForm, None, Entries([]))

  /** `getNewestUserData` settling: the first element of the response. */
  function ApplyNewestUser(s: PageState, reply: Reply<seq<User>>): (r: PageState)
    ensures r.form == s.form && r.saved == s.saved
    ensures reply.Rejected? ==> r.newestUser == s.newestUser
    ensures reply.Parsed? ==> (r.newestUser.Some? <==> |reply.data| > 0)
    ensures reply.Parsed? && |reply.data| > 0 ==> r.newestUser == Some(reply.data[0])
  {
    match reply
    case Rejected => s
    case Parsed(users) => s.(newestUser := if |users| > 0 then Some(users[0]) else None)
  }

  /** `getSavedCountries` settling. */
  function ApplySavedCountries(s: PageState, reply: Reply<SavedBody>): (r: PageState)
    ensures r.form == s.form && r.newestUser == s.newestUser
    ensures reply.Rejected? ==> r.saved == s.saved
    ensures reply.Parsed? ==> r.saved == reply.data
  {
    match reply
    case Rejected => s
    case Parsed(body) => s.(saved := body)
  }

  /** `newestUserData && <h2>Welcome, {newestUserData.name}!</h2>`. */
  function Greeting(s: PageState): (g: Option<string>)
    ensures g.Some? <==> s.newestUser.Some?
    ensures g.Some? ==> g.value == "Welcome, " + s.newestUser.value.name + "!"
  {
    match s.newestUser
    case None => None
    case Some(u) => Some("Welcome, " + u.name + "!")
  }

  /** The two reads are independent: they may settle in either order with the
      same result. */
  lemma ReadsCommute(s: PageState, users: Reply<seq<User>>, entries: Reply<SavedBody>)
    ensures ApplySavedCountries(ApplyNewestUser(s, users), entries)
         == ApplyNewestUser(ApplySavedCountries(s, entries), users)
  {
  }

  /** A failed read leaves its part of the state at its initial value. */
  lemma FailedReadsKeepInitial(users: Reply<seq<User>>, entries: Reply<SavedBody>)
    ensures users.Rejected? ==> ApplySavedCountries(ApplyNewestUser(Initial, users), entries).newestUser.None?
    ensures entries.Rejected? ==> ApplySavedCountries(ApplyNewestUser(Initial, users), entries).saved == Entries([])
    ensures users.Rejected? ==> Greeting(ApplySavedCountries(ApplyNewestUser(Initial, users), entries)).None?
  {
  }

  /** The greeting names the first user of the response. */
  lemma GreetingNamesFirstUser(s: PageState, users: seq<User>)
    requires |users| > 0
    ensures Greeting(ApplyNewestUser(s, Parsed(users))) == Some("Welcome, " + users[0].name + "!")
  {
  }

  /** The two reads the mount effect issues each time it runs. */
  const MountReads := [Request(GET, NewestUserPath, NoBody), Request(GET, SavedCountriesPath, NoBody)]

  function Repeat(xs: seq<Request>, n: nat): seq<Request> {
    if n == 0 then [] else xs + Repeat(xs, n - 1)
  }

  /** The requests the mount effect sends over `commits` commits: it has an
      empty dependency array, so the two reads go out once. */
  function MountRequests(commits: nat): (sent: seq<Request>)
    requires commits > 0
    ensures sent == [Request(GET, NewestUserPath, NoBody), Request(GET, SavedCountriesPath, NoBody)]
  {
    Effects.UnchangingDepsRunOnce(Effects.EmptyDeps(commits));
    assert Repeat(MountReads, 1) == MountReads + [];
    Repeat(MountReads, Effects.RunCount(Effects.EmptyDeps(commits)))
  }

  // ---- Reconciliation ----

  /** A card on this page: keyed by `matchedCountry.name.common`. */
  datatype SavedCard = SavedCard(key: string, country: CountryRecord)

  /** Reading `matchedCountry.name` when `find` returned `undefined` throws,
      and the whole page fails to render. */
  datatype RenderError = NoMatch(country_name: string) | NotAnArray

  ghost predicate HasName(catalog: seq<CountryRecord>, name: string) {
    exists i :: 0 <= i < |catalog| && catalog[i].name.common == name
  }

  ghost predicate IsFirstNamed(catalog: seq<CountryRecord>, name: string, i: int) {
    && 0 <= i < |catalog|
    && catalog[i].name.common == name
    && forall j :: 0 <= j < i ==> catalog[j].name.common != name
  }

  function FindByName(catalog: seq<CountryRecord>, name: string): (r: Option<CountryRecord>)
    ensures r.None? <==> !HasName(catalog, name)
    ensures r.Some? ==> exists i :: IsFirstNamed(catalog, name, i) && catalog[i] == r.value
  {
    var p := (c: CountryRecord) => c.name.common == name;
    var found := Search.Find(catalog, p);
    assert found.Some? ==> exists i :: Search.IsFirst(catalog, p, i) && catalog[i] == found.value;
    found
  }

  /** `card` is what the page renders for `entry`: keyed by the saved name,
      showing the first catalog record of that name. */
  ghost predicate CardFor(catalog: seq<CountryRecord>, entry: SavedEntry, card: SavedCard) {
    && card.key == entry.country_name
    && exists k :: IsFirstNamed(catalog, entry.country_name, k) && catalog[k] == card.country
  }

  /** Every saved name occurs in the catalog. */
  ghost predicate AllNamed(catalog: seq<CountryRecord>, saved: seq<SavedEntry>) {
    forall i :: 0 <= i < |saved| ==> HasName(catalog, saved[i].country_name)
  }

  lemma AllNamedStep(catalog: seq<CountryRecord>, saved: seq<SavedEntry>)
    requires |saved| > 0
    ensures AllNamed(catalog, saved) <==> HasName(catalog, saved[0].country_name) && AllNamed(catalog, saved[1..])
  {
    assert forall j :: 1 <= j < |saved| ==> saved[j] == saved[1..][j - 1];
  }

  /** Entry `i` is the first saved entry whose name the catalog lacks. */
  ghost predicate IsFirstUnmatched(catalog: seq<CountryRecord>, saved: seq<SavedEntry>, i: int) {
    && 0 <= i < |saved|
    && !HasName(catalog, saved[i].country_name)
    && forall j :: 0 <= j < i ==> HasName(catalog, saved[j].country_name)
  }

  /** `savedCountries.map(...)`: one card per saved entry, in server order;
      the first entry whose name the catalog lacks throws. */
  function Reconcile(catalog: seq<CountryRecord>, saved: seq<SavedEntry>): (r: Result<seq<SavedCard>, RenderError>)
    ensures r.Success? <==> AllNamed(catalog, saved)
    ensures r.Success? ==> |r.value| == |saved|
  {
    if |saved| == 0 then Success([])
    else
      AllNamedStep(catalog, saved);
      match FindByName(catalog, saved[0].country_name)
      case None => Failure(NoMatch(saved[0].country_name))
      case Some(c) =>
        match Reconcile(catalog, saved[1..])
        case Failure(e) => Failure(e)
        case Success(rest) => Success([SavedCard(c.name.common, c)] + rest)
  }

  /** Each card is keyed by its saved name and shows the first catalog record
      of that name. */
  lemma {:induction false} ReconcileCards(catalog: seq<CountryRecord>, saved: seq<SavedEntry>)
    requires Reconcile(catalog, saved).Success?
    ensures forall i :: 0 <= i < |saved| ==> CardFor(catalog, saved[i], Reconcile(catalog, saved).value[i])
  {
    if |saved| > 0 {
      ReconcileCards(catalog, saved[1..]);
      var c := FindByName(catalog, saved[0].country_name).value;
      var rest := Reconcile(catalog, saved[1..]).value;
      var cards := Reconcile(catalog, saved).value;
      assert cards == [SavedCard(c.name.common, c)] + rest;
      forall i | 0 <= i < |saved| ensures CardFor(catalog, saved[i], cards[i]) {
        if i > 0 {
          assert saved[i] == saved[1..][i - 1] && cards[i] == rest[i - 1];
        }
      }
    }
  }

  /** A failing reconciliation fails on the first saved name the catalog lacks,
      in server order. */
  lemma {:induction false} ReconcileFailsAtFirstMissing(catalog: seq<CountryRecord>, saved: seq<SavedEntry>)
    requires Reconcile(catalog, saved).Failure?
    ensures exists i :: IsFirstUnmatched(catalog, saved, i) && Reconcile(catalog, saved).error == NoMatch(saved[i].country_name)
  {
    var e := Reconcile(catalog, saved).error;
    if FindByName(catalog, saved[0].country_name).None? {
      assert IsFirstUnmatched(catalog, saved, 0);
    } else {
      ReconcileFailsAtFirstMissing(catalog, saved[1..]);
      var i :| IsFirstUnmatched(catalog, saved[1..], i) && e == NoMatch(saved[1..][i].country_name);
      assert IsFirstUnmatched(catalog, saved, i + 1) by {
        forall j | 1 <= j <= i ensures saved[j] == saved[1..][j - 1] { }
      }
    }
  }

  /** Saving a country from the detail page and reading it back gives a card
      of that name; it is that very record only when no earlier catalog record
      shares its common name. */
  lemma SaveThenReconcile(catalog: seq<CountryRecord>, i: int)
    requires 0 <= i < |catalog|
    ensures var r := Reconcile(catalog, [SavedEntry(catalog[i].name.common)]);
      && r.Success? && |r.value| == 1
      && r.value[0].country.name.common == catalog[i].name.common
      && (r.value[0].country == catalog[i] <== IsFirstNamed(catalog, catalog[i].name.common, i))
  {
  }

  /** A saved name missing from the catalog is not skipped: the page fails,
      even when other saved names match. */
  lemma UnmatchedNameFails(canada: CountryRecord)
    requires canada.name.common == "Canada"
    ensures Reconcile([canada], [SavedEntry("Canada"), SavedEntry("Nowhereland")]) == Failure(NoMatch("Nowhereland"))
  {
  }

  /** The saved-list column: `savedCountries.map(...)` throws when the stored
      body is not an array, and otherwise reconciles it against the catalog. */
  function SavedList(catalog: seq<CountryRecord>, s: PageState): (r: Result<seq<SavedCard>, RenderError>)
    ensures r.Success? <==> s.saved.Entries? && AllNamed(catalog, s.saved.entries)
    ensures r.Success? ==> |r.value| == |s.saved.entries|
    ensures s.saved.NotAList? ==> r == Failure(NotAnArray)
  {
    match s.saved
    case NotAList => Failure(NotAnArray)
    case Entries(entries) => Reconcile(catalog, entries)
  }

  /** Before the read settles, and whenever it is rejected, the column is
      empty; a body that is not an array takes the page down whatever the
      catalog holds. */
  lemma SavedListOutcomes(catalog: seq<CountryRecord>, s: PageState)
    ensures SavedList(catalog, Initial) == Success([])
    ensures SavedList(catalog, ApplySavedCountries(s, Parsed(NotAList))) == Failure(NotAnArray)
    ensures SavedList(catalog, ApplySavedCountries(Initial, Rejected)) == Success([])
  {
  }
}
