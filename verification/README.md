# Countries app: catalog, detail and saved-countries logic in Dafny

This project models the decision logic of a React country-browsing app.
Most of the app is page markup. The logic modelled here is:

- the catalog load in version 1's `App`: the state `(countries, isLoading, error)`, one fetch on mount, and a fallback to the bundled snapshot on any failure;
- the Home pages of versions 0 and 1: a sorted copy of the catalog, ordered by `name.common`, with one card per record and a React key for each card;
- version 2's detail page:
  - the lookup of the record by its `cca3` code;
  - the loading placeholder;
  - the `viewCount` state and the views row;
  - the save and count requests;
  - the capital and flag-alt fallbacks;
- version 2's saved-countries page:
  - the profile form state;
  - the two reads issued on mount;
  - the reconciliation of saved names against the catalog.

Everything is pure functions over immutable datatypes:

- Network replies are inputs: `FetchOutcome`, `CountReply` and `Reply<T>` say what `fetch` and `response.json()` produced.
- The bundled `localData` snapshot is a parameter.
- `localeCompare` is an abstract `Collator` parameter. All the model assumes is that "collates no later than" (`collate(a, b) <= 0`) is total and transitive, and that swapping the arguments flips the sign of the answer.
- React's rule for effects with a dependency array is modelled in `Effects`. An effect runs after the first commit, and again whenever the dependency array changes.

Modules, one per source file or shared concern:

- `Wrappers`: `Option` for `null`/`undefined` and `??`, and `Result` for code that throws.
- `Search`: `find`, `findIndex` and `map`, plus a lemma that mapping preserves permutations.
- `Country`: the catalog record and the backend request shapes.
- `Effects`: the dependency-array rule.
- `AppLoad`: `version-1/src/App.jsx`.
- `CatalogView` and `Home`: the two `Home.jsx` files.
- `CountryDetail`: `version-2/src/pages/CountryDetail.jsx`.
- `SavedCountries`: `version-2/src/pages/SavedCountries.jsx`.

`Array.prototype.sort` is stable, so the sorted copy is the only ordering that is both sorted by name and keeps equal names in input order. `CatalogView.SortByName` is an insertion sort. `CatalogView.StableSortIsSortByName` proves that any stable sort of the catalog returns exactly its result, so the model does not depend on the engine's sorting algorithm.

The model follows the code, including these behaviours:

- A saved name with no catalog record is not dropped. Reading `matchedCountry.name` throws and the page fails to render. `Reconcile` returns `Failure(NoMatch(name))` for the first such entry, in server order.
- A saved-countries body that is not an array is stored as is, and the next render throws at `.map` (`SavedList` returns `Failure(NotAnArray)`).
- A count reply of `{count: null}` sets `viewCount` to `null` and hides the views row; a reply without a `count` field sets it to `undefined`, which shows the row.
- There is no guard against stale view-count replies. The last reply to settle sets the count, even when it answered a country the user has left (`StaleReplyOverwritesCount`).
- Submitting the profile form sends no request. It logs the form and resets it.
- The detail page's lookup miss always shows the loading placeholder. There is no separate not-found state.

## Model

| member | source | states |
|---|---|---|
| AppLoad.Attempt | version-1/src/App.jsx:51-59 | the `try` block succeeds exactly when the response is OK and its JSON parsed, yielding that payload; a non-OK status fails with that status whatever the body |
| AppLoad.StartLoad | version-1/src/App.jsx:43-44 | starting a load turns loading on and clears the error, leaving the countries as they were |
| AppLoad.Settle | version-1/src/App.jsx:59-70 | after settling, loading is off; on success the countries are the payload and the error is untouched; on failure they are the bundled snapshot and the error is the fixed backup message |
| AppLoad.FetchCountries | version-1/src/App.jsx:40-71 | one full load ends with loading off, no error exactly when the response was OK and parsed, the payload on success and the snapshot with the backup message otherwise |
| AppLoad.BannersOf | version-1/src/App.jsx:107-108 | the loading line shows exactly while loading; the advisory shows exactly when the error is a non-empty string, and shows that error text |
| AppLoad.InitialShowsLoading | version-1/src/App.jsx:30-36 | the initial state has no countries, shows the loading line and no advisory, and starting the load keeps it that way |
| AppLoad.FailuresAreIndistinguishable | version-1/src/App.jsx:54-66 | a non-OK status, a rejected fetch and unparseable JSON all end in the same state |
| AppLoad.SettledBanners | version-1/src/App.jsx:63-70 | after the mount-time load the loading line is gone and the backup advisory shows if and only if the load failed, with the snapshot as the catalog |
| AppLoad.FetchesOnceOnMount | version-1/src/App.jsx:75-77 | with an empty dependency array the catalog is fetched once however many times the app re-renders |
| Effects.UnchangingDepsRunOnce | version-2/src/pages/SavedCountries.jsx:91-94 | an effect whose dependency array never changes runs exactly once over any non-empty run of commits |
| Effects.ChangedDepsRunAgain | version-2/src/pages/CountryDetail.jsx:94-96 | a commit whose dependency array differs from the previous one runs the effect once more |
| CatalogView.SortPermutes | version-1/src/pages/Home.jsx:17-19 | the sorted copy holds the same records, with the same multiplicities, as the input |
| CatalogView.SortSorts | version-1/src/pages/Home.jsx:17-19 | the sorted copy is ordered by common name under the collation (every earlier record collates no later than every later one) |
| CatalogView.SortIsStable | version-0/src/pages/Home.jsx:14-16 | records whose names collate as equal keep their input order |
| CatalogView.StableOrderIsUnique | version-0/src/pages/Home.jsx:14-16 | two sorted sequences that order every group of equal names the same way are identical |
| CatalogView.StableSortIsSortByName | version-1/src/pages/Home.jsx:17-19 | any stable sort by name, as `Array.prototype.sort` is, returns exactly the modelled sorted copy |
| CatalogView.SortIdempotent | version-1/src/pages/Home.jsx:17-19 | sorting an already sorted catalog returns it unchanged |
| CatalogView.CanadaBeforeZambia | version-1/src/pages/Home.jsx:17-19 | when the collation puts "Zambia" after "Canada", sorting `[Zambia, Canada]` places Canada first |
| CatalogView.InsertSorted | version-1/src/pages/Home.jsx:17-19 | inserting a record into a sorted sequence keeps it sorted |
| CatalogView.InsertPermutes | version-1/src/pages/Home.jsx:17-19 | inserting adds exactly that one record |
| CatalogView.InsertKeepsTies | version-0/src/pages/Home.jsx:14-16 | an inserted record lands ahead of every record it ties with, as a stable sort places the earlier input |
| Home.SortedCountries | version-1/src/pages/Home.jsx:14-19 | the copy is a sorted, stable permutation of the caller's array, which the method cannot modify |
| Home.HomeV0 | version-0/src/pages/Home.jsx:51-58 | version 0 renders one card per record, the shown records a sorted permutation of the catalog, each card keyed by its record's code or, when the code is missing, its common name |
| Home.HomeV1 | version-1/src/pages/Home.jsx:56-68 | version 1 renders one card per record, the shown records a sorted permutation of the catalog, each card keyed by its record's code (undefined exactly when the record has none) |
| Home.HomeV1KeysAreCodes | version-1/src/pages/Home.jsx:65 | the multiset of version 1's keys is the multiset of the catalog's codes |
| Home.HomeV1KeysValidIffCodesDistinct | version-1/src/pages/Home.jsx:58-65 | version 1's keys are all defined and distinct if and only if every record has a code and no two share one |
| Home.HomeV0KeysAreFallbackKeys | version-0/src/pages/Home.jsx:53-55 | the multiset of version 0's keys is the multiset of each record's code, or its name when the code is missing |
| Home.VersionsAgreeWhenCodesPresent | version-0/src/pages/Home.jsx:55 | when every record has a code, versions 0 and 1 render identical grids |
| Home.MissingCodeKeys | version-0/src/pages/Home.jsx:55 | a record without a code gets an undefined key in version 1 and its common name in version 0 |
| CountryDetail.Lookup | version-2/src/pages/CountryDetail.jsx:25-29 | the lookup finds nothing when the catalog is undefined or no record has the URL code, and otherwise returns the first record with that code |
| CountryDetail.CanadaDetail | version-2/src/pages/CountryDetail.jsx:29-178 | for a catalog holding only Canada (code CAN, capital Ottawa), the CAN page shows Canada, "Canada flag", Ottawa, its region, no views row, and a save request for Canada |
| CountryDetail.DuplicateCodeFirstWins | version-2/src/pages/CountryDetail.jsx:29 | with two records sharing a code, the first is shown |
| CountryDetail.RequestsKeyedByName | version-2/src/pages/CountryDetail.jsx:58-91 | save and count requests carry `{country_name: name.common}`; two records give the same request exactly when their common names agree |
| CountryDetail.CapitalText | version-2/src/pages/CountryDetail.jsx:175-178 | the first listed capital when there is one, "N/A" when the list is missing or empty |
| CountryDetail.FlagAlt | version-2/src/pages/CountryDetail.jsx:141 | the catalog's alt text when present, otherwise "<common name> flag" |
| CountryDetail.EmptyAltIsKept | version-2/src/pages/CountryDetail.jsx:141 | an empty alt text is kept, since `??` only replaces a missing value |
| CountryDetail.ApplyReply | version-2/src/pages/CountryDetail.jsx:89-90 | a reply sets `viewCount` to its count: a number, `null` for `{count: null}`, undefined when the field is missing; a rejection leaves it alone |
| CountryDetail.NullCountHidesRow | version-2/src/pages/CountryDetail.jsx:89-109 | a `null` count hides the views row, while a missing count shows it with `undefined` |
| CountryDetail.ViewsRow | version-2/src/pages/CountryDetail.jsx:98-113 | the views row is rendered exactly when `viewCount` is not null, showing that value |
| CountryDetail.Render | version-2/src/pages/CountryDetail.jsx:34-52 | the page is the loading placeholder (no Save button, no views row) exactly when the lookup misses; otherwise it shows the record with that code, its flag alt text, capital and region with their fallbacks, its save request, and a views row exactly when `viewCount` is non-null |
| CountryDetail.Step | version-2/src/pages/CountryDetail.jsx:93-96 | a render that misses sends nothing and keeps the recorded dependencies; one that finds a record records `[countryCode]` as the dependencies and sends a count request for it only when the code changed; a reply sets the count and changes nothing else; renders never reset the count |
| CountryDetail.RequestsOnlyForFoundRecords | version-2/src/pages/CountryDetail.jsx:36-96 | every count request sent names a record some render actually found |
| CountryDetail.NoReplyNoCount | version-2/src/pages/CountryDetail.jsx:32 | until a reply settles `viewCount` stays null |
| CountryDetail.RendersKeepCount | version-2/src/pages/CountryDetail.jsx:32 | renders, including navigation to another country, never reset `viewCount`, so the previous country's count stays until a reply arrives |
| CountryDetail.LastReplyWins | version-2/src/pages/CountryDetail.jsx:89-96 | the last reply to settle decides the count, whatever renders follow |
| CountryDetail.RerendersSendOnce | version-2/src/pages/CountryDetail.jsx:94-96 | re-rendering the same found country sends exactly one count request |
| CountryDetail.StaleReplyOverwritesCount | version-2/src/pages/CountryDetail.jsx:89-96 | moving from AFG to USA and letting AFG's reply settle last shows AFG's count on the USA page |
| SavedCountries.InputChange | version-2/src/pages/SavedCountries.jsx:32-37 | an input change sets the named field to the typed value and leaves the other three fields unchanged |
| SavedCountries.Submit | version-2/src/pages/SavedCountries.jsx:40-53 | submit logs the form as it was, resets all four fields to empty, and sends no request |
| SavedCountries.SubmitForgetsInput | version-2/src/pages/SavedCountries.jsx:47-52 | whatever was typed, submit leaves the same empty form |
| SavedCountries.EditsToDifferentFieldsCommute | version-2/src/pages/SavedCountries.jsx:36 | edits to two different fields commute |
| SavedCountries.ApplyNewestUser | version-2/src/pages/SavedCountries.jsx:56-71 | the newest user is the response's first element (absent for an empty array); a failed read leaves it as it was |
| SavedCountries.ApplySavedCountries | version-2/src/pages/SavedCountries.jsx:74-88 | the saved list becomes the parsed body, whether or not it is an array; a failed read leaves it as it was |
| SavedCountries.SavedList | version-2/src/pages/SavedCountries.jsx:108-121 | the saved column renders exactly when the stored body is an array whose names are all in the catalog, with one card per entry; a body that is not an array makes `.map` throw |
| SavedCountries.SavedListOutcomes | version-2/src/pages/SavedCountries.jsx:29-121 | the initial and the failed-read state render an empty column, and a non-array body makes the page fail whatever the catalog holds |
| SavedCountries.Greeting | version-2/src/pages/SavedCountries.jsx:102 | the greeting is shown exactly when a newest user is held, and names that user |
| SavedCountries.GreetingNamesFirstUser | version-2/src/pages/SavedCountries.jsx:64-67 | after a non-empty response the greeting names its first user |
| SavedCountries.ReadsCommute | version-2/src/pages/SavedCountries.jsx:91-94 | the two reads may settle in either order with the same resulting state |
| SavedCountries.FailedReadsKeepInitial | version-2/src/pages/SavedCountries.jsx:26-29 | a failed read leaves the newest user null (no greeting) or the saved list empty |
| SavedCountries.MountRequests | version-2/src/pages/SavedCountries.jsx:91-94 | over any number of commits the page sends the two GET reads exactly once |
| SavedCountries.FindByName | version-2/src/pages/SavedCountries.jsx:110-112 | finds the first catalog record with the given common name, or nothing exactly when no record has it |
| SavedCountries.Reconcile | version-2/src/pages/SavedCountries.jsx:108-121 | the saved list renders exactly when every saved name is in the catalog, and then with one card per saved entry |
| SavedCountries.ReconcileCards | version-2/src/pages/SavedCountries.jsx:108-119 | card `i` belongs to saved entry `i` (server order), is keyed by its saved name and shows the first catalog record of that name |
| SavedCountries.ReconcileFailsAtFirstMissing | version-2/src/pages/SavedCountries.jsx:110-117 | a failing render fails on the first saved name, in server order, that the catalog lacks |
| SavedCountries.SaveThenReconcile | version-2/src/pages/SavedCountries.jsx:110-117 | a name posted by the detail page reconciles to a record of that name, and to the saved record itself when it is the first with its name |
| SavedCountries.UnmatchedNameFails | version-2/src/pages/SavedCountries.jsx:110-117 | saved names "Canada" and "Nowhereland" against a catalog holding only Canada make the page fail on "Nowhereland" rather than drop it |

## Left out

- Rendering, CSS classes, DOM structure and the `CountryCard` components. The cards are presentational. Their one decision, the capital fallback, is the one `CountryDetail.CapitalText` models.
- Routing: `Routes`, `Link`, `useParams`, `window.history.back()`, the `main.jsx` mounting and StrictMode. The URL code is a plain string parameter.
- `fetch` and `response.json()/text()`: their results are inputs. The save request's text reply is only logged, so it is not modelled.
- React's scheduling:
  - effect timing;
  - StrictMode's double invocation of effects;
  - batching beyond the two committed states of a load;
  - the hook-order error React raises when the detail page's early return skips its `useEffect`. `CountryDetail.Step` treats a render that misses as not reaching the effect.
- `localeCompare` collation and `toLocaleString` formatting are engine library behaviour. The collation is the abstract `Collator`, and population formatting is not modelled.
- The contents of the bundled `localData` snapshot are not part of this model. It is a parameter.
- The placeholder pages are not modelled because they contain no logic:
  - version 0's and version 1's `CountryDetail.jsx` and `SavedCountries.jsx`;
  - version 1's inert profile form;
  - version 0's `App.jsx`, which only passes `localData` to the pages.
- The search box and region filter have no behaviour in the code.
- The app has no profile POST, no stale-reply guard, no dropping of unmatched saved names and no refresh after a save.
- The sort is modelled only for a comparator that is total, transitive and sign-consistent when its arguments are swapped; the ECMAScript definition of `Array.prototype.sort` calls such a comparator consistent. For any other comparator the order is implementation-defined, and `IsCollation` excludes that case.
- The parsed catalog payload is modelled as a list of records. A JSON body of another shape, which the code would store as is, is not modelled.
- SavedCountries.InputChange: only the four field names the form's controls carry are modelled. `[name]: value` with any other name would add a fifth key.
- SavedCountries.Submit: accepts any form. The four inputs carry `required` (SavedCountries.jsx:138-170), so the browser fires `onSubmit` only when all four are filled; browser form validation is not modelled.
- Home.HomeV1: a JSON `null` code is modelled as a missing one, so its card gets an undefined key. React turns a `null` key into the string `"null"`, so in the app such a card is keyed `"null"`. The same applies to `Home.HomeV1KeysAreCodes` and `Home.HomeV1KeysValidIffCodesDistinct`, which state their facts about the modelled codes.
