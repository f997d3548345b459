/** The two Home pages: a sorted copy of the catalog and one `CountryCard` per
    record, differing only in the React key each card gets. */
module Home {
  import opened Wrappers
  import opened Country
  import opened CatalogView
  import Search

  /** `[...countriesData].sort(...)`: the sort works on a copy, so the caller's
      array is left as it was (this method has no `modifies` clause). The copy
      holds the same records, ordered by common name, with equal names in
      their input order. */
  method SortedCountries(collate: Collator, countriesData: array<CountryRecord>) returns (sorted: seq<CountryRecord>)
    requires IsCollation(collate)
    ensures multiset(sorted) == multiset(countriesData[..])
    ensures Sorted(collate, sorted)
    ensures forall k :: TiesWith(collate, sorted, k) == TiesWith(collate, countriesData[..], k)
  {
    var copy := countriesData[..];
    sorted := SortByName(collate, copy);
    SortPermutes(collate, copy);
    SortSorts(collate, copy);
    forall k ensures TiesWith(collate, sorted, k) == TiesWith(collate, copy, k) {
      SortIsStable(collate, copy, k);
    }
  }

  /** A rendered card: its React key (`None` is an `undefined` key) and the record it shows. */
  datatype Card = Card(key: Option<string>, country: CountryRecord)

  /** Version 0's key, `country.cca3 ?? country.name.common`. */
  function KeyV0(c: CountryRecord): Option<string> {
    Some(c.cca3.GetOr(c.name.common))
  }

  /** Version 1's key, `country.cca3`, undefined when the code is missing.
      A JSON `null` code is missing here too, although React would turn it
      into the key `"null"`. */
  function KeyV1(c: CountryRecord): Option<string> {
    c.cca3
  }

  function CardV0(c: CountryRecord): Card { Card(KeyV0(c), c) }

  function CardV1(c: CountryRecord): Card { Card(KeyV1(c), c) }

  function Keys(cards: seq<Card>): seq<Option<string>> {
    Search.Map((c: Card) => c.key, cards)
  }

  function Shown(cards: seq<Card>): seq<CountryRecord> {
    Search.Map((c: Card) => c.country, cards)
  }

  /** React's requirement on sibling keys: every key defined, no key twice.
      Stated on the multiset, so it does not depend on the order. */
  ghost predicate ValidKeys(keys: seq<Option<string>>) {
    && multiset(keys)[None] == 0
    && forall k :: multiset(keys)[k] <= 1
  }

  /** Version 0's grid: one card per record, in sorted order, every key defined. */
  function HomeV0(collate: Collator, countriesData: seq<CountryRecord>): (cards: seq<Card>)
    requires IsCollation(collate)
    ensures |cards| == |countriesData|
    ensures multiset(Shown(cards)) == multiset(countriesData)
    ensures Sorted(collate, Shown(cards))
    ensures forall i :: 0 <= i < |cards| ==> cards[i].key.Some?
    ensures forall i :: 0 <= i < |cards| ==> cards[i].key == Some(cards[i].country.cca3.GetOr(cards[i].country.name.common))
  {
    var sorted := SortByName(collate, countriesData);
    SortPermutes(collate, countriesData);
    SortSorts(collate, countriesData);
    assert |sorted| == |multiset(sorted)| == |multiset(countriesData)| == |countriesData|;
    assert Shown(Search.Map(CardV0, sorted)) == sorted;
    Search.Map(CardV0, sorted)
  }

  /** Version 1's grid: one card per record, in sorted order, keyed by code. */
  function HomeV1(collate: Collator, countriesData: seq<CountryRecord>): (cards: seq<Card>)
    requires IsCollation(collate)
    ensures |cards| == |countriesData|
    ensures multiset(Shown(cards)) == multiset(countriesData)
    ensures Sorted(collate, Shown(cards))
    ensures forall i :: 0 <= i < |cards| ==> (cards[i].key.None? <==> cards[i].country.cca3.None?)
    ensures forall i :: 0 <= i < |cards| ==> cards[i].key == cards[i].country.cca3
  {
    var sorted := SortByName(collate, countriesData);
    SortPermutes(collate, countriesData);
    SortSorts(collate, countriesData);
    assert |sorted| == |multiset(sorted)| == |multiset(countriesData)| == |countriesData|;
    assert Shown(Search.Map(CardV1, sorted)) == sorted;
    Search.Map(CardV1, sorted)
  }

  /** Sorting only reorders the keys: the grid's keys are the records' keys. */
  lemma HomeV1KeysAreCodes(collate: Collator, countriesData: seq<CountryRecord>)
    requires IsCollation(collate)
    ensures multiset(Keys(HomeV1(collate, countriesData))) == multiset(Search.Map(KeyV1, countriesData))
  {
    var sorted := SortByName(collate, countriesData);
    SortPermutes(collate, countriesData);
    assert Keys(HomeV1(collate, countriesData)) == Search.Map(KeyV1, sorted);
    Search.MapPreservesPermutation(KeyV1, sorted, countriesData);
  }

  /** Version 1's keys are valid exactly when every record has a code and no
      two records share one. */
  lemma HomeV1KeysValidIffCodesDistinct(collate: Collator, countriesData: seq<CountryRecord>)
    requires IsCollation(collate)
    ensures ValidKeys(Keys(HomeV1(collate, countriesData))) <==> ValidKeys(Search.Map(KeyV1, countriesData))
  {
    HomeV1KeysAreCodes(collate, countriesData);
  }

  lemma HomeV0KeysAreFallbackKeys(collate: Collator, countriesData: seq<CountryRecord>)
    requires IsCollation(collate)
    ensures multiset(Keys(HomeV0(collate, countriesData))) == multiset(Search.Map(KeyV0, countriesData))
  {
    var sorted := SortByName(collate, countriesData);
    SortPermutes(collate, countriesData);
    assert Keys(HomeV0(collate, countriesData)) == Search.Map(KeyV0, sorted);
    Search.MapPreservesPermutation(KeyV0, sorted, countriesData);
  }

  /** Where every record has a code, the two versions render the same grid;
      they differ only on records without one. */
  lemma VersionsAgreeWhenCodesPresent(collate: Collator, countriesData: seq<CountryRecord>)
    requires IsCollation(collate)
    requires forall i :: 0 <= i < |countriesData| ==> countriesData[i].cca3.Some?
    ensures HomeV0(collate, countriesData) == HomeV1(collate, countriesData)
  {
    var sorted := SortByName(collate, countriesData);
    SortPermutes(collate, countriesData);
    forall i | 0 <= i < |sorted| ensures sorted[i].cca3.Some? {
      assert sorted[i] in multiset(countriesData);
    }
  }

  /** A record without a code gets an undefined key in version 1, while version 0
      falls back to its common name. */
  lemma MissingCodeKeys(c: CountryRecord)
    requires c.cca3.None?
    ensures KeyV1(c) == None && KeyV0(c) == Some(c.name.common)
  {
  }
}
