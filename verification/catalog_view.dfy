/** The sorted view of the catalog that both Home pages derive:
    `[...countriesData].sort((a, b) => a.name.common.localeCompare(b.name.common))`.

    `localeCompare` is locale collation from the JavaScript engine, so it is a
    parameter here. The sort lemmas assume only that "collates no later than"
    (`collate(a, b) <= 0`) is a total preorder (`IsPreorder`); the Home pages
    require a consistent comparator (`IsCollation`), which also answers with
    opposite signs when its arguments are swapped. `Array.prototype.sort` is
    stable, so the sorted copy is the one ordering that is sorted and keeps
    names that collate as equal in their input order; `SortByName`, a stable
    insertion sort, is proved to be exactly that ordering. */
module CatalogView {
  import opened Country

  /** `a.localeCompare(b)`: negative, zero or positive. */
  type Collator = (string, string) -> int

  /** "Collates no later than" is total and transitive. */
  ghost predicate IsPreorder(collate: Collator) {
    && (forall a, b :: collate(a, b) <= 0 || collate(b, a) <= 0)
    && (forall a, b, c :: collate(a, b) <= 0 && collate(b, c) <= 0 ==> collate(a, c) <= 0)
  }

  /** A consistent comparator: a total preorder that answers with opposite
      signs when its arguments are swapped. */
  ghost predicate IsCollation(collate: Collator) {
    && IsPreorder(collate)
    && (forall a, b :: collate(a, b) < 0 <==> collate(b, a) > 0)
  }

  /** The comparator passed to `sort` does not put `a` after `b`. */
  predicate Precedes(collate: Collator, a: CountryRecord, b: CountryRecord) {
    collate(a.name.common, b.name.common) <= 0
  }

  /** `a` and `b` compare as equal, so a stable sort keeps their input order. */
  predicate Ties(collate: Collator, a: CountryRecord, b: CountryRecord) {
    Precedes(collate, a, b) && Precedes(collate, b, a)
  }

  ghost predicate Sorted(collate: Collator, s: seq<CountryRecord>) {
    forall i, j :: 0 <= i < j < |s| ==> Precedes(collate, s[i], s[j])
  }

  /** The records of `s` that tie with `k`, in their order in `s`. A sort is
      stable when it leaves every such subsequence as it was. */
  function TiesWith(collate: Collator, s: seq<CountryRecord>, k: CountryRecord): (r: seq<CountryRecord>)
    ensures forall x :: x in r ==> x in s && Ties(collate, x, k)
  {
    if |s| == 0 then []
    else (if Ties(collate, s[0], k) then [s[0]] else []) + TiesWith(collate, s[1..], k)
  }

  /** Places `x` before the first element it precedes. */
  function Insert(collate: Collator, x: CountryRecord, s: seq<CountryRecord>): seq<CountryRecord> {
    if |s| == 0 then [x]
    else if Precedes(collate, x, s[0]) then [x] + s
    else [s[0]] + Insert(collate, x, s[1..])
  }

  /** Stable insertion sort by common name. */
  function SortByName(collate: Collator, s: seq<CountryRecord>): seq<CountryRecord> {
    if |s| == 0 then []
    else Insert(collate, s[0], SortByName(collate, s[1..]))
  }

  lemma {:induction false} InsertPermutes(collate: Collator, x: CountryRecord, s: seq<CountryRecord>)
    ensures multiset(Insert(collate, x, s)) == multiset(s) + multiset{x}
  {
    if |s| > 0 && !Precedes(collate, x, s[0]) {
      InsertPermutes(collate, x, s[1..]);
      assert s == [s[0]] + s[1..];
    }
  }

  lemma {:induction false} InsertSorted(collate: Collator, x: CountryRecord, s: seq<CountryRecord>)
    requires IsPreorder(collate)
    requires Sorted(collate, s)
    ensures Sorted(collate, Insert(collate, x, s))
  {
    if |s| == 0 {
    } else if Precedes(collate, x, s[0]) {
      var r := [x] + s;
      forall i, j | 0 <= i < j < |r| ensures Precedes(collate, r[i], r[j]) {
        if i == 0 && j > 1 {
          assert Precedes(collate, s[0], s[j - 1]);
        }
      }
    } else {
      var t := Insert(collate, x, s[1..]);
      InsertSorted(collate, x, s[1..]);
      InsertPermutes(collate, x, s[1..]);
      var r := [s[0]] + t;
      forall i, j | 0 <= i < j < |r| ensures Precedes(collate, r[i], r[j]) {
        if i == 0 {
          assert r[j] in multiset(s[1..]) + multiset{x};
          if r[j] != x {
            assert r[j] in s[1..];
            var k :| 0 <= k < |s[1..]| && s[1..][k] == r[j];
            assert s[k + 1] == r[j];
          }
        }
      }
    }
  }

  lemma TiesWithCons(collate: Collator, y: CountryRecord, s: seq<CountryRecord>, k: CountryRecord)
    ensures TiesWith(collate, [y] + s, k) == (if Ties(collate, y, k) then [y] else []) + TiesWith(collate, s, k)
  {
    assert ([y] + s)[1..] == s;
  }

  /** A record that collates strictly after `y` cannot tie with anything `y`
      ties with. */
  lemma LaterRecordsTieApart(collate: Collator, x: CountryRecord, y: CountryRecord, k: CountryRecord)
    requires IsPreorder(collate)
    requires !Precedes(collate, x, y)
    ensures !(Ties(collate, x, k) && Ties(collate, y, k))
  {
  }

  /** Inserting `x` into any sequence puts it before everything it ties with. */
  lemma {:induction false} InsertKeepsTies(collate: Collator, x: CountryRecord, s: seq<CountryRecord>, k: CountryRecord)
    requires IsPreorder(collate)
    ensures TiesWith(collate, Insert(collate, x, s), k) == TiesWith(collate, [x] + s, k)
  {
    if |s| > 0 && !Precedes(collate, x, s[0]) {
      InsertKeepsTies(collate, x, s[1..], k);
      LaterRecordsTieApart(collate, x, s[0], k);
      InsertPastKeepsTies(collate, x, s, k);
    }
  }

  /** The step of `InsertKeepsTies` where `x` moves past `s[0]`: the two
      cannot both tie with `k`, so their order among the ties is moot. */
  lemma InsertPastKeepsTies(collate: Collator, x: CountryRecord, s: seq<CountryRecord>, k: CountryRecord)
    requires |s| > 0 && !Precedes(collate, x, s[0])
    requires TiesWith(collate, Insert(collate, x, s[1..]), k) == TiesWith(collate, [x] + s[1..], k)
    requires !(Ties(collate, x, k) && Ties(collate, s[0], k))
    ensures TiesWith(collate, Insert(collate, x, s), k) == TiesWith(collate, [x] + s, k)
  {
    var tx := if Ties(collate, x, k) then [x] else [];
    var t0 := if Ties(collate, s[0], k) then [s[0]] else [];
    var rest := TiesWith(collate, s[1..], k);
    var inserted := Insert(collate, x, s[1..]);
    assert Insert(collate, x, s) == [s[0]] + inserted;
    assert TiesWith(collate, [s[0]] + inserted, k) == t0 + TiesWith(collate, inserted, k) by {
      TiesWithCons(collate, s[0], inserted, k);
    }
    assert TiesWith(collate, [x] + s[1..], k) == tx + rest by {
      TiesWithCons(collate, x, s[1..], k);
    }
    assert TiesWith(collate, s, k) == t0 + rest by {
      assert s == [s[0]] + s[1..];
      TiesWithCons(collate, s[0], s[1..], k);
    }
    assert TiesWith(collate, [x] + s, k) == tx + TiesWith(collate, s, k) by {
      TiesWithCons(collate, x, s, k);
    }
    if Ties(collate, x, k) {
      assert t0 == [] && t0 + rest == rest;
    } else {
      assert tx == [] && tx + (t0 + rest) == t0 + rest;
    }
  }

  lemma {:induction false} SortPermutes(collate: Collator, s: seq<CountryRecord>)
    ensures multiset(SortByName(collate, s)) == multiset(s)
  {
    if |s| > 0 {
      SortPermutes(collate, s[1..]);
      InsertPermutes(collate, s[0], SortByName(collate, s[1..]));
      assert s == [s[0]] + s[1..];
    }
  }

  lemma {:induction false} SortSorts(collate: Collator, s: seq<CountryRecord>)
    requires IsPreorder(collate)
    ensures Sorted(collate, SortByName(collate, s))
  {
    if |s| > 0 {
      SortSorts(collate, s[1..]);
      InsertSorted(collate, s[0], SortByName(collate, s[1..]));
    }
  }

  /** The sort is stable: records with equal names stay in input order. */
  lemma {:induction false} SortIsStable(collate: Collator, s: seq<CountryRecord>, k: CountryRecord)
    requires IsPreorder(collate)
    ensures TiesWith(collate, SortByName(collate, s), k) == TiesWith(collate, s, k)
  {
    if |s| > 0 {
      var rest := SortByName(collate, s[1..]);
      SortIsStable(collate, s[1..], k);
      InsertKeepsTies(collate, s[0], rest, k);
      assert ([s[0]] + rest)[1..] == rest;
    }
  }

  /** Two sorted sequences with the same ties in the same order are equal:
      there is only one stable sorted order of a collection. */
  lemma {:induction false} StableOrderIsUnique(collate: Collator, t: seq<CountryRecord>, u: seq<CountryRecord>)
    requires IsPreorder(collate)
    requires Sorted(collate, t) && Sorted(collate, u)
    requires forall k :: TiesWith(collate, t, k) == TiesWith(collate, u, k)
    ensures t == u
    decreases |t| + |u|
  {
    if |t| == 0 && |u| == 0 {
    } else if |t| == 0 {
      HeadTiesWithItself(collate, u);
      assert false;
    } else if |u| == 0 {
      HeadTiesWithItself(collate, t);
      assert false;
    } else {
      // u[0] has a tie in t, which t[0] precedes; and symmetrically
      HeadPrecedesTies(collate, t, u[0]);
      HeadPrecedesTies(collate, u, t[0]);
      assert Ties(collate, u[0], t[0]);
      assert TiesWith(collate, t, t[0])[0] == t[0];
      assert TiesWith(collate, u, t[0])[0] == u[0];
      forall k ensures TiesWith(collate, t[1..], k) == TiesWith(collate, u[1..], k) {
        var head := if Ties(collate, t[0], k) then [t[0]] else [];
        assert TiesWith(collate, t, k) == head + TiesWith(collate, t[1..], k);
        assert TiesWith(collate, u, k) == head + TiesWith(collate, u[1..], k);
        assert TiesWith(collate, t[1..], k) == TiesWith(collate, t, k)[|head|..];
        assert TiesWith(collate, u[1..], k) == TiesWith(collate, u, k)[|head|..];
      }
      StableOrderIsUnique(collate, t[1..], u[1..]);
      assert t == [t[0]] + t[1..];
      assert u == [u[0]] + u[1..];
    }
  }

  lemma HeadTiesWithItself(collate: Collator, s: seq<CountryRecord>)
    requires IsPreorder(collate) && |s| > 0
    ensures TiesWith(collate, s, s[0]) != []
  {
  }

  /** In a sorted sequence with a record tying with `k`, the head precedes `k`. */
  lemma HeadPrecedesTies(collate: Collator, t: seq<CountryRecord>, k: CountryRecord)
    requires IsPreorder(collate)
    requires Sorted(collate, t) && |t| > 0
    requires TiesWith(collate, t, k) != []
    ensures Precedes(collate, t[0], k)
  {
  }

  /** Any stable sort of `s` by common name returns exactly `SortByName(s)`. */
  lemma StableSortIsSortByName(collate: Collator, s: seq<CountryRecord>, t: seq<CountryRecord>)
    requires IsPreorder(collate)
    requires Sorted(collate, t)
    requires forall k :: TiesWith(collate, t, k) == TiesWith(collate, s, k)
    ensures t == SortByName(collate, s)
  {
    SortSorts(collate, s);
    forall k ensures TiesWith(collate, t, k) == TiesWith(collate, SortByName(collate, s), k) {
      SortIsStable(collate, s, k);
    }
    StableOrderIsUnique(collate, t, SortByName(collate, s));
  }

  /** Sorting an already sorted catalog changes nothing. */
  lemma SortIdempotent(collate: Collator, s: seq<CountryRecord>)
    requires IsPreorder(collate)
    requires Sorted(collate, s)
    ensures SortByName(collate, s) == s
  {
    StableSortIsSortByName(collate, s, s);
  }

  /** Where the collation puts "Zambia" after "Canada", the sorted copy of
      `[zambia, canada]` places Canada first. */
  lemma CanadaBeforeZambia(collate: Collator, zambia: CountryRecord, canada: CountryRecord)
    requires IsPreorder(collate)
    requires zambia.name.common == "Zambia" && canada.name.common == "Canada"
    requires collate("Zambia", "Canada") > 0
    ensures SortByName(collate, [zambia, canada]) == [canada, zambia]
  {
    assert [zambia, canada][1..] == [canada];
    assert [canada][1..] == [];
    assert SortByName(collate, [canada]) == [canada];
    assert !Precedes(collate, zambia, canada);
    assert Insert(collate, zambia, [canada]) == [canada] + Insert(collate, zambia, []);
  }
}
