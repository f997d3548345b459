/** Version 2's detail page: the record is looked up by the `countryCode` URL
    parameter; once found, the page posts a view to the backend and shows the
    returned count, and its Save button posts the country. Both requests name
    the country by its common name, not its code. */
module CountryDetail {
  import opened Wrappers
  import opened Country
  import Search
  import Effects

  const SavePath := "/api/save-one-country"
  const CountPath := "/api/update-one-country-count"

  /** `i` is the position of the first record whose `cca3` is `code`. */
  ghost predicate IsFirstWithCode(s: seq<CountryRecord>, code: string, i: int) {
    && 0 <= i < |s|
    && s[i].cca3 == Some(code)
    && forall j :: 0 <= j < i ==> s[j].cca3 != Some(code)
  }

  /** `countriesData?.find((c) => c.cca3 === countryCode)`. */
  function Lookup(countriesData: Option<seq<CountryRecord>>, countryCode: string): (r: Option<CountryRecord>)
    ensures r.None? <==>
      countriesData.None? || forall j :: 0 <= j < |countriesData.value| ==> countriesData.value[j].cca3 != Some(countryCode)
    ensures r.Some? ==> exists i :: IsFirstWithCode(countriesData.value, countryCode, i) && countriesData.value[i] == r.value
  {
    match countriesData
    case None => None
    case Some(s) =>
      var found := Search.Find(s, (c: CountryRecord) => c.cca3 == Some(countryCode));
      assert found.Some? ==> exists i :: Search.IsFirst(s, (c: CountryRecord) => c.cca3 == Some(countryCode), i) && s[i] == found.value;
      found
  }

  /** The body both requests send: `{country_name: name.common}`. */
  function NameBody(c: CountryRecord): Body {
    CountryNameBody(c.name.common)
  }

  function SaveRequest(c: CountryRecord): Request {
    Request(POST, SavePath, NameBody(c))
  }

  function CountRequest(c: CountryRecord): Request {
    Request(POST, CountPath, NameBody(c))
  }

  /** Both requests identify a country by its common name alone: two records
      give the same request exactly when their common names agree, whatever
      their codes. */
  lemma RequestsKeyedByName(a: CountryRecord, b: CountryRecord)
    ensures SaveRequest(a) == SaveRequest(b) <==> a.name.common == b.name.common
    ensures CountRequest(a) == CountRequest(b) <==> a.name.common == b.name.common
    ensures SaveRequest(a).body == CountRequest(a).body == CountryNameBody(a.name.common)
  {
  }

  /** `capital && capital.length > 0 ? capital[0] : "N/A"`. */
  function CapitalText(c: CountryRecord): (text: string)
    ensures c.capital.Some? && |c.capital.value| > 0 ==> text == c.capital.value[0]
    ensures c.capital.None? || |c.capital.value| == 0 ==> text == "N/A"
  {
    if c.capital.Some? && |c.capital.value| > 0 then c.capital.value[0] else "N/A"
  }

  /** `flags?.alt ?? `${name?.common} flag``. */
  function FlagAlt(c: CountryRecord): (text: string)
    ensures c.flags.Some? && c.flags.value.alt.Some? ==> text == c.flags.value.alt.value
    ensures c.flags.None? || c.flags.value.alt.None? ==> text == c.name.common + " flag"
  {
    match c.flags
    case Some(f) => f.alt.GetOr(c.name.common + " flag")
    case None => c.name.common + " flag"
  }

  /** `??` only replaces a missing value: an empty alt text from the catalog is
      used as it is, not replaced by the name. */
  lemma EmptyAltIsKept(c: CountryRecord)
    requires c.flags.Some? && c.flags.value.alt == Some("")
    ensures FlagAlt(c) == ""
  {
  }

  /** The JavaScript value held in the `viewCount` state. */
  datatype ViewCount = Null | Undefined | Count(n: int)

  /** The `count` field of the parsed reply: missing (read as `undefined`),
      `null`, or a number. */
  datatype CountField = Missing | JsonNull | Number(n: int)

  /** How the count request settled: `fetch` or `response.json()` rejected (an
      unhandled rejection that leaves the state alone), or the parsed body's
      `count` field. */
  datatype CountReply = Rejected | Body(count: CountField)

  /** `setViewCount(data.count)`. */
  function ApplyReply(v: ViewCount, reply: CountReply): (r: ViewCount)
    ensures reply.Rejected? ==> r == v
    ensures reply == Body(Missing) ==> r == Undefined
    ensures reply == Body(JsonNull) ==> r == Null
    ensures reply.Body? && reply.count.Number? ==> r == Count(reply.count.n)
  {
    match reply
    case Rejected => v
    case Body(count) =>
      match count
      case Missing => Undefined
      case JsonNull => Null
      case Number(n) => Count(n)
  }

  /** A reply whose `count` is `null` hides the views row again; one without a
      `count` field shows an empty row. */
  lemma NullCountHidesRow(v: ViewCount)
    ensures ViewsRow(ApplyReply(v, Body(JsonNull))).None?
    ensures ViewsRow(ApplyReply(v, Body(Missing))) == Some(Undefined)
  {
  }

  /** `viewCountJSX`: the views row, present exactly when `viewCount !== null`
      (so a reply without a `count` still shows an empty row). */
  function ViewsRow(v: ViewCount): (row: Option<ViewCount>)
    ensures row.Some? <==> v != Null
    ensures row.Some? ==> row.value == v
  {
    if v == Null then None else Some(v)
  }

  /** What the page renders: the loading placeholder (no Save button, no views
      row), or the record's details with the Save button's request. */
  datatype DetailPage =
    | LoadingPage
    | DetailView(name: string, flagAlt: string, capital: string, region: string,
                 views: Option<ViewCount>, onSave: Request)

  function Render(countriesData: Option<seq<CountryRecord>>, countryCode: string, viewCount: ViewCount): (page: DetailPage)
    ensures page.LoadingPage? <==> Lookup(countriesData, countryCode).None?
    ensures page.DetailView? ==>
      var c := Lookup(countriesData, countryCode).value;
      && c.cca3 == Some(countryCode)
      && page.name == c.name.common
      && page.onSave == SaveRequest(c)
      && page.flagAlt == FlagAlt(c)
      && page.capital == CapitalText(c)
      && page.region == c.region
      && page.views == ViewsRow(viewCount)
      && (page.views.Some? <==> viewCount != Null)
  {
    match Lookup(countriesData, countryCode)
    case None => LoadingPage
    case Some(c) =>
      DetailView(c.name.common, FlagAlt(c), CapitalText(c), c.region, ViewsRow(viewCount), SaveRequest(c))
  }

  /** What happens to one mounted detail page: it renders with the current
      props, or a count request settles. A settling reply does not say which
      request it answers, because the page does not look. */
  datatype Event =
    | Rendered(countriesData: Option<seq<CountryRecord>>, countryCode: string)
    | Replied(reply: CountReply)

  /** The page's state: `viewCount`, the dependency array `[countryCode]` of
      the last commit that reached the effect, and the count requests sent. */
  datatype Session = Session(viewCount: ViewCount, effectDeps: Option<seq<string>>, sent: seq<Request>)

  const Mounted := Session(Null, None, [])

  /** A render that finds no record returns early, before the effect is
      declared, so it sends nothing; one that finds a record runs the effect
      when `[countryCode]` changed. A reply overwrites `viewCount` whichever
      country it was for. Rendering never resets `viewCount`. */
  function Step(s: Session, e: Event): (r: Session)
    ensures r.viewCount == (if e.Replied? then ApplyReply(s.viewCount, e.reply) else s.viewCount)
    ensures e.Replied? ==> r.sent == s.sent && r.effectDeps == s.effectDeps
    ensures e.Rendered? ==>
      var found := Lookup(e.countriesData, e.countryCode);
      r.effectDeps == (if found.Some? then Some([e.countryCode]) else s.effectDeps)
    ensures e.Rendered? ==>
      var found := Lookup(e.countriesData, e.countryCode);
      && (found.None? ==> r == s)
      && (found.Some? ==> r.sent == s.sent + (if s.effectDeps == Some([e.countryCode]) then [] else [CountRequest(found.value)]))
  {
    match e
    case Replied(reply) => s.(viewCount := ApplyReply(s.viewCount, reply))
    case Rendered(countriesData, countryCode) =>
      match Lookup(countriesData, countryCode)
      case None => s
      case Some(c) =>
        if Effects.ShouldRun(s.effectDeps, [countryCode])
        then s.(effectDeps := Some([countryCode]), sent := s.sent + [CountRequest(c)])
        else s
  }

  function Run(s: Session, events: seq<Event>): Session
    decreases |events|
  {
    if |events| == 0 then s
    else Step(Run(s, events[..|events| - 1]), events[|events| - 1])
  }

  /** Request `r` was sent for the record found by render event `i`. */
  ghost predicate SentFor(events: seq<Event>, i: int, r: Request) {
    && 0 <= i < |events|
    && events[i].Rendered?
    && var found := Lookup(events[i].countriesData, events[i].countryCode);
       found.Some? && r == CountRequest(found.value)
  }

  /** Every count request sent names a record some render actually found: no
      request goes out while the page shows the loading placeholder. */
  lemma {:induction false} RequestsOnlyForFoundRecords(events: seq<Event>)
    ensures forall r :: r in Run(Mounted, events).sent ==> exists i :: SentFor(events, i, r)
    decreases |events|
  {
    if |events| > 0 {
      var front := events[..|events| - 1];
      RequestsOnlyForFoundRecords(front);
      forall r | r in Run(Mounted, events).sent ensures exists i :: SentFor(events, i, r) {
        if r in Run(Mounted, front).sent {
          var i :| SentFor(front, i, r);
          assert events[i] == front[i];
          assert SentFor(events, i, r);
        } else {
          assert SentFor(events, |events| - 1, r);
        }
      }
    }
  }

  /** Until a reply arrives `viewCount` stays `null`, so no views row is shown. */
  lemma {:induction false} NoReplyNoCount(events: seq<Event>)
    requires forall i :: 0 <= i < |events| ==> events[i].Rendered?
    ensures Run(Mounted, events).viewCount == Null
    decreases |events|
  {
    if |events| > 0 {
      NoReplyNoCount(events[..|events| - 1]);
    }
  }

  /** Running two stretches of events in turn is running their concatenation. */
  lemma {:induction false} RunConcat(s: Session, a: seq<Event>, b: seq<Event>)
    ensures Run(s, a + b) == Run(Run(s, a), b)
    decreases |b|
  {
    if |b| == 0 {
      assert a + b == a;
    } else {
      RunConcat(s, a, b[..|b| - 1]);
      assert (a + b)[..|a + b| - 1] == a + b[..|b| - 1];
    }
  }

  /** Renders alone never change `viewCount`. */
  lemma {:induction false} RendersKeepCount(s: Session, later: seq<Event>)
    requires forall i :: 0 <= i < |later| ==> later[i].Rendered?
    ensures Run(s, later).viewCount == s.viewCount
    decreases |later|
  {
    if |later| > 0 {
      RendersKeepCount(s, later[..|later| - 1]);
    }
  }

  /** The last reply to settle decides the count shown, whatever renders
      followed it: there is no check that it answers the current country. */
  lemma LastReplyWins(s: Session, events: seq<Event>, n: int, later: seq<Event>)
    requires forall i :: 0 <= i < |later| ==> later[i].Rendered?
    ensures Run(s, events + [Replied(Body(Number(n)))] + later).viewCount == Count(n)
  {
    var front := events + [Replied(Body(Number(n)))];
    RunConcat(s, front, later);
    assert front[..|front| - 1] == events;
    RendersKeepCount(Run(s, front), later);
  }

  /** Re-rendering the same found country does not send a second request. */
  lemma {:induction false} RerendersSendOnce(countriesData: Option<seq<CountryRecord>>, countryCode: string, renders: nat)
    requires renders > 0
    requires Lookup(countriesData, countryCode).Some?
    ensures Run(Mounted, seq(renders, _ => Rendered(countriesData, countryCode))).sent
            == [CountRequest(Lookup(countriesData, countryCode).value)]
    ensures Run(Mounted, seq(renders, _ => Rendered(countriesData, countryCode))).effectDeps == Some([countryCode])
    decreases renders
  {
    var events := seq(renders, _ => Rendered(countriesData, countryCode));
    if renders > 1 {
      RerendersSendOnce(countriesData, countryCode, renders - 1);
      assert events[..renders - 1] == seq(renders - 1, _ => Rendered(countriesData, countryCode));
    } else {
      assert events[..0] == [];
    }
  }

  /** Moving from Afghanistan to the United States before Afghanistan's reply
      arrives: the United States' reply (7) settles first, Afghanistan's (3)
      last, and the United States page then shows Afghanistan's count. */
  lemma StaleReplyOverwritesCount(afg: CountryRecord, usa: CountryRecord)
    requires afg.cca3 == Some("AFG") && usa.cca3 == Some("USA")
    ensures var data := Some([afg, usa]);
      var s := Run(Mounted, [Rendered(data, "AFG"), Rendered(data, "USA"), Replied(Body(Number(7))), Replied(Body(Number(3)))]);
      && s.sent == [CountRequest(afg), CountRequest(usa)]
      && Render(data, "USA", s.viewCount).DetailView?
      && Render(data, "USA", s.viewCount).name == usa.name.common
      && Render(data, "USA", s.viewCount).views == Some(Count(3))
  {
    var data := Some([afg, usa]);
    assert Lookup(data, "AFG") == Some(afg) by {
      assert IsFirstWithCode([afg, usa], "AFG", 0);
    }
    assert Lookup(data, "USA") == Some(usa) by {
      assert "AFG"[0] != "USA"[0];
      assert IsFirstWithCode([afg, usa], "USA", 1);
    }
    var events := [Rendered(data, "AFG"), Rendered(data, "USA"), Replied(Body(Number(7))), Replied(Body(Number(3)))];
    var s1 := Run(Mounted, events[..1]);
    assert events[..1][..0] == [];
    assert Run(Mounted, events[..1][..0]) == Mounted;
    assert events[..1][0] == Rendered(data, "AFG");
    assert s1 == Session(Null, Some(["AFG"]), [CountRequest(afg)]);
    var s2 := Run(Mounted, events[..2]);
    assert events[..2][..1] == events[..1];
    assert ["AFG"] != ["USA"] by { assert "AFG"[0] != "USA"[0]; }
    assert s2 == Session(Null, Some(["USA"]), [CountRequest(afg), CountRequest(usa)]);
    assert events[..3][..2] == events[..2];
    assert events[..3] == events[..|events| - 1];
  }

  /** A one-record catalog holding Canada: its detail page, before any view
      count arrives, shows the name, the default alt text, the first capital
      and no views row. */
  lemma CanadaDetail(flags: Option<Flags>)
    requires flags.None? || flags.value.alt.None?
    ensures var canada := CountryRecord(Name("Canada"), Some("CAN"), 38000000, Some(["Ottawa"]), "Americas", flags);
      Render(Some([canada]), "CAN", Null)
        == DetailView("Canada", "Canada flag", "Ottawa", "Americas", None, SaveRequest(canada))
  {
  }

  /** With a duplicated code the first record wins. */
  lemma DuplicateCodeFirstWins(a: CountryRecord, b: CountryRecord, code: string)
    requires a.cca3 == Some(code) && b.cca3 == Some(code)
    ensures Lookup(Some([a, b]), code) == Some(a)
  {
  }
}
