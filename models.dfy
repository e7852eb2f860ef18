/**
 * The `Target` model of django-mywot: domain validation (`clean`), the API url
 * (`get_api_url`), loading the reputation and confidence values (`load_values`) and the
 * cache policy of `get_or_create_object` over the stored records.
 *
 * The database table is a `Store` whose rows are keyed by domain; the clock is a number
 * of seconds `now`; the MyWOT web service is a function `fetch` from url to `Response`.
 */
module Models {
  import opened Wrappers
  import opened DomainSyntax

  /** `MYWOT_EXPIRATION_DAYS` when the settings do not define it. */
  const DEFAULT_EXPIRATION_DAYS: int := 180

  const SECONDS_PER_DAY: int := 86400

  /** `Target.MYWOT_API`, leading space included. */
  const MYWOT_API: string := " http://api.mywot.com/0.4/public_query2?target=%s"

  /** What `MYWOT_API` has before its `%s`. */
  const API_PREFIX: string := " http://api.mywot.com/0.4/public_query2?target="

  /** The category identifiers that have `reputation_<n>` and `confidence_<n>` columns. */
  const CATEGORIES: set<string> := {"0", "1", "2", "4"}

  /** The exceptions the model raises. */
  datatype Error = ValidationError | DomainRequiredError | FetchError

  /** One child of the service's `query` element: its `name`, `r` and `c` attributes. */
  datatype Entry = Entry(name: string, r: string, c: string)

  /** What the service returns for a url: the parsed entries, or a failure of the
      request or of the XML parse. */
  datatype Response = Fetched(entries: seq<Entry>) | FetchFailed

  /** `reputation_<n>` and `confidence_<n>` of one category; `None` is the null of an unset field. */
  datatype Pair = Pair(reputation: Option<string>, confidence: Option<string>)

  type Values = map<string, Pair>

  /** The fields of a new `Target`: every column null. */
  function UnsetValues(): (v: Values)
    ensures v.Keys == CATEGORIES
    ensures forall n :: n in v ==> v[n] == Pair(None, None)
  {
    map n | n in CATEGORIES :: Pair(None, None)
  }

  /** `MYWOT_EXPIRATION_DAYS`: the `MYWOT_EXPIRATION_DAYS` setting, or 180 when absent. */
  function ExpirationDays(setting: Option<int>): (days: int)
    ensures setting.Some? ==> days == setting.value
    ensures setting.None? ==> days == DEFAULT_EXPIRATION_DAYS
  {
    match setting
    case Some(d) => d
    case None => DEFAULT_EXPIRATION_DAYS
  }

  // ---------------------------------------------------------------------------------------
  // clean and get_api_url

  /** `Target.clean`: the lower-cased domain when `DOMAIN_RE` matches it, else `ValidationError`. */
  function Clean(domain: string): (r: Result<string, Error>)
    ensures r.Success? <==> MatchesDomainRe(domain)
    ensures r.Success? ==> r.value == Lower(domain)
    ensures r.Failure? ==> r.error == ValidationError
  {
    AcceptsIffMatches(domain);
    if Accepts(domain) then Success(Lower(domain)) else Failure(ValidationError)
  }

  /** Applying `clean` to its own output changes nothing. */
  lemma CleanIdempotent(domain: string)
    requires Clean(domain).Success?
    ensures Clean(Clean(domain).value) == Clean(domain)
  {
    AcceptsIffMatches(domain);
    AcceptsIgnoresCase(domain);
    AcceptsIffMatches(Lower(domain));
    LowerIdempotent(domain);
  }

  /** Two spellings of a domain that differ only in case are cleaned alike. */
  lemma CleanIgnoresCase(a: string, b: string)
    requires Lower(a) == Lower(b)
    ensures Clean(a) == Clean(b)
  {
    AcceptsIffMatches(a);
    AcceptsIffMatches(b);
    AcceptsIgnoresCase(a);
    AcceptsIgnoresCase(b);
  }

  /** A domain that `clean` accepts is never empty, so it cannot make `load_values` raise
      `DomainRequiredError`. */
  lemma CleanedDomainIsNonEmpty(domain: string)
    requires Clean(domain).Success?
    ensures |Clean(domain).value| >= 4
  {
    AcceptsIffMatches(domain);
    var labels: seq<string>, top: string, dot: bool :| Decomposes(domain, labels, top, dot);
    assert Dotted(labels) == labels[0] + "." + Dotted(labels[1..]);
  }

  /** A mixed-case domain is accepted and lower-cased. */
  lemma CleanMixedCase()
    ensures Clean("www.Example.COM") == Success("www.example.com")
  {
    assert MatchesDomainRe("www.Example.COM") by {
      assert IsLabel("www") && IsLabel("Example") && IsTopLabel("COM");
      assert Dotted(["www", "Example"]) + "COM" + OptionalDot(false) == "www.Example.COM";
      assert Decomposes("www.Example.COM", ["www", "Example"], "COM", false);
    }
    assert Lower("www.Example.COM") == "www.example.com";
  }

  /** A trailing dot is accepted and kept. */
  lemma CleanTrailingDot()
    ensures Clean("example.com.") == Success("example.com.")
  {
    assert MatchesDomainRe("example.com.") by {
      assert IsLabel("example") && IsTopLabel("com");
      assert Dotted(["example"]) + "com" + OptionalDot(true) == "example.com.";
      assert Decomposes("example.com.", ["example"], "com", true);
    }
    assert Lower("example.com.") == "example.com.";
  }

  /** Strings with spaces or slashes are no domain. */
  lemma CleanRejectsSpaces()
    ensures Clean("not a domain") == Failure(ValidationError)
  {
    assert !MatchesDomainRe("not a domain") by {
      if MatchesDomainRe("not a domain") {
        assert "not a domain"[3] == ' ';
        MatchedAlphabet("not a domain");
      }
    }
  }

  lemma CleanRejectsSlashes()
    ensures Clean("///") == Failure(ValidationError)
  {
    assert !MatchesDomainRe("///") by {
      if MatchesDomainRe("///") {
        MatchedAlphabet("///");
      }
    }
  }

  /** Python's `template % arg` for a template with one `%s` and no other `%`. */
  function Interpolate(template: string, arg: string): string {
    if |template| < 2 then template
    else if template[0] == '%' && template[1] == 's' then arg + template[2..]
    else [template[0]] + Interpolate(template[1..], arg)
  }

  lemma {:induction false} InterpolateAfter(prefix: string, suffix: string, arg: string)
    requires '%' !in prefix
    ensures Interpolate(prefix + "%s" + suffix, arg) == prefix + arg + suffix
  {
    var t := prefix + "%s" + suffix;
    if prefix == [] {
      assert t == "%s" + suffix;
      assert t[2..] == suffix;
    } else {
      assert t[0] == prefix[0] && t[0] != '%';
      assert t[1..] == prefix[1..] + "%s" + suffix;
      assert Interpolate(t, arg) == [prefix[0]] + Interpolate(t[1..], arg);
      InterpolateAfter(prefix[1..], suffix, arg);
      assert [prefix[0]] + prefix[1..] == prefix;
    }
  }

  lemma ApiPrefixHasNoPercent()
    ensures '%' !in API_PREFIX
    ensures MYWOT_API == API_PREFIX + "%s" + ""
  {
    assert API_PREFIX == " http://api" + ".mywot.com" + "/0.4/publi" + "c_query2?t" + "arget=";
    assert '%' !in " http://api" && '%' !in ".mywot.com" && '%' !in "/0.4/publi";
    assert '%' !in "c_query2?t" && '%' !in "arget=";
  }

  /** `Target.get_api_url`: the service url is the fixed prefix followed by the domain. */
  function GetApiUrl(domain: string): (url: string)
    ensures url == API_PREFIX + domain
    ensures url[|API_PREFIX|..] == domain
  {
    ApiPrefixHasNoPercent();
    InterpolateAfter(API_PREFIX, "", domain);
    Interpolate(MYWOT_API, domain)
  }

  /** Different domains are looked up at different urls. */
  lemma ApiUrlInjective(a: string, b: string)
    requires GetApiUrl(a) == GetApiUrl(b)
    ensures a == b
  {
    assert a == GetApiUrl(a)[|API_PREFIX|..];
  }

  // ---------------------------------------------------------------------------------------
  // load_values

  function Stored(e: Entry): Pair { Pair(Some(e.r), Some(e.c)) }

  /** The fields after `setattr` of each entry in turn. */
  function ApplyEntries(values: Values, entries: seq<Entry>): (r: Values)
    ensures values.Keys <= r.Keys
    ensures forall n :: n in r && n !in values ==> r[n].reputation.Some? && r[n].confidence.Some?
  {
    if entries == [] then values
    else
      var e := entries[|entries| - 1];
      ApplyEntries(values, entries[..|entries| - 1])[e.name := Stored(e)]
  }

  function Names(entries: seq<Entry>): set<string> {
    set e | e in entries :: e.name
  }

  /** The last entry with a given name decides that category's fields. */
  lemma {:induction false} LastEntryWins(values: Values, entries: seq<Entry>, j: nat)
    requires j < |entries|
    requires forall k :: j < k < |entries| ==> entries[k].name != entries[j].name
    ensures entries[j].name in ApplyEntries(values, entries)
    ensures ApplyEntries(values, entries)[entries[j].name] == Stored(entries[j])
  {
    if j < |entries| - 1 {
      var init := entries[..|entries| - 1];
      LastEntryWins(values, init, j);
    }
  }

  /** A category no entry names keeps its fields. */
  lemma {:induction false} UnnamedUnchanged(values: Values, entries: seq<Entry>, n: string)
    requires forall k :: 0 <= k < |entries| ==> entries[k].name != n
    ensures n in ApplyEntries(values, entries) <==> n in values
    ensures n in values ==> ApplyEntries(values, entries)[n] == values[n]
  {
    if entries != [] {
      UnnamedUnchanged(values, entries[..|entries| - 1], n);
    }
  }

  /** The fields afterwards are the old ones plus one per name in the entries. */
  lemma {:induction false} ApplyEntriesKeys(values: Values, entries: seq<Entry>)
    ensures ApplyEntries(values, entries).Keys == values.Keys + Names(entries)
  {
    if entries != [] {
      var init := entries[..|entries| - 1];
      ApplyEntriesKeys(values, init);
      assert entries == init + [entries[|entries| - 1]];
      assert Names(entries) == Names(init) + {entries[|entries| - 1].name};
    }
  }

  /** What one `load_values` call does: the fields afterwards, the url it requested
      (none when it raised before building one) and the exception it raised, if any. */
  datatype LoadOutcome = LoadOutcome(values: Values, requested: Option<string>, error: Option<Error>)

  function Load(domain: string, values: Values, fetch: string -> Response): (r: LoadOutcome)
    ensures r.requested.None? <==> domain == ""
    ensures r.requested.Some? ==> r.requested.value == API_PREFIX + domain
    ensures r.error == Some(DomainRequiredError) <==> domain == ""
    ensures r.error.Some? ==> r.values == values
    ensures r.error.None? ==> fetch(GetApiUrl(domain)).Fetched? &&
                              r.values == ApplyEntries(values, fetch(GetApiUrl(domain)).entries)
    ensures domain != "" ==> (r.error.None? <==> fetch(GetApiUrl(domain)).Fetched?)
    ensures r.error == Some(FetchError) <==> domain != "" && fetch(GetApiUrl(domain)).FetchFailed?
  {
    if domain == "" then LoadOutcome(values, None, Some(DomainRequiredError))
    else
      var url := GetApiUrl(domain);
      match fetch(url)
      case FetchFailed => LoadOutcome(values, Some(url), Some(FetchError))
      case Fetched(entries) => LoadOutcome(ApplyEntries(values, entries), Some(url), None)
  }

  // ---------------------------------------------------------------------------------------
  // The stored records and the cache policy

  /** A stored row: its `last_update` and its columns. The domain is the row's key. */
  datatype Row = Row(lastUpdate: int, values: Values)

  /** The fields of a `Target` object. */
  datatype Record = Record(domain: string, lastUpdate: Option<int>, values: Values)

  /** What `save` writes: only the declared columns; attributes set for other category
      names stay on the object. */
  function Columns(values: Values): (c: Values)
    ensures c.Keys == values.Keys * CATEGORIES
    ensures forall n :: n in c ==> c[n] == values[n]
  {
    map n | n in values && n in CATEGORIES :: values[n]
  }

  /** `(now - last_update).days`: whole days, rounded down as `timedelta.days` is. */
  function AgeInDays(lastUpdate: int, now: int): (days: int)
    ensures days * SECONDS_PER_DAY <= now - lastUpdate < (days + 1) * SECONDS_PER_DAY
  {
    (now - lastUpdate) / SECONDS_PER_DAY
  }

  predicate IsExpired(lastUpdate: int, now: int, expirationDays: int) {
    AgeInDays(lastUpdate, now) > expirationDays
  }

  /** A record expires once `expirationDays + 1` whole days have passed, not before. */
  lemma ExpiredIff(lastUpdate: int, now: int, expirationDays: int)
    ensures IsExpired(lastUpdate, now, expirationDays) <==>
            now - lastUpdate >= (expirationDays + 1) * SECONDS_PER_DAY
  {
    var d := AgeInDays(lastUpdate, now);
    if d > expirationDays {
      assert (expirationDays + 1) * SECONDS_PER_DAY <= d * SECONDS_PER_DAY;
    } else {
      assert (d + 1) * SECONDS_PER_DAY <= (expirationDays + 1) * SECONDS_PER_DAY;
    }
  }

  /** The result of one `get_or_create_object` call: the returned object's fields, the rows
      afterwards and the url requested from the service, if any. */
  datatype Call = Call(target: Record, rows: map<string, Row>, requested: Option<string>)

  function RecordOf(domain: string, row: Row): Record {
    Record(domain, Some(row.lastUpdate), row.values)
  }

  /** `load_values` then `save` on an object, with the `finally: return target` that
      swallows the exception when the load fails. */
  function LoadAndSave(t: Record, rows: map<string, Row>, now: int, fetch: string -> Response): (r: Call)
    ensures r.requested == Load(t.domain, t.values, fetch).requested
    ensures Load(t.domain, t.values, fetch).error.Some? ==> r.target == t && r.rows == rows
    ensures Load(t.domain, t.values, fetch).error.None? ==>
              r.target == Record(t.domain, Some(now), Load(t.domain, t.values, fetch).values) &&
              r.rows == rows[t.domain := Row(now, Columns(r.target.values))]
  {
    var l := Load(t.domain, t.values, fetch);
    if l.error.Some? then Call(t, rows, l.requested)
    else Call(t.(lastUpdate := Some(now), values := l.values),
              rows[t.domain := Row(now, Columns(l.values))], l.requested)
  }

  /** The policy of `get_or_create_object`. */
  function GetOrCreate(rows: map<string, Row>, domain: string, now: int, expirationDays: int,
                       fetch: string -> Response): (r: Call)
    ensures r.target.domain == domain
    ensures r.requested.Some? ==> r.requested.value == API_PREFIX + domain
    ensures r.requested.None? ==> r.rows == rows
    ensures r.rows != rows ==>
              r.target.lastUpdate == Some(now) && r.rows == rows[domain := Row(now, Columns(r.target.values))]
  {
    if domain !in rows then
      LoadAndSave(Record(domain, None, UnsetValues()), rows, now, fetch)
    else if IsExpired(rows[domain].lastUpdate, now, expirationDays) then
      LoadAndSave(RecordOf(domain, rows[domain]), rows, now, fetch)
    else
      Call(RecordOf(domain, rows[domain]), rows, None)
  }

  /** The returned object has the requested domain, and no row but that domain's changes:
      there is never a second record for it, nor a change to another. */
  lemma OnlyThisDomainChanges(rows: map<string, Row>, domain: string, now: int, expirationDays: int,
                              fetch: string -> Response)
    ensures var r := GetOrCreate(rows, domain, now, expirationDays, fetch);
      r.target.domain == domain &&
      r.rows.Keys <= rows.Keys + {domain} &&
      rows.Keys <= r.rows.Keys &&
      forall d :: d in rows && d != domain ==> r.rows[d] == rows[d]
  {
  }

  /** A domain not yet stored is created, loaded and saved: afterwards its one row holds the
      loaded columns and `now`. */
  lemma AbsentDomainIsCreated(rows: map<string, Row>, domain: string, now: int, expirationDays: int,
                              fetch: string -> Response)
    requires domain !in rows && domain != ""
    requires fetch(GetApiUrl(domain)).Fetched?
    ensures var r := GetOrCreate(rows, domain, now, expirationDays, fetch);
      var loaded := ApplyEntries(UnsetValues(), fetch(GetApiUrl(domain)).entries);
      r.requested == Some(API_PREFIX + domain) &&
      r.target == Record(domain, Some(now), loaded) &&
      r.rows == rows[domain := Row(now, Columns(loaded))]
  {
  }

  /** A stored record at most `expirationDays` whole days old is returned as stored, and the
      service is not asked. */
  lemma FreshRecordIsKept(rows: map<string, Row>, domain: string, now: int, expirationDays: int,
                          fetch: string -> Response)
    requires domain in rows
    requires now - rows[domain].lastUpdate < (expirationDays + 1) * SECONDS_PER_DAY
    ensures GetOrCreate(rows, domain, now, expirationDays, fetch) ==
            Call(RecordOf(domain, rows[domain]), rows, None)
  {
    ExpiredIff(rows[domain].lastUpdate, now, expirationDays);
  }

  /** A stored record more than `expirationDays` whole days old is reloaded in place and saved,
      and its `last_update` becomes `now`. */
  lemma StaleRecordIsRefreshed(rows: map<string, Row>, domain: string, now: int, expirationDays: int,
                               fetch: string -> Response)
    requires domain in rows && domain != ""
    requires now - rows[domain].lastUpdate >= (expirationDays + 1) * SECONDS_PER_DAY
    requires fetch(GetApiUrl(domain)).Fetched?
    ensures var r := GetOrCreate(rows, domain, now, expirationDays, fetch);
      var loaded := ApplyEntries(rows[domain].values, fetch(GetApiUrl(domain)).entries);
      r.requested == Some(API_PREFIX + domain) &&
      r.target == Record(domain, Some(now), loaded) &&
      r.rows == rows[domain := Row(now, Columns(loaded))]
  {
    ExpiredIff(rows[domain].lastUpdate, now, expirationDays);
  }

  /** When the load fails (empty domain or failed fetch) the store is left as it was and the
      object is returned as it was before the load: unsaved on the create path, stale with
      its old `last_update` on the refresh path. */
  lemma FailedLoadChangesNothing(rows: map<string, Row>, domain: string, now: int, expirationDays: int,
                                 fetch: string -> Response)
    requires domain == "" || fetch(GetApiUrl(domain)).FetchFailed?
    ensures var r := GetOrCreate(rows, domain, now, expirationDays, fetch);
      r.rows == rows &&
      r.target == (if domain in rows then RecordOf(domain, rows[domain])
                   else Record(domain, None, UnsetValues()))
  {
  }

  /** Two calls in a row at the same time, when the service answers: the second asks the
      service nothing, changes nothing and returns what the first left stored. */
  lemma SecondCallIsServedFromStore(rows: map<string, Row>, domain: string, now: int,
                                    expirationDays: int, fetch: string -> Response,
                                    fetch2: string -> Response)
    requires domain != "" && expirationDays >= 0
    requires fetch(GetApiUrl(domain)).Fetched?
    ensures var r1 := GetOrCreate(rows, domain, now, expirationDays, fetch);
      var r2 := GetOrCreate(r1.rows, domain, now, expirationDays, fetch2);
      domain in r1.rows &&
      r2.requested == None &&
      r2.rows == r1.rows &&
      r2.target == RecordOf(domain, r1.rows[domain]) &&
      r2.target.lastUpdate == r1.target.lastUpdate &&
      r2.target.values == (if r1.requested.Some? then Columns(r1.target.values) else r1.target.values)
  {
    var r1 := GetOrCreate(rows, domain, now, expirationDays, fetch);
    if r1.requested.Some? {
      assert r1.rows[domain].lastUpdate == now;
      ExpiredIff(now, now, expirationDays);
    }
  }

  /** With no `MYWOT_EXPIRATION_DAYS` setting, a record is kept through its 180th whole day
      and refreshed from the 181st on. */
  lemma DefaultExpirationPolicy(rows: map<string, Row>, domain: string, now: int,
                                fetch: string -> Response)
    requires domain in rows && domain != ""
    ensures var age := now - rows[domain].lastUpdate;
      var r := GetOrCreate(rows, domain, now, ExpirationDays(None), fetch);
      (age < 181 * 86400 ==> r == Call(RecordOf(domain, rows[domain]), rows, None)) &&
      (age >= 181 * 86400 ==> r.requested == Some(API_PREFIX + domain))
  {
    ExpiredIff(rows[domain].lastUpdate, now, ExpirationDays(None));
  }

  // ---------------------------------------------------------------------------------------
  // The objects

  /** A `Target` object in memory. */
  class Target {
    var domain: string
    var lastUpdate: Option<int>
    var values: Values

    /** `Target(domain=domain)`: every column null and no `last_update` until saved. */
    constructor (domain: string)
      ensures this.domain == domain && lastUpdate == None && values == UnsetValues()
    {
      this.domain := domain;
      lastUpdate := None;
      values := UnsetValues();
    }

    function Fields(): Record
      reads this
    {
      Record(domain, lastUpdate, values)
    }

    /** `Target.load_values`: raises `DomainRequiredError` for an empty domain before any url
        is built; otherwise requests the url and overwrites the fields of each entry in turn. */
    method LoadValues(fetch: string -> Response) returns (requested: Option<string>, error: Option<Error>)
      modifies this`values
      ensures var l := Load(domain, old(values), fetch);
        values == l.values && requested == l.requested && error == l.error
    {
      if domain == "" {
        return None, Some(DomainRequiredError);
      }
      var url := GetApiUrl(domain);
      requested := Some(url);
      var response := fetch(url);
      if response.FetchFailed? {
        return requested, Some(FetchError);
      }
      var entries := response.entries;
      for i := 0 to |entries|
        invariant values == ApplyEntries(old(values), entries[..i])
      {
        var e := entries[i];
        assert entries[..i + 1][..i] == entries[..i];
        values := values[e.name := Stored(e)];
      }
      assert entries[..|entries|] == entries;
      error := None;
    }

    /** `save`: `last_update` is set to now and the row of this domain is written. */
    method Save(objects: Store, now: int)
      modifies this`lastUpdate, objects
      ensures lastUpdate == Some(now)
      ensures objects.rows == old(objects.rows)[domain := Row(now, Columns(values))]
    {
      lastUpdate := Some(now);
      objects.rows := objects.rows[domain := Row(now, Columns(values))];
    }
  }

  /** `Target.objects`: the stored rows, keyed by the unique domain. */
  class Store {
    var rows: map<string, Row>

    /** `Target.objects.get(domain=domain)`: a new object holding the stored row, or `null`
        where the source raises `DoesNotExist`. */
    method Get(domain: string) returns (target: Target?)
      ensures (target == null) == (domain !in rows)
      ensures target != null ==> fresh(target) && target.Fields() == RecordOf(domain, rows[domain])
    {
      if domain !in rows {
        return null;
      }
      var row := rows[domain];
      target := new Target(domain);
      target.lastUpdate := Some(row.lastUpdate);
      target.values := row.values;
    }
  }

  /** `Target.get_or_create_object`: the object for the domain, created and saved when absent,
      reloaded and saved when expired; a failed load is swallowed and the object returned. */
  method GetOrCreateObject(objects: Store, domain: string, now: int, setting: Option<int>,
                           fetch: string -> Response)
    returns (target: Target, requested: Option<string>)
    modifies objects
    ensures fresh(target)
    ensures var call := GetOrCreate(old(objects.rows), domain, now, ExpirationDays(setting), fetch);
      target.Fields() == call.target && objects.rows == call.rows && requested == call.requested
  {
    var found := objects.Get(domain);
    var error: Option<Error> := None;
    if found == null {
      target := new Target(domain);
      requested, error := target.LoadValues(fetch);
      if error.None? {
        target.Save(objects, now);
      }
    } else {
      target := found;
      requested := None;
      var age := AgeInDays(target.lastUpdate.value, now);
      if age > ExpirationDays(setting) {
        requested, error := target.LoadValues(fetch);
        if error.None? {
          target.Save(objects, now);
        }
      }
    }
  }
}
