# django-mywot `Target` model in Dafny

django-mywot keeps a local cache of domain-reputation records fetched from the MyWOT web
service. This project models the `Target` model of `src/mywot/models.py`:

- **`clean`** validates a domain against `DOMAIN_RE` and returns it lower-cased, or raises
  `ValidationError`. The pattern is modelled twice in `domain_syntax.dfy`. The reference is a
  grammar, `MatchesDomainRe`: one or more labels, each followed by a dot, then a top label of 2 to
  6 letters, then an optional dot. `Accepts` is a label-by-label recogniser that splits the string
  on dots. `AcceptsIffMatches` proves the two agree, and `AcceptsIgnoresCase` proves the match
  ignores case, as `re.IGNORECASE` demands.
- **`get_api_url`** substitutes the domain for the `%s` of `MYWOT_API`.
- **`load_values`** raises `DomainRequiredError` for an empty domain before any url is built.
  Otherwise it fetches the url and overwrites `reputation_<n>` and `confidence_<n>` entry by entry.
  `Target` is a class whose fields are the domain, `last_update` and a map from category name to
  the pair of values. `LoadValues` is a loop proved against the fold `ApplyEntries`.
- **`get_or_create_object`** works on a `Store`, the table of rows keyed by domain. It creates,
  keeps or refreshes a record. Its `finally: return target` swallows a failed load. The method
  `GetOrCreateObject` is proved against the pure policy `GetOrCreate`, and the lemmas beside
  that policy state its guarantees.

The outside world is passed in as parameters:

- The clock is a whole number of seconds, `now`.
- The web service plus the XML parse is a function `fetch` from url to `Response`: either the
  parsed `(name, r, c)` entries or a failure.
- The `MYWOT_EXPIRATION_DAYS` setting is the `setting` parameter of `GetOrCreateObject`, which
  uses `ExpirationDays(setting)`: the setting when present, otherwise 180.

Behaviour as written, which the model follows:

- `get_or_create_object` does not clean or normalise its argument. Whatever string it gets is the
  lookup key, and no scheme or path is stripped.
- A failed fetch on a new domain does not raise. The unsaved shell is returned, with null fields
  and no `last_update`.
- A failed refresh returns the stale record unchanged.
- `save` persists only the declared columns (categories 0, 1, 2 and 4). A `setattr` for any other
  category name stays on the returned object only (`Columns`).
- The attribute values are text, as `getAttribute` returns them.

## Model

| member | source | states |
|---|---|---|
| DomainSyntax.MatchesDomainRe | src/mywot/models.py:41-44 | the reference grammar of `DOMAIN_RE`: some decomposition into one or more labels each followed by a dot, a top label and an optional dot |
| DomainSyntax.Accepts | src/mywot/models.py:41-44 | the label-by-label recogniser: strip one trailing dot, split on dots, every part but the last a label, the last a top label |
| DomainSyntax.Lower | src/mywot/models.py:55 | `lower()`: same length; each upper-case ASCII letter becomes its lower-case letter (code plus 32), every other character is kept, so no upper-case ASCII letter is left |
| DomainSyntax.AcceptsIffMatches | src/mywot/models.py:41-44 | the label-by-label recogniser accepts a string exactly when it decomposes into labels of 1-63 characters of letters, digits and hyphens with alphanumeric ends, each followed by a dot, then a 2-6 letter top label and an optional dot |
| DomainSyntax.AcceptsIgnoresCase | src/mywot/models.py:43 | a string is accepted exactly when its lower-cased form is (case-insensitive match) |
| DomainSyntax.MatchedAlphabet | src/mywot/models.py:42 | a matching string contains only letters, digits, hyphens and dots |
| DomainSyntax.LowerIdempotent | src/mywot/models.py:55 | lower-casing twice is lower-casing once |
| Models.Clean | src/mywot/models.py:51-57 | succeeds exactly when the domain matches the pattern, returning the lower-cased domain; otherwise fails with ValidationError; it is a function, so the object's domain is untouched |
| Models.CleanIdempotent | src/mywot/models.py:54-55 | cleaning an accepted domain's output returns that output again |
| Models.CleanIgnoresCase | src/mywot/models.py:41-44 | two strings equal up to case are cleaned to the same result or the same error |
| Models.CleanedDomainIsNonEmpty | src/mywot/models.py:54-65 | an accepted domain has at least four characters, so it never triggers DomainRequiredError |
| Models.CleanMixedCase | src/mywot/models.py:54-55 | "www.Example.COM" is cleaned to "www.example.com" |
| Models.CleanTrailingDot | src/mywot/models.py:42 | "example.com." is accepted with its trailing dot |
| Models.CleanRejectsSpaces | src/mywot/models.py:56-57 | "not a domain" is rejected with ValidationError |
| Models.CleanRejectsSlashes | src/mywot/models.py:56-57 | "///" is rejected with ValidationError |
| Models.Interpolate | src/mywot/models.py:82 | Python's `%` for a template with one `%s`: the argument replaces the first `%s` (InterpolateAfter proves this for a prefix without `%`) |
| Models.GetApiUrl | src/mywot/models.py:79-82 | the url is the fixed prefix (leading space included) followed by the domain, from which the domain is recovered |
| Models.ApiUrlInjective | src/mywot/models.py:82 | different domains give different urls |
| Models.UnsetValues | src/mywot/models.py:25-35 | a new object has exactly the categories 0, 1, 2 and 4, all null |
| Models.ExpirationDays | src/mywot/models.py:13 | the setting if defined, otherwise 180 |
| Models.ApplyEntries | src/mywot/models.py:73-76 | the fields after each entry's `setattr` in turn: no category disappears, and every category added holds a reputation and a confidence |
| Models.LastEntryWins | src/mywot/models.py:73-76 | after the entries are applied, a category holds the r and c of the last entry with its name |
| Models.UnnamedUnchanged | src/mywot/models.py:73-76 | a category that no entry names keeps its presence and its values |
| Models.ApplyEntriesKeys | src/mywot/models.py:73-76 | the categories afterwards are the old ones plus the names of the entries |
| Models.Load | src/mywot/models.py:60-76 | no url is requested and DomainRequiredError is raised exactly when the domain is empty; otherwise the url requested is the API url; FetchError is raised exactly when the domain is non-empty and its fetch fails; for a non-empty domain nothing is raised exactly when the fetch succeeds, and then the fetched entries are applied; a failure leaves the values as they were |
| Models.Columns | src/mywot/models.py:25-35 | what is saved is exactly the declared category columns of the object's values |
| Models.AgeInDays | src/mywot/models.py:101 | the age in whole days, rounded down: days * 86400 <= now - last_update < (days + 1) * 86400 |
| Models.IsExpired | src/mywot/models.py:101-102 | the test `delta.days > MYWOT_EXPIRATION_DAYS` on the age in whole days (ExpiredIff gives its meaning in seconds) |
| Models.ExpiredIff | src/mywot/models.py:101-102 | a record is expired exactly when at least expirationDays + 1 whole days have passed |
| Models.LoadAndSave | src/mywot/models.py:95-108 | load then save with the `finally` return: the url requested is the load's; a failed load returns the object unchanged and leaves the store as it was; a successful one returns the object stamped now with the loaded values and writes exactly that domain's row |
| Models.GetOrCreate | src/mywot/models.py:85-108 | the policy of `get_or_create_object`: the returned object has the requested domain; any url requested is that domain's API url; without a request the store is unchanged; any change to the store is that domain's row written with now and the returned object's columns |
| Models.OnlyThisDomainChanges | src/mywot/models.py:89-108 | the returned object has the requested domain; no row is removed, at most the requested domain's row is added or changed, and every other row is unchanged |
| Models.AbsentDomainIsCreated | src/mywot/models.py:93-97 | for an absent non-empty domain whose fetch succeeds, the returned object holds the loaded values and now, and the store gains exactly that domain's row with the declared columns |
| Models.FreshRecordIsKept | src/mywot/models.py:99-102 | a stored record less than expirationDays + 1 days old is returned as stored, with no request and no change to the store |
| Models.StaleRecordIsRefreshed | src/mywot/models.py:99-104 | an older record is reloaded in place and saved, with last_update set to now |
| Models.FailedLoadChangesNothing | src/mywot/models.py:93-108 | when the domain is empty or the fetch fails, the store is unchanged and the object is returned as it was before loading: the unsaved shell, or the stale record |
| Models.DefaultExpirationPolicy | src/mywot/models.py:13-102 | with the default of 180 days, a stored record less than 181 days old is returned as stored with no request, and an older one is requested again |
| Models.SecondCallIsServedFromStore | src/mywot/models.py:89-108 | when the service answers, a second call at the same moment asks nothing, changes nothing and returns what the first call stored |
| Models.Target.constructor | src/mywot/models.py:20-35 | a new object has the given domain, no last_update and all columns null |
| Models.Target.LoadValues | src/mywot/models.py:60-76 | the values, the requested url and the raised error are those of Load on the old values |
| Models.Target.Save | src/mywot/models.py:23 | last_update becomes now and the domain's row is written with the declared columns |
| Models.Store.Get | src/mywot/models.py:91 | null exactly when the domain is absent; otherwise a new object holding the stored row |
| Models.GetOrCreateObject | src/mywot/models.py:85-108 | the returned object, the new store and the requested url are those of GetOrCreate on the old store, with the expiration taken from the setting or 180 by default |

## Left out

- Network and XML: `urlopen` and `minidom.parse` are the `fetch` parameter. A response whose
  children are not all entries is not modelled. For example, a whitespace text node would make
  `getAttribute` raise part-way through the loop.
- Models.Clean: a domain followed by a single newline is rejected. Python's `$` matches before a
  final newline, so the source accepts such a domain and returns it with the newline.
- Models.Clean: case folding is ASCII-only, which is what the pattern does without the UNICODE flag.
  `lower()` is modelled as ASCII lower-casing. The two agree on every string the pattern accepts.
- Models.Target.Save: the Django ORM is modelled by a map of rows keyed by the unique domain.
  Left out are the field declarations, the conversion of the attribute text to integers when saving,
  and its `ValueError`, which the `finally` would also swallow.
- Models.GetOrCreateObject: one `now` stands for both `datetime.now()` and the later `auto_now`
  time of `save`. Timestamps are whole seconds.
- Concurrent first access to the same domain, and the duplicate insert it can cause:
  concurrency is not modelled.
- `__unicode__`, which only returns the domain, is not modelled.
- The score, label and image methods that the template tags call are not part of this model.
  Their source is not among the files modelled. The template tags themselves
  (`src/mywot/templatetags/mywot_tags.py`) and `setup.py` are glue and packaging.
