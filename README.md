# URL shortener core: slug allocator and link registry

A Dafny model of the logic in `main.py` of a FastAPI URL shortener: the
`Links` table (slug -> url, views), the random slug generator and its retry
loop, `add_link` with its ordered checks (characters, then length, then
existence), URL normalisation (`http://` is prepended unless the URL already
starts with `http://` or `https://`), `get_link`, `redirect_link` (one more
view per redirect), `get_links_count`, and the route handlers that lower-case
the slug before calling into the core.

Modules:

- `Wrappers` (wrappers.dfy): `Option` and `Result`, used where the source raises.
- `Slugs` (slugs.dfy): the 36-character alphabet, the letter-or-digit test, the
  routes' lower-casing, the generator `GenUrlSlug` with its inverse `DrawOf`,
  and `ScanSlugCharacters`, the character loop of `add_link`.
- `Urls` (urls.dfy): `NormalizeUrl` and its properties.
- `Registry` (registry.dfy): the `LinkRegistry` class, whose `links: map<string, Link>`
  field stands for the table. It has the methods `GenValidUrlSlug`, `AddLink`,
  `GetLink`, `RedirectLink` and `Count`. The module also holds `CheckSlug` (the
  checks of `add_link` in order), the invariant `WellFormed`, and the view-count
  lemmas.
- `Routes` (routes.dfy): `add_short_url`, `get_link_info`, `redirect_to_the_url`.
  They lower-case the slug. They also keep the invariant that every key uses
  only the 36-character alphabet.
- `Findings` (findings.dfy): the slug handling of main.py:63 and main.py:117
  exactly as written, next to the intended behaviour.

Randomness is a parameter. One draw is a `seq<nat>`: its length is what
`randint(4, 6)` returned, and its entries are the alphabet positions that
`choice` picked. `GenValidUrlSlug` receives the draws in order. It requires
one of them to be a free slug, because that is the only way the source's
`while True` loop returns. It promises that the result is the first free
candidate, that it is well formed, and that it is not a key.

Behaviour of the code worth knowing, as the model captures it:

- The character check of `add_link` accepts any letter or digit, upper-case
  ASCII letters included (main.py:64-68). Slugs that arrive through the
  routes are lower-cased first (main.py:117). In this ASCII model every stored
  key therefore uses only `a-z0-9` (`Routes.AddShortUrl` keeps
  `KeysInAlphabet`).
- The maximum slug length is 20 (main.py:69). That is the `max_length` of the key column (main.py:20).
- The view increment reads the count, adds one and writes it back in a
  separate update (main.py:104-106). It is not atomic. The model runs it as one
  sequential step.
- There is no reserved-slug check.
- The existence check at main.py:74 tests the raw argument `slug` instead of
  the resolved `theslug`. The model checks the resolved slug.
  `Findings.RawSlugExistenceCheckAgrees` proves that in a sequential run both
  checks give the same answer. The reason: a slug that is absent or empty is
  never a key, and the generated slug is already known to be free.

## Model

| member | source | states |
|---|---|---|
| Slugs.IsAlpha | main.py:65 | `isalpha` (ASCII): a character is a letter exactly when lower-casing it gives a-z |
| Slugs.IsDigit | main.py:65 | `isdigit` (ASCII): the digits are exactly the last ten characters of the alphabet |
| Slugs.IsSlugCharacter | main.py:65 | the per-character test `isalpha() or isdigit()` accepts every character of the 36-character alphabet |
| Slugs.LowerChar | main.py:117 | `str.lower` on one character: A-Z map to a-z by a fixed offset, other characters are unchanged, no upper-case ASCII letter results |
| Slugs.Lower | main.py:117 | `slug.lower()` keeps the length and leaves no upper-case ASCII letter |
| Slugs.GenUrlSlug | main.py:47-50 | a generated slug has 4 to 6 characters, all from the 36-character alphabet |
| Slugs.GenUrlSlugReachesEveryShape | main.py:47-50 | every 4-to-6 character string over the alphabet is produced by some draw (DrawOf is a right inverse) |
| Slugs.GenUrlSlugInjective | main.py:47-50 | distinct draws give distinct slugs: DrawOf recovers the draw from the slug |
| Slugs.AlphabetIsLowerAlphanumeric | main.py:28 | the alphabet constant holds exactly the lower-case ASCII letters and the ten digits |
| Slugs.GeneratedShapeIsValidSyntax | main.py:47-72 | every generated slug passes the character check and the 4–20 length check of add_link |
| Slugs.LowerProperties | main.py:117-135 | lower-casing keeps the length, is idempotent and does not change whether the slug passes the letter-or-digit check |
| Slugs.LoweredSlugCharactersAreAlphabet | main.py:64-68 | after lower-casing, "every character is a letter or a digit" is equivalent to "every character is in the alphabet" |
| Slugs.AlphabetStringIsLower | main.py:28 | a string over the alphabet is unchanged by lower-casing, so every such key can be reached by a lookup |
| Slugs.ScanSlugCharacters | main.py:64-68 | the character loop accepts exactly when every character is a letter or a digit |
| Urls.HasScheme | main.py:76 | `re.match(r"^https?://", url)`: a URL with a scheme has at least seven characters |
| Urls.HasSchemeMatchesPattern | main.py:76 | the test matches exactly `http`, an optional `s`, then `://` at the start of the URL |
| Urls.NormalizeUrl | main.py:76 | the stored URL always starts with http:// or https://; a URL that already does is kept unchanged, any other URL gets http:// prepended |
| Urls.NormalizeUrlIdempotent | main.py:76 | normalising twice gives the same result as normalising once |
| Urls.NormalizeUrlKeepsOriginal | main.py:76 | the given URL is the suffix of the result, and the result is at most seven characters longer |
| Urls.NormalizeUrlExamples | main.py:76 | example.com becomes http://example.com; https://example.com is kept; the scheme match is case-sensitive |
| Registry.Provided | main.py:63 | Python's `slug or ...` treats exactly an absent slug and the empty string as "no slug given" |
| Registry.CheckSlug | main.py:64-80 | add_link's checks accept exactly the slugs that have only letters or digits, have length 4–20 and are not stored |
| Registry.CharacterCheckComesFirst | main.py:64-68 | a bad character is reported as the character error, whatever the length and whatever the registry holds |
| Registry.LengthCheckPrecedesExistence | main.py:69-74 | a slug that only fails the length check gets the length error, even when it is stored |
| Registry.SyntaxErrorsIgnoreRegistry | main.py:64-74 | character and length errors are the same whatever the registry holds |
| Registry.StoredSlugIsAlreadyExists | main.py:74-80 | in a well-formed registry, submitting a stored slug always gets the already-exists error |
| Registry.FreshGeneratedSlugPassesChecks | main.py:53-80 | a generated slug that is not stored passes every check of add_link |
| Registry.Redirected | main.py:104-106 | one view keeps the set of stored slugs |
| Registry.RedirectedTimes | main.py:99-107 | any number of views keeps the set of stored slugs |
| Registry.RedirectedTimesCounts | main.py:99-107 | n sequential redirects raise that link's views by exactly n, keep its URL and leave every other link unchanged |
| Registry.RedirectedWellFormed | main.py:104-106 | a view keeps the registry invariant (legal keys, URLs with a scheme) |
| Registry.RepeatedRedirects | main.py:99-107 | calling RedirectLink n times in a row leaves the table as RedirectedTimes says: that link gains exactly n views and keeps its URL |
| Registry.InsertGrowsByOne | main.py:77 | inserting a slug that is not stored raises the number of links by one |
| Registry.LinkRegistry.constructor | main.py:19-24 | a new table is empty and well formed |
| Registry.LinkRegistry.GenValidUrlSlug | main.py:53-59 | if the loop returns, its slug is well formed, not stored, and the first draw that was free |
| Registry.LinkRegistry.AddLink | main.py:62-80 | on error nothing changes; when a slug is given, the first failing check (characters, length, existence) decides the error; a stored slug is never overwritten; success adds exactly one new key with the normalised URL and 0 views, and the count grows by 1; without a slug, the first supplied draw whose slug is not stored is used |
| Registry.LinkRegistry.GetLink | main.py:83-96 | returns the stored URL and views of a stored slug, or the does-not-exist error; it changes nothing |
| Registry.LinkRegistry.RedirectLink | main.py:99-107 | a stored slug: returns its URL, raises its views by exactly 1, changes nothing else; an unknown slug: the does-not-exist error, nothing changes |
| Registry.LinkRegistry.Count | main.py:110-111 | returns the number of stored links |
| Routes.RouteSlug | main.py:115-118 | the route passes the given slug lower-cased; a slug that is absent or empty is passed on as not given |
| Routes.LookupIsCaseInsensitive | main.py:122-125 | when keys use only the alphabet, a request reaches a key exactly when it equals that key up to case |
| Routes.AddShortUrl | main.py:114-118 | add_link on the lower-cased slug; keeps every key within the 36-character alphabet; an omitted or empty slug gets the first free generated candidate |
| Routes.GetLinkInfo | main.py:121-125 | a case-insensitive lookup: the result for a request slug is the record stored under its lower-cased form |
| Routes.RedirectToTheUrl | main.py:133-136 | a case-insensitive redirect: returns the URL stored under the lower-cased slug and adds one view to it |
| Routes.MixedCaseScenario | main.py:114-136 | creating abcd -> http://a.com and redirecting ABCD gives http://a.com and one view |
| Findings.SlugForChecksAsWritten | main.py:62-63 | as written, only a given slug that is non-empty after lower-casing reaches the checks, in lower case |
| Findings.OmittedSlugFailsAsWritten | main.py:115-118 | as written, an absent slug fails with AttributeError and an empty one with NameError; the intended route sends both to generation |
| Findings.GivenSlugAgreesAsWritten | main.py:115-118 | for a non-empty given slug, the code as written and the intended route send the same slug to the checks |
| Findings.ExistenceCheckAsWritten | main.py:74 | as written, the check asks about the raw argument: false when the slug is absent, and the lookup of "" when it is empty |
| Findings.RawSlugExistenceCheckAgrees | main.py:74-77 | sequentially, the existence check on the raw argument agrees with the check on the resolved slug |

## Findings

| source | as written | input that shows it | evidently intended | confidence | as-written member | corrected member |
|---|---|---|---|---|---|---|
| main.py:117 | `slug.lower()` is called on the optional `slug` | `/add?url=example.com` with no `slug`: AttributeError on None | an absent slug asks `add_link` to generate one | high, not executed | Findings.SlugForChecksAsWritten, Findings.OmittedSlugFailsAsWritten | Routes.AddShortUrl |
| main.py:63 | `slug or gen_calid_url_slug()` names a function that does not exist | `/add?url=example.com&slug=` (empty slug): NameError | call `gen_valid_url_slug` | high, not executed | Findings.SlugForChecksAsWritten, Findings.OmittedSlugFailsAsWritten | Registry.LinkRegistry.AddLink |

## Left out

- FastAPI routing, the `host` header and the `link` field built from it, the 500 exception handler, the Tortoise/SQLite setup, `uvicorn.run` and loguru logging. These are framework and I/O plumbing.
- The `/all` route only wraps `get_links_count` in a dictionary. It is covered by `Registry.LinkRegistry.Count`.
- `created_at` and `last_db_change_at`: the database clock sets them.
- `secrets.choice` and `random.randint`. They are replaced by caller-supplied draws, so uniform and unpredictable choice is not modelled.
- Registry.LinkRegistry.GenValidUrlSlug: the source retries forever. The model requires a free candidate among the supplied draws, so it does not capture non-termination when every draw collides.
- Slugs.ScanSlugCharacters: Python's `isalpha()`/`isdigit()` also accept non-ASCII letters and digits (such as `é`). The model accepts only ASCII letters and digits. In the same way, `Slugs.Lower` models `str.lower()` on ASCII only. `Routes.AddShortUrl`'s invariant `KeysInAlphabet` and `Routes.LookupIsCaseInsensitive` depend on this restriction. In Python, `/add?url=x&slug=ÄÄÄÄ` is lower-cased to `ääää`, passes the character check and is stored as a key outside `a-z0-9`.
- Registry.LinkRegistry.RedirectLink: views are an unbounded `nat`. The 32-bit range of the integer column is not modelled.
- Concurrency: the read-add-write view increment and the check-then-insert of `add_link` can race under concurrent requests. The model is single-threaded and sequential.
- Click analytics, GeoIP lookup, reserved slugs, user-agent parsing and QR codes. None of them is in `main.py`.
