# taiyaki background classifier, in Dafny

This project models the background service worker of the taiyaki browser extension
(`scripts/background.js`). The worker decides what happens when a tab finishes loading a page:

- The first guard drops an event that is not `complete`, has no URL, or shows a browser page
  (`chrome://`, `chrome-extension://`). An event whose URL gives no hostname is dropped too.
- The visit is recorded through an insert-history request. At most one such request per host is
  outstanding at a time, and that is tracked in the global `activeRequests` set.
- Three tests run in order:
  - the alias test looks for `@` in the hostname;
  - the HTTP test checks for a `http://` prefix on the URL;
  - the TLD test is a first-match suffix search over the recognised suffixes
    (`.moe.edu.sg`, `.edu.sg`, `.edu`, `.gov.sg`, `.gov`, `.bnpparibas`), then over the
    whitelisted ones (`.net`, `.com`, `.org`, `.com.sg`, `.sg`).
- Every test that trips sends one `/query` request to the reputation index.
- The badge is then written `100`/green.
- When a `/query` answer comes back, the index is searched case-insensitively for the host
  without one leading `www.`. An entry counts only when it is `indexed: true`. If `domains` is
  an array, every entry has a string `domainname` and none approves the host, the tab gets a red `0` badge and a `warn_user` message.

The model has one module per concern:

| module | contents |
|---|---|
| `Strings` | JavaScript's `startsWith`, `endsWith`, `includes` and `toLowerCase`, on `seq<char>` |
| `Heuristics` | `containsAlias` and `containsHttp` |
| `Tld` | the suffix constants, the classifier as a function and as the source's loop |
| `Effects` | the browser and network calls as values, and the badge they leave behind |
| `InsertHistory` | the `activeRequests` deduplication |
| `Reputation` | the handling of a `/query` answer |
| `Navigation` | the whole listener as a function of the event |
| `Background` | class `ServiceWorker`, whose methods change `activeRequests` and append to an effect log, each proved equal to the functions above |

The model follows the code as written, including these behaviours:

- The green badge is written after every navigation that gets past the early exits. The
  `some` callback never returns true, so `hasViolation` is always false by then. A later red
  warning overwrites it.
- A whitelisted suffix trips the TLD test: the callback tests `isWhiteListed === true`. The two
  sets are disjoint, so the TLD test trips exactly when the host is not recognised.
- The alias test is given the hostname, not the URL. A parsed hostname never holds the
  `user@` part of a URL.
- Every test that trips sends its own `/query` request, so one navigation can send up to three.
- Only one `www.` is removed, so stripping is not idempotent; the prefix test is
  case-sensitive.
- An empty hostname (for example from a `file:` URL) is falsy, so the event is dropped.
- An index entry whose `domainname` is not a string makes `find` throw. The error only reaches
  the `catch`, so no warning is shown even when no entry approves the host.

## Model

| member | source | states |
|---|---|---|
| Tld.TldSetsDisjoint | scripts/background.js:2-4 | no suffix is both recognised and whitelisted, and `ALL_TLDS` holds each suffix once, in insertion order |
| Tld.AllTldsPartitioned | scripts/background.js:2-4 | every suffix of `ALL_TLDS` is in exactly one of the two sets |
| Heuristics.ContainsAlias | scripts/background.js:37-39 | true exactly when some character of the string is `@` |
| Heuristics.ContainsHttp | scripts/background.js:46-48 | true exactly when the first seven characters are `http://` (case-sensitive) |
| Heuristics.HttpsNeverTripsHttp | scripts/background.js:46-48 | an `https://` URL never trips the HTTP test |
| Heuristics.UpperCaseSchemeNeverTripsHttp | scripts/background.js:46-48 | the prefix test is case-sensitive: `HTTP://` does not trip it |
| Tld.FirstSuffixIndex | scripts/background.js:60-66 | the index found is within the suffix list |
| Tld.FirstSuffixIndexIsFirstMatch | scripts/background.js:60-66 | the search finds the first suffix the host ends with, and finds none exactly when no suffix matches |
| Tld.CheckAndUpdateTldStatus | scripts/background.js:56-69 | the loop with `break` returns the flags of the first matching suffix of `ALL_TLDS`, or both false when none matches |
| Tld.ClassifyTldExclusive | scripts/background.js:56-69 | the two flags are never both true |
| Tld.ClassifyTldMatchesIffFlagged | scripts/background.js:56-69 | some flag is set exactly when the host ends with one of the listed suffixes |
| Tld.ClassifyTldFirstMatch | scripts/background.js:60-66 | when suffix `i` is the first that matches, the flags are its set memberships |
| Tld.RecognisedIffRecognisedSuffix | scripts/background.js:56-69 | a host is recognised exactly when it ends with one of the recognised suffixes, because those come first in `ALL_TLDS`; a host such as `x.edu.sg`, which also ends with the whitelisted `.sg`, is still recognised |
| Tld.RecognisedMoeEduSg | scripts/background.js:60-66 | `x.moe.edu.sg` is recognised, not whitelisted |
| Tld.RecognisedEduSg | scripts/background.js:60-66 | `school.edu.sg` is recognised, not whitelisted |
| Tld.WhitelistedComSg | scripts/background.js:60-66 | `a.com.sg` is whitelisted through `.com.sg`, not recognised |
| Tld.WhitelistedCom | scripts/background.js:60-66 | `shop.com` is whitelisted, not recognised |
| Tld.UnknownSuffix | scripts/background.js:56-69 | `phish.biz` gets neither flag |
| InsertHistory.Key | scripts/background.js:77-78 | the key is `insert-` followed by the hostname |
| InsertHistory.KeyInjective | scripts/background.js:77-78 | two hosts share a key exactly when they are equal |
| InsertHistory.PrefixedKeyNamesHost | scripts/background.js:77-78 | every string under the `insert-` prefix is the key of the host that follows it |
| InsertHistory.Begin | scripts/background.js:76-80 | afterwards the host's key is outstanding and no other key changed; a request is sent exactly when the key was not already outstanding, and it is one insert-history request for that host |
| InsertHistory.Finish | scripts/background.js:84 | the host's key is released, every other key stays, nothing is added |
| InsertHistory.SecondCallSuppressed | scripts/background.js:77 | a second call while the first request is outstanding sends nothing |
| InsertHistory.TwoCallsOneRequest | scripts/background.js:76-80 | two calls on a set without the key send exactly one request |
| InsertHistory.SettledRequestCanRepeat | scripts/background.js:76-84 | after the request settles the set is as before, and a new call sends a request again |
| InsertHistory.OtherHostsUnaffected | scripts/background.js:76-84 | beginning or settling one host's request leaves every other host's key as it was |
| Background.ServiceWorker.constructor | scripts/background.js:5 | the worker starts with no outstanding keys and no effects |
| Background.ServiceWorker.FetchInsertHistory | scripts/background.js:76-80 | the new set and the appended effects are those of `Begin`, and only `insert-` keys are ever stored |
| Background.ServiceWorker.InsertHistorySettled | scripts/background.js:81-84 | on success or failure the new set is that of `Finish`, and nothing is sent |
| Background.OutstandingKeysNameHosts | scripts/background.js:76-84 | every key a worker holds in `activeRequests` is `insert-` followed by the host it names |
| Navigation.HandledHost | scripts/background.js:91-93 | the listener goes on exactly when the event is `complete`, has a non-empty URL that is not a browser page, and the URL yields a non-empty hostname |
| Navigation.TestResults | scripts/background.js:100-124 | there are always three results, in `testCases` order (alias, HTTP, TLD), and the `filter` keeps them all; the alias result trips exactly when the hostname is non-empty and holds `@`, the HTTP result exactly when the hostname is non-empty and the URL starts with `http://`, the TLD result exactly when the host is not recognised or is whitelisted |
| Navigation.QueryFetches | scripts/background.js:136-170 | the callback sends only `/query` requests for this tab and host, at most one per result, and none exactly when no result trips |
| Navigation.TldTripsIffNotRecognised | scripts/background.js:138-140 | the TLD result trips exactly when the host is not recognised, whitelisted or not |
| Navigation.QueryCount | scripts/background.js:100-170 | the number of `/query` requests is one each for `@` in the host, an `http://` URL and an unrecognised host, so at most three |
| Navigation.NoEffectIffDropped | scripts/background.js:91-93 | an event has no effect at all exactly when the listener returns early, and then the set is untouched |
| Navigation.HandledNavigationEndsGreen | scripts/background.js:136-177 | every handled navigation leaves the badge `100`/green, whatever the tests found |
| Navigation.NoWarningWhileNavigating | scripts/background.js:90-178 | the listener itself never writes red or `0` and never messages the tab |
| Navigation.InsertHistoryFirst | scripts/background.js:95-97 | the insert-history request comes first, is sent exactly when the host's key was not outstanding, and is the only one of the event |
| Navigation.QuietNavigation | scripts/background.js:136-177 | when no test trips, the event sends no `/query` request: only the insert-history step and the green badge |
| Navigation.RecognisedHttpsNavigationIsQuiet | scripts/background.js:90-177 | a handled `https://` navigation to a host under any recognised suffix, with no `@` in the host, sends no `/query` request: only the insert-history step and the green badge |
| Navigation.NavigationEffects | scripts/background.js:95-177 | the effects of a handled event are the insert-history step, `n` identical `/query` requests where `n` counts the tests that trip, and the green badge |
| Navigation.HttpsIsNotInternal | scripts/background.js:91 | an `https://` URL is not a browser page and does not trip the HTTP test |
| Navigation.HttpsUrlHandled | scripts/background.js:91 | a completed load of any `https://` URL passes the first guard and does not trip the HTTP test |
| Navigation.SchoolEduSgScenario | scripts/background.js:90-177 | `https://school.edu.sg/` records the visit and turns the badge green, with no `/query` request |
| Navigation.PhishUrl | scripts/background.js:91 | `http://user@phish.biz/` is handled and trips the HTTP test |
| Navigation.PhishScenario | scripts/background.js:90-177 | `http://user@phish.biz/` sends two `/query` requests, one for the HTTP test and one for the TLD test, and still writes the green badge |
| Navigation.ShopComScenario | scripts/background.js:90-177 | `https://shop.com/` sends one `/query` request because `.com` is whitelisted and turns the badge green; an empty index then turns it red |
| Navigation.Repeat | scripts/background.js:136-170 | `n` copies of one request |
| Background.ServiceWorker.OnUpdated | scripts/background.js:90-178 | the new set and the appended effects are those `HandleUpdate` gives for the event |
| Background.ServiceWorker.CheckNavigation | scripts/background.js:95-177 | after the early exits: the insert-history step, the `/query` requests of the three results, then the green badge |
| Background.ServiceWorker.SomeViolation | scripts/background.js:136-172 | `some` visits every result, sends a `/query` request for each one that trips, leaves the set alone and answers false |
| Reputation.StripWww | scripts/background.js:157 | a leading `www.` is removed and the rest kept; anything else is unchanged |
| Reputation.Find | scripts/background.js:159 | `find` comes back empty exactly when every entry has a string name and none approves; it finds one exactly when an approving entry comes before any malformed entry |
| Reputation.Reconcile | scripts/background.js:143-168 | an answer produces either nothing or exactly the red `0` badge and the `warn_user` message; the warning happens exactly when the body has a `domains` array whose entries are all well-formed and none approves the host without `www.` |
| Reputation.MalformedResponseLeavesBadge | scripts/background.js:143-168 | a failed request or a `domains` that is missing or not an array sends nothing and leaves the badge as it was |
| Reputation.UnindexedNeverApproves | scripts/background.js:159 | entries that are not `indexed: true` never approve, whatever their names |
| Reputation.UnindexedEntryChangesNothing | scripts/background.js:159 | appending a well-formed entry that is not `indexed: true` never changes what `find` gives |
| Reputation.UnindexedEntryKeepsVerdict | scripts/background.js:143-166 | such an entry at the end of the index never changes whether the host is warned about |
| Reputation.WarnIffNoApprovingEntry | scripts/background.js:159-166 | with well-formed entries, the warning is given exactly when no entry approves the host |
| Reputation.WwwPrefixIgnored | scripts/background.js:157 | navigating to `www.` plus a host that does not itself start with `www.` gives the same verdict as the host alone |
| Reputation.StripWwwExamples | scripts/background.js:157 | `www.example.edu` becomes `example.edu`, which stays as it is |
| Reputation.StripWwwNotIdempotent | scripts/background.js:157 | only one `www.` is removed: `www.www.a.com` becomes `www.a.com` |
| Reputation.StripWwwCaseSensitive | scripts/background.js:157 | `WWW.a.com` keeps its prefix |
| Reputation.ApprovingEntryPreventsWarning | scripts/background.js:159 | an approving entry with only well-formed entries before it prevents the warning |
| Reputation.ExampleEduApproves | scripts/background.js:159 | an indexed `Example.EDU` approves `example.edu` |
| Reputation.CaseInsensitiveApproval | scripts/background.js:157-159 | `www.example.edu` is approved by an indexed entry spelt `Example.EDU` |
| Reputation.EmptyIndexWarns | scripts/background.js:159-165 | `domains: []` always leads to the warning |
| Reputation.MalformedEntrySuppressesWarning | scripts/background.js:159-168 | an entry without a string name before any match stops the warning, though the same index without it warns |
| Background.ServiceWorker.OnQueryResponse | scripts/background.js:143-168 | the appended effects are those of `Reconcile`, and the set is untouched |
| Background.DedupeAcrossNavigations | scripts/background.js:76-97 | of two navigations to one host before its request settles, the first sends the insert-history request as its first effect and the second sends none; after the request settles, a third navigation again sends it first; no navigation sends it anywhere else |
| Effects.BadgeAfter | scripts/background.js:160-176 | effects that write no badge leave the badge as it was |
| Effects.BadgeAfterAppend | scripts/background.js:160-176 | the badge after two runs of effects is the badge after the first run, then the second |
| Effects.SafeBadgeShowsGreen | scripts/background.js:175-176 | the two green writes show `100` on green, whatever came before |
| Effects.WarnEffectsShowRed | scripts/background.js:160-165 | the warning shows `0` on red, whatever came before |
| Navigation.LastWarningWins | scripts/background.js:160-176 | a warning that arrives after any earlier writes, including the green of a newer navigation in the same tab, leaves the badge red |
| Strings.Includes | scripts/background.js:38 | `includes` of one character is true exactly when it occurs |
| Strings.Lower | scripts/background.js:159 | lowercasing keeps the length and lowercases character by character |
| Strings.LowerOfLowerCase | scripts/background.js:159 | a string with no capital letters is its own lowercase |

## Left out

- `scripts/content.js` and the rest of the extension are not part of this model. That includes the page-side handling of `warn_user`.
- `getHostname` (`new URL(url).hostname`) is not modelled. The host it yields, or `None` when the URL does not parse, is a parameter of `Navigation.HandledHost` and `Background.ServiceWorker.OnUpdated`.
- Network and timing: the `fetch` calls are effects in a log. Their answers come back through `Background.ServiceWorker.OnQueryResponse` and `Background.ServiceWorker.InsertHistorySettled`, whenever the caller chooses. The JavaScript event loop and promise scheduling are not modelled.
- The request URLs, and the `encodeURIComponent` of the hostname, are not modelled: a request records only its kind, tab and host.
- Strings.Lower: only ASCII letters are folded, not the full Unicode case mapping of `toLowerCase`.
- Console logging is left out, including the success and failure logs of the insert-history request, the invalid-URL log and the commented-out violation dump.
- `updateBadge` is never called by the listener and is left out. The badge writes appear as `SetBadgeText`/`SetBadgeColor` effects.
- The insert-history request's success or failure changes nothing but the log. `Background.ServiceWorker.InsertHistorySettled` takes it as a parameter it does not use.
- Reputation.Entry: any `domainname` that is not a string makes `find` throw. The model does not distinguish the JavaScript values that cause this (a missing property, a number, `null`).
