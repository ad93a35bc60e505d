/** The per-navigation decision of the `chrome.tabs.onUpdated` listener, as a function of the
    event: the early exits, the three test results, one `/query` request per test that trips,
    and the green badge that is written after every navigation that gets that far. */
module Navigation {
  import opened Options
  import opened Strings
  import opened Heuristics
  import opened Tld
  import opened Effects
  import opened InsertHistory
  import opened Reputation

  /** `changeInfo.status`; absent when the update is about something else. */
  datatype TabStatus = Unloaded | Loading | Complete

  /** The parts of an update event the listener reads: the tab id, `changeInfo.status` and
      `tab.url`. */
  datatype TabUpdate = TabUpdate(tabId: int, status: Option<TabStatus>, url: Option<string>)

  /** The guard of the first line of the listener. An empty URL is falsy, so it is dropped too. */
  predicate Ignored(ev: TabUpdate)
  {
    ev.status != Some(Complete) || ev.url.None? || ev.url.value == "" ||
    StartsWith(ev.url.value, "chrome://") || StartsWith(ev.url.value, "chrome-extension://")
  }

  /** The host the listener goes on with. `parsedHost` is what `getHostname(tab.url)` gives:
      `new URL(url).hostname`, or `None` when the URL does not parse. An empty hostname is
      falsy and dropped as well. */
  function HandledHost(ev: TabUpdate, parsedHost: Option<string>): (r: Option<string>)
    ensures r.None? <==> Ignored(ev) || parsedHost.None? || parsedHost.value == ""
    ensures r.Some? ==> r == parsedHost && r.value != "" && ev.url.Some? && ev.status == Some(Complete)
  {
    if Ignored(ev) || parsedHost.None? || parsedHost.value == "" then None else parsedHost
  }

  /** The `name` of each entry of `testCases`: "Alias Check", "HTTP Check" and
      "TLD Recognition Check". */
  datatype TestName = AliasCheck | HttpCheck | TldRecognitionCheck

  /** A test result: `{ isViolated }` for the alias and HTTP checks, `{ isRecognised,
      isWhiteListed }` for the TLD check. */
  datatype TestResult =
    | BooleanCheck(name: TestName, isViolated: bool)
    | TldCheck(name: TestName, isRecognised: bool, isWhiteListed: bool)

  /** The three test results in `testCases` order. The alias check looks at the hostname, the
      HTTP check at the whole URL, the TLD check at the hostname (its flags are `tld`). Every
      result is an object, hence truthy, so the `filter` keeps all three. */
  function TestResults(hostname: string, url: string, tld: TldStatus): (r: seq<TestResult>)
    ensures |r| == 3
    ensures r[0].name == AliasCheck && r[1].name == HttpCheck && r[2].name == TldRecognitionCheck
    ensures Trips(r[0]) <==> hostname != "" && ContainsAlias(hostname)
    ensures Trips(r[1]) <==> hostname != "" && ContainsHttp(url)
    ensures Trips(r[2]) <==> !tld.isRecognised || tld.isWhiteListed
  {
    [ BooleanCheck(AliasCheck, if hostname != "" then ContainsAlias(hostname) else false),
      BooleanCheck(HttpCheck, if hostname != "" then ContainsHttp(url) else false),
      TldCheck(TldRecognitionCheck, tld.isRecognised, tld.isWhiteListed) ]
  }

  /** The condition of the `some` callback under which it sends a `/query` request. */
  predicate Trips(r: TestResult)
  {
    match r
    case BooleanCheck(_, isViolated) => isViolated
    case TldCheck(_, isRecognised, isWhiteListed) => !isRecognised || isWhiteListed
  }

  /** The `/query` requests the `some` callback sends over `results`: one per result that trips. */
  function QueryFetches(results: seq<TestResult>, tabId: int, hostname: string): (r: seq<Effect>)
    ensures |r| <= |results|
    ensures forall i :: 0 <= i < |r| ==> r[i] == QueryFetch(tabId, hostname)
    ensures r == [] <==> forall i :: 0 <= i < |results| ==> !Trips(results[i])
    decreases |results|
  {
    if results == [] then []
    else
      var n := |results| - 1;
      var before := QueryFetches(results[..n], tabId, hostname);
      assert forall i :: 0 <= i < n ==> results[..n][i] == results[i];
      if Trips(results[n]) then before + [QueryFetch(tabId, hostname)] else before
  }

  /** Everything the listener does for one event, given the outstanding insert-history keys. */
  function HandleUpdate(active: set<string>, ev: TabUpdate, parsedHost: Option<string>): (r: Step)
  {
    match HandledHost(ev, parsedHost)
    case None => Step(active, [])
    case Some(hostname) =>
      var begun := Begin(active, hostname);
      var queries := QueryFetches(TestResults(hostname, ev.url.value, ClassifyTld(hostname)), ev.tabId, hostname);
      Step(begun.activeRequests, begun.effects + queries + SafeBadge(ev.tabId))
  }

  /** `HandleUpdate` of an event that gets past the early exits, spelt out. */
  lemma HandledUpdate(active: set<string>, ev: TabUpdate, parsedHost: Option<string>, hostname: string)
    requires HandledHost(ev, parsedHost) == Some(hostname)
    ensures HandleUpdate(active, ev, parsedHost)
            == Step(Begin(active, hostname).activeRequests,
                    Begin(active, hostname).effects
                    + QueryFetches(TestResults(hostname, ev.url.value, ClassifyTld(hostname)), ev.tabId, hostname)
                    + SafeBadge(ev.tabId))
  {
  }

  /** Given the disjoint suffix sets, the TLD test trips exactly when the host is not
      recognised: the `isWhiteListed` clause adds nothing. */
  lemma TldTripsIffNotRecognised(hostname: string)
    ensures Trips(TldCheck(TldRecognitionCheck, ClassifyTld(hostname).isRecognised, ClassifyTld(hostname).isWhiteListed))
            <==> !ClassifyTld(hostname).isRecognised
  {
    ClassifyTldExclusive(hostname);
  }

  function Count(b: bool): (r: nat) { if b then 1 else 0 }

  /** The number of `/query` requests for a navigation: one for an `@` in the host, one for an
      `http://` URL, one for a host that is not recognised; so between zero and three. */
  lemma QueryCount(hostname: string, url: string, tabId: int)
    requires hostname != ""
    ensures |QueryFetches(TestResults(hostname, url, ClassifyTld(hostname)), tabId, hostname)|
            == Count(ContainsAlias(hostname)) + Count(ContainsHttp(url)) + Count(!ClassifyTld(hostname).isRecognised)
    ensures |QueryFetches(TestResults(hostname, url, ClassifyTld(hostname)), tabId, hostname)| <= 3
  {
    var rs := TestResults(hostname, url, ClassifyTld(hostname));
    TldTripsIffNotRecognised(hostname);
    assert rs == [] + [rs[0]] + [rs[1]] + [rs[2]];
    QueryFetchesAppend([], rs[0], tabId, hostname);
    QueryFetchesAppend([rs[0]], rs[1], tabId, hostname);
    QueryFetchesAppend([rs[0], rs[1]], rs[2], tabId, hostname);
  }

  /** One more result adds one request exactly when it trips. */
  lemma QueryFetchesAppend(results: seq<TestResult>, r: TestResult, tabId: int, hostname: string)
    ensures QueryFetches(results + [r], tabId, hostname)
            == QueryFetches(results, tabId, hostname) + (if Trips(r) then [QueryFetch(tabId, hostname)] else [])
  {
    assert (results + [r])[..|results|] == results;
  }

  /** An event produces no effect at all exactly when the listener returns early, and then the
      outstanding keys are untouched. */
  lemma NoEffectIffDropped(active: set<string>, ev: TabUpdate, parsedHost: Option<string>)
    ensures HandleUpdate(active, ev, parsedHost).effects == [] <==> HandledHost(ev, parsedHost).None?
    ensures HandledHost(ev, parsedHost).None? ==> HandleUpdate(active, ev, parsedHost).activeRequests == active
  {
  }

  /** Every event that gets past the early exits ends with the `100`/green writes, whatever the
      tests found: the `some` callback never returns a truthy value. No red write and no
      message happens synchronously. */
  lemma HandledNavigationEndsGreen(b: Badge, active: set<string>, ev: TabUpdate, parsedHost: Option<string>)
    requires HandledHost(ev, parsedHost).Some?
    ensures BadgeAfter(b, ev.tabId, HandleUpdate(active, ev, parsedHost).effects) == Badge("100", "green")
  {
    var hostname := HandledHost(ev, parsedHost).value;
    HandledUpdate(active, ev, parsedHost, hostname);
    var begun := Begin(active, hostname);
    var queries := QueryFetches(TestResults(hostname, ev.url.value, ClassifyTld(hostname)), ev.tabId, hostname);
    BadgeAfterAppend(b, ev.tabId, begun.effects + queries, SafeBadge(ev.tabId));
    SafeBadgeShowsGreen(BadgeAfter(b, ev.tabId, begun.effects + queries), ev.tabId);
  }

  /** The listener itself never writes red and never messages the tab; only a reputation
      answer does. */
  lemma NoWarningWhileNavigating(active: set<string>, ev: TabUpdate, parsedHost: Option<string>)
    ensures forall e :: e in HandleUpdate(active, ev, parsedHost).effects ==>
              !e.SendMessage? && e != SetBadgeText(ev.tabId, "0") && e != SetBadgeColor(ev.tabId, "red")
  {
    if HandledHost(ev, parsedHost).Some? {
      var hostname := HandledHost(ev, parsedHost).value;
      HandledUpdate(active, ev, parsedHost, hostname);
      var begun := Begin(active, hostname);
      var queries := QueryFetches(TestResults(hostname, ev.url.value, ClassifyTld(hostname)), ev.tabId, hostname);
      forall e | e in begun.effects + queries + SafeBadge(ev.tabId)
        ensures !e.SendMessage? && e != SetBadgeText(ev.tabId, "0") && e != SetBadgeColor(ev.tabId, "red")
      {
        assert e in begun.effects || e in queries || e in SafeBadge(ev.tabId);
      }
    }
  }

  /** `fetchInsertHistory` runs once per handled event, before any test: its request, if the
      host has none outstanding, is the first effect, and no other effect is one. */
  lemma InsertHistoryFirst(active: set<string>, ev: TabUpdate, parsedHost: Option<string>)
    requires HandledHost(ev, parsedHost).Some?
    ensures var hostname := HandledHost(ev, parsedHost).value;
            var s := HandleUpdate(active, ev, parsedHost);
            && Key(hostname) in s.activeRequests
            && (s.effects[0] == InsertHistoryFetch(hostname) <==> Key(hostname) !in active)
            && forall i :: 1 <= i < |s.effects| ==> !s.effects[i].InsertHistoryFetch?
  {
  }

  /** A reputation warning that arrives after any earlier writes decides the badge: the last
      write wins, including over the green of a newer navigation in the same tab. */
  lemma LastWarningWins(b: Badge, tabId: int, earlier: seq<Effect>)
    ensures BadgeAfter(b, tabId, earlier + WarnEffects(tabId)) == Badge("0", "red")
  {
    BadgeAfterAppend(b, tabId, earlier, WarnEffects(tabId));
    WarnEffectsShowRed(BadgeAfter(b, tabId, earlier), tabId);
  }

  /** A handled navigation on which no test trips sends no `/query` request: it records the
      visit, if not already outstanding, and writes the green badge. */
  lemma QuietNavigation(active: set<string>, ev: TabUpdate, parsedHost: Option<string>)
    requires HandledHost(ev, parsedHost).Some?
    requires var hostname := HandledHost(ev, parsedHost).value;
             !ContainsAlias(hostname) && !ContainsHttp(ev.url.value) && ClassifyTld(hostname).isRecognised
    ensures var hostname := HandledHost(ev, parsedHost).value;
            HandleUpdate(active, ev, parsedHost).effects == Begin(active, hostname).effects + SafeBadge(ev.tabId)
  {
    var hostname := HandledHost(ev, parsedHost).value;
    QueryCount(hostname, ev.url.value, ev.tabId);
  }

  /** A handled `https://` navigation to a host under a recognised suffix, with no `@` in
      the host, sends no `/query` request: it records the visit and writes the green badge. */
  lemma RecognisedHttpsNavigationIsQuiet(active: set<string>, ev: TabUpdate, parsedHost: Option<string>, i: nat)
    requires HandledHost(ev, parsedHost).Some?
    requires i < |RecognisedTlds| && EndsWith(HandledHost(ev, parsedHost).value, RecognisedTlds[i])
    requires !ContainsAlias(HandledHost(ev, parsedHost).value)
    requires StartsWith(ev.url.value, "https://")
    ensures HandleUpdate(active, ev, parsedHost).effects
            == Begin(active, HandledHost(ev, parsedHost).value).effects + SafeBadge(ev.tabId)
  {
    RecognisedIffRecognisedSuffix(HandledHost(ev, parsedHost).value);
    HttpsNeverTripsHttp(ev.url.value);
    QuietNavigation(active, ev, parsedHost);
  }

  /** An `https://` URL is not a browser-internal page and does not trip the HTTP test. */
  lemma HttpsIsNotInternal(url: string)
    requires StartsWith(url, "https://")
    ensures !ContainsHttp(url)
    ensures !StartsWith(url, "chrome://") && !StartsWith(url, "chrome-extension://")
  {
    HttpsNeverTripsHttp(url);
    assert url[0] == url[..8][0] == 'h';
  }

  /** An `https://` URL of a completed load passes the first guard and does not trip the
      HTTP test. */
  lemma HttpsUrlHandled(tabId: int, url: string)
    requires StartsWith(url, "https://")
    ensures !Ignored(TabUpdate(tabId, Some(Complete), Some(url))) && !ContainsHttp(url)
  {
    HttpsIsNotInternal(url);
  }

  /** `school.edu.sg` has no `@`. */
  lemma SchoolEduSgHasNoAlias(hostname: string)
    requires hostname == "school.edu.sg"
    ensures !ContainsAlias(hostname)
  {
  }

  /** `https://school.edu.sg/`: nothing trips, no `/query` is sent, the badge goes green and
      the visit is still recorded. */
  lemma SchoolEduSgScenario(ev: TabUpdate, parsedHost: Option<string>)
    requires ev == TabUpdate(ev.tabId, Some(Complete), Some("https://school.edu.sg/"))
    requires parsedHost == Some("school.edu.sg")
    ensures HandleUpdate({}, ev, parsedHost).effects == [InsertHistoryFetch("school.edu.sg")] + SafeBadge(ev.tabId)
  {
    assert StartsWith(ev.url.value, "https://");
    HttpsUrlHandled(ev.tabId, ev.url.value);
    SchoolEduSgHasNoAlias(parsedHost.value);
    RecognisedEduSg(parsedHost.value);
    QuietNavigation({}, ev, parsedHost);
  }

  /** `n` copies of one effect. */
  function Repeat(e: Effect, n: nat): (r: seq<Effect>)
    ensures |r| == n && forall i :: 0 <= i < n ==> r[i] == e
  {
    if n == 0 then [] else Repeat(e, n - 1) + [e]
  }

  /** The `/query` requests of a handled navigation, written out: as many identical requests
      as tests that trip, after the insert-history step and before the green badge. */
  lemma NavigationEffects(active: set<string>, ev: TabUpdate, parsedHost: Option<string>, n: nat)
    requires HandledHost(ev, parsedHost).Some?
    requires var hostname := HandledHost(ev, parsedHost).value;
             n == Count(ContainsAlias(hostname)) + Count(ContainsHttp(ev.url.value)) + Count(!ClassifyTld(hostname).isRecognised)
    ensures var hostname := HandledHost(ev, parsedHost).value;
            HandleUpdate(active, ev, parsedHost).effects
            == Begin(active, hostname).effects + Repeat(QueryFetch(ev.tabId, hostname), n) + SafeBadge(ev.tabId)
  {
    var hostname := HandledHost(ev, parsedHost).value;
    QueryCount(hostname, ev.url.value, ev.tabId);
    var queries := QueryFetches(TestResults(hostname, ev.url.value, ClassifyTld(hostname)), ev.tabId, hostname);
    assert queries == Repeat(QueryFetch(ev.tabId, hostname), n);
  }

  /** What the tests make of the URL `http://user@phish.biz/`. */
  lemma PhishUrl(tabId: int, url: string)
    requires url == "http://user@phish.biz/"
    ensures !Ignored(TabUpdate(tabId, Some(Complete), Some(url))) && ContainsHttp(url)
  {
    assert url[0] == 'h';
  }

  /** What the tests make of the host `phish.biz`, which the URL parser gives without the
      `user@` part. */
  lemma PhishHostHasNoAlias(hostname: string)
    requires hostname == "phish.biz"
    ensures !ContainsAlias(hostname)
  {
  }

  /** `http://user@phish.biz/`: the HTTP test and the TLD test trip, but not the alias test,
      which only sees the hostname; two `/query` requests follow, and the badge is still
      written green. */
  lemma PhishScenario(ev: TabUpdate, parsedHost: Option<string>)
    requires ev == TabUpdate(ev.tabId, Some(Complete), Some("http://user@phish.biz/"))
    requires parsedHost == Some("phish.biz")
    ensures HandleUpdate({}, ev, parsedHost).effects
            == [InsertHistoryFetch("phish.biz")] + Repeat(QueryFetch(ev.tabId, "phish.biz"), 2) + SafeBadge(ev.tabId)
  {
    var hostname, tabId := parsedHost.value, ev.tabId;
    PhishUrl(ev.tabId, ev.url.value);
    PhishHostHasNoAlias(hostname);
    UnknownSuffix(hostname);
    assert HandledHost(ev, parsedHost) == parsedHost;
    NavigationEffects({}, ev, parsedHost, 2);
  }

  /** `shop.com` has no `@`. */
  lemma ShopComHasNoAlias(hostname: string)
    requires hostname == "shop.com"
    ensures !ContainsAlias(hostname)
  {
  }

  /** `https://shop.com/`: the whitelisted TLD trips the TLD test, one `/query` request is
      sent and the badge goes green; the answer `domains: []` then turns it red and warns the
      tab. */
  lemma ShopComScenario(b: Badge, ev: TabUpdate, parsedHost: Option<string>)
    requires ev == TabUpdate(ev.tabId, Some(Complete), Some("https://shop.com/"))
    requires parsedHost == Some("shop.com")
    ensures HandleUpdate({}, ev, parsedHost).effects
            == [InsertHistoryFetch("shop.com")] + Repeat(QueryFetch(ev.tabId, "shop.com"), 1) + SafeBadge(ev.tabId)
    ensures BadgeAfter(b, ev.tabId, HandleUpdate({}, ev, parsedHost).effects) == Badge("100", "green")
    ensures BadgeAfter(b, ev.tabId, HandleUpdate({}, ev, parsedHost).effects + Reconcile(ev.tabId, "shop.com", Parsed(Entries([]))))
            == Badge("0", "red")
  {
    var hostname, tabId := parsedHost.value, ev.tabId;
    assert StartsWith(ev.url.value, "https://");
    HttpsUrlHandled(ev.tabId, ev.url.value);
    ShopComHasNoAlias(hostname);
    WhitelistedCom(hostname);
    assert HandledHost(ev, parsedHost) == parsedHost;
    NavigationEffects({}, ev, parsedHost, 1);
    HandledNavigationEndsGreen(b, {}, ev, parsedHost);
    EmptyIndexWarns(ev.tabId, "shop.com");
    LastWarningWins(b, ev.tabId, HandleUpdate({}, ev, parsedHost).effects);
  }
}
