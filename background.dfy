/** The background service worker as state changed step by step: the global `activeRequests`
    set, and the log of what has been sent to the browser and the network. Each handler is a
    method whose new state is tied to the functions of `Navigation`, `InsertHistory` and
    `Reputation`. */
module Background {
  import opened Options
  import opened Strings
  import opened Tld
  import opened Effects
  import opened InsertHistory
  import opened Reputation
  import opened Navigation

  class ServiceWorker {
    /** `activeRequests`: the keys of the insert-history requests still outstanding. */
    var activeRequests: set<string>
    /** Everything the worker has done to the outside world, oldest first. */
    var effects: seq<Effect>

    /** Only insert-history keys are ever put in the set. */
    ghost predicate Valid()
      reads this
    {
      forall k :: k in activeRequests ==> StartsWith(k, KeyPrefix)
    }

    /** The worker as loaded: `const activeRequests = new Set()`. */
    constructor ()
      ensures Valid()
      ensures activeRequests == {} && effects == []
    {
      activeRequests := {};
      effects := [];
    }

    /** `fetchInsertHistory(hostname)` up to the request: nothing if a request for the host is
        outstanding, otherwise mark it outstanding and send one request. */
    method FetchInsertHistory(hostname: string)
      requires Valid()
      modifies this
      ensures Valid()
      ensures activeRequests == Begin(old(activeRequests), hostname).activeRequests
      ensures effects == old(effects) + Begin(old(activeRequests), hostname).effects
    {
      if Key(hostname) in activeRequests {
        return;
      }
      activeRequests := activeRequests + {Key(hostname)};
      effects := effects + [InsertHistoryFetch(hostname)];
    }

    /** The `finally` of an insert-history request: whether the request succeeded or failed,
        the key of that host and no other is released, and nothing is sent. */
    method InsertHistorySettled(hostname: string, succeeded: bool)
      requires Valid()
      modifies this
      ensures Valid()
      ensures activeRequests == Finish(old(activeRequests), hostname)
      ensures effects == old(effects)
    {
      activeRequests := activeRequests - {Key(hostname)};
    }

    /** The `chrome.tabs.onUpdated` listener. `parsedHost` is what the URL parser makes of
        `tab.url`. */
    method OnUpdated(ev: TabUpdate, parsedHost: Option<string>)
      requires Valid()
      modifies this
      ensures Valid()
      ensures activeRequests == HandleUpdate(old(activeRequests), ev, parsedHost).activeRequests
      ensures effects == old(effects) + HandleUpdate(old(activeRequests), ev, parsedHost).effects
    {
      if Ignored(ev) {
        return;
      }
      var url := ev.url.value;
      if parsedHost.None? || parsedHost.value == "" {
        return;
      }
      var hostname := parsedHost.value;
      HandledUpdate(activeRequests, ev, parsedHost, hostname);
      CheckNavigation(ev.tabId, url, hostname);
    }

    /** The rest of the listener, once the event has a URL and a hostname. */
    method CheckNavigation(tabId: int, url: string, hostname: string)
      requires Valid()
      modifies this
      ensures Valid()
      ensures activeRequests == Begin(old(activeRequests), hostname).activeRequests
      ensures effects == old(effects) + Begin(old(activeRequests), hostname).effects
                         + QueryFetches(TestResults(hostname, url, ClassifyTld(hostname)), tabId, hostname)
                         + SafeBadge(tabId)
    {
      var hasViolation := false;

      FetchInsertHistory(hostname);

      var isRecognised, isWhiteListed := CheckAndUpdateTldStatus(hostname);
      var testCases := TestResults(hostname, url, TldStatus(isRecognised, isWhiteListed));
      // The `filter` keeps every result: each is an object, and objects are truthy.
      var violations := testCases;

      hasViolation := SomeViolation(violations, tabId, hostname);

      if !hasViolation {
        effects := effects + SafeBadge(tabId);
      }
    }

    /** `violations.some(...)`: a `/query` request for every result that trips. The callback
        ends in a bare `return` or falls off its end, so it never answers true: `some` visits
        every result and answers false. */
    method SomeViolation(violations: seq<TestResult>, tabId: int, hostname: string) returns (answer: bool)
      requires Valid()
      modifies this
      ensures Valid()
      ensures !answer
      ensures activeRequests == old(activeRequests)
      ensures effects == old(effects) + QueryFetches(violations, tabId, hostname)
    {
      answer := false;
      var i := 0;
      while i < |violations| && !answer
        invariant 0 <= i <= |violations|
        invariant !answer
        invariant activeRequests == old(activeRequests)
        invariant effects == old(effects) + QueryFetches(violations[..i], tabId, hostname)
      {
        if Trips(violations[i]) {
          effects := effects + [QueryFetch(tabId, hostname)];
        }
        // otherwise the callback only sets `hasViolation` to false, its value already
        assert violations[..i + 1][..i] == violations[..i];
        i := i + 1;
      }
      assert violations[..i] == violations;
    }

    /** The `.then(data => ...)` of the `/query` request sent for `hostname` in tab `tabId`. */
    method OnQueryResponse(tabId: int, hostname: string, response: QueryResponse)
      requires Valid()
      modifies this
      ensures Valid()
      ensures activeRequests == old(activeRequests)
      ensures effects == old(effects) + Reconcile(tabId, hostname, response)
    {
      var items: seq<Entry>;
      match response {
        case Rejected => return;
        case Parsed(domains) =>
          if !domains.Entries? {
            return;
          }
          items := domains.items;
      }
      var clean := StripWww(hostname);
      var found := Find(items, clean);
      if found == NotFound {
        effects := effects + WarnEffects(tabId);
      }
    }
  }

  /** Two navigations to one host before its insert-history request settles send that request
      once; after it settles, a third navigation sends it again. */
  method DedupeAcrossNavigations(ev: TabUpdate, parsedHost: Option<string>)
    returns (first: seq<Effect>, second: seq<Effect>, third: seq<Effect>)
    requires HandledHost(ev, parsedHost).Some?
    ensures |first| > 0 && first[0] == InsertHistoryFetch(parsedHost.value)
    ensures forall i :: 1 <= i < |first| ==> !first[i].InsertHistoryFetch?
    ensures forall i :: 0 <= i < |second| ==> !second[i].InsertHistoryFetch?
    ensures |third| > 0 && third[0] == InsertHistoryFetch(parsedHost.value)
    ensures forall i :: 1 <= i < |third| ==> !third[i].InsertHistoryFetch?
  {
    var hostname := parsedHost.value;
    var worker := new ServiceWorker();
    worker.OnUpdated(ev, parsedHost);
    InsertHistoryFirst({}, ev, parsedHost);
    first := worker.effects;
    worker.OnUpdated(ev, parsedHost);
    InsertHistoryFirst(Begin({}, hostname).activeRequests, ev, parsedHost);
    second := worker.effects[|first|..];
    worker.InsertHistorySettled(hostname, true);
    assert worker.activeRequests == {};
    worker.OnUpdated(ev, parsedHost);
    third := worker.effects[|first| + |second|..];
  }

  /** In a valid worker every outstanding key is `insert-<hostname>` of the host it names, so
      the set only ever blocks insert-history requests. */
  lemma OutstandingKeysNameHosts(worker: ServiceWorker)
    requires worker.Valid()
    ensures forall k :: k in worker.activeRequests ==> k == Key(k[|KeyPrefix|..])
  {
    forall k | k in worker.activeRequests
      ensures k == Key(k[|KeyPrefix|..])
    {
      PrefixedKeyNamesHost(k);
    }
  }
}
