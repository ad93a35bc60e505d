/** Reconciliation of a `/query` answer: the reputation index is searched, case-insensitively,
    for the navigated host without one leading `www.`, and an entry counts only when it is
    marked `indexed: true`. No approving entry means a red `0` badge and a `warn_user`
    message; a failed request or a malformed body means nothing happens. */
module Reputation {
  import opened Options
  import opened Strings
  import opened Effects

  /** One element of `data.domains`. `domainname` is `None` when the element is not an object
      whose `domainname` is a string, so that calling `toLowerCase` on it throws. `indexed`
      holds only when the property is the boolean `true`, as the test is `=== true`. */
  datatype Entry = Entry(domainname: Option<string>, indexed: bool)

  /** The `domains` property of the parsed body. */
  datatype Domains =
    | Falsy                       // missing, null, false, 0 or "": `!data.domains` holds
    | NotAnArray                  // truthy, but `Array.isArray` is false
    | Entries(items: seq<Entry>)

  /** How a `/query` request ends. `Rejected` covers a network failure, a status that is not
      ok, a body that is not JSON and a `null` body: each ends in the `catch`. */
  datatype QueryResponse =
    | Rejected
    | Parsed(domains: Domains)

  /** Removes one leading `www.` (case-sensitive) and nothing else. */
  function StripWww(hostname: string): (r: string)
    ensures StartsWith(hostname, "www.") ==> |r| == |hostname| - 4 && "www." + r == hostname
    ensures !StartsWith(hostname, "www.") ==> r == hostname
  {
    if StartsWith(hostname, "www.") then hostname[4..] else hostname
  }

  /** The `find` callback: same name up to ASCII case, and `indexed === true`. */
  predicate Approves(e: Entry, clean: string)
  {
    e.domainname.Some? && SameIgnoringCase(e.domainname.value, clean) && e.indexed
  }

  /** The three ways `data.domains.find(...)` can end. */
  datatype FindResult = Found | NotFound | Threw

  /** `items.find(...)`: the entries are tried in order; one without a string `domainname`
      throws, one that approves stops the search. */
  function Find(items: seq<Entry>, clean: string): (r: FindResult)
    ensures r == NotFound <==>
              forall i :: 0 <= i < |items| ==> items[i].domainname.Some? && !Approves(items[i], clean)
    ensures r == Found <==>
              exists i :: 0 <= i < |items| && Approves(items[i], clean) &&
                          forall j :: 0 <= j < i ==> items[j].domainname.Some?
  {
    if items == [] then NotFound
    else if items[0].domainname.None? then Threw
    else if Approves(items[0], clean) then Found
    else
      var r := Find(items[1..], clean);
      assert forall i :: 1 <= i < |items| ==> items[i] == items[1..][i - 1];
      r
  }

  /** The effects of the `.then(data => ...)` callback for host `hostname` in tab `tabId`. */
  function Reconcile(tabId: int, hostname: string, response: QueryResponse): (effects: seq<Effect>)
    ensures effects == [] || effects == WarnEffects(tabId)
    ensures effects != [] <==>
              response.Parsed? && response.domains.Entries? &&
              forall i :: 0 <= i < |response.domains.items| ==>
                response.domains.items[i].domainname.Some? &&
                !Approves(response.domains.items[i], StripWww(hostname))
  {
    match response
    case Rejected => []
    case Parsed(Entries(items)) =>
      if Find(items, StripWww(hostname)) == NotFound then WarnEffects(tabId) else []
    case Parsed(_) => []
  }

  /** A failed request or a body whose `domains` is not an array leaves the badge as it was
      and sends nothing. */
  lemma MalformedResponseLeavesBadge(b: Badge, tabId: int, hostname: string, response: QueryResponse)
    requires response.Rejected? || !response.domains.Entries?
    ensures Reconcile(tabId, hostname, response) == []
    ensures BadgeAfter(b, tabId, Reconcile(tabId, hostname, response)) == b
  {
  }

  /** An entry whose `indexed` is not `true` never approves, whatever its name. */
  lemma UnindexedNeverApproves(items: seq<Entry>, clean: string)
    requires forall i :: 0 <= i < |items| ==> !items[i].indexed
    ensures Find(items, clean) != Found
  {
  }

  /** Appending a well-formed entry that is not `indexed: true` never changes what `find`
      gives. */
  lemma {:induction false} UnindexedEntryChangesNothing(items: seq<Entry>, e: Entry, clean: string)
    requires e.domainname.Some? && !e.indexed
    ensures Find(items + [e], clean) == Find(items, clean)
  {
    if items != [] {
      assert (items + [e])[1..] == items[1..] + [e];
      UnindexedEntryChangesNothing(items[1..], e, clean);
    }
  }

  /** So such an entry at the end of the index never changes the verdict on a host. */
  lemma UnindexedEntryKeepsVerdict(tabId: int, hostname: string, items: seq<Entry>, e: Entry)
    requires e.domainname.Some? && !e.indexed
    ensures Reconcile(tabId, hostname, Parsed(Entries(items + [e]))) == Reconcile(tabId, hostname, Parsed(Entries(items)))
  {
    UnindexedEntryChangesNothing(items, e, StripWww(hostname));
  }

  /** With well-formed entries, the host is warned about exactly when no entry approves it. */
  lemma WarnIffNoApprovingEntry(tabId: int, hostname: string, items: seq<Entry>)
    requires forall i :: 0 <= i < |items| ==> items[i].domainname.Some?
    ensures Reconcile(tabId, hostname, Parsed(Entries(items))) == WarnEffects(tabId) <==>
            !exists i :: 0 <= i < |items| && Approves(items[i], StripWww(hostname))
    ensures Reconcile(tabId, hostname, Parsed(Entries(items))) == [] <==>
            exists i :: 0 <= i < |items| && Approves(items[i], StripWww(hostname))
  {
  }

  /** A leading `www.` on the navigated host makes no difference to the verdict, as long as
      the rest does not start with `www.` again. */
  lemma WwwPrefixIgnored(tabId: int, hostname: string, response: QueryResponse)
    requires !StartsWith(hostname, "www.")
    ensures Reconcile(tabId, "www." + hostname, response) == Reconcile(tabId, hostname, response)
  {
    assert StartsWith("www." + hostname, "www.");
    assert ("www." + hostname)[4..] == hostname;
  }

  /** `www.example.edu` loses its prefix; `example.edu` is left as it is. */
  lemma StripWwwExamples(prefixed: string, bare: string)
    requires prefixed == "www.example.edu" && bare == "example.edu"
    ensures StripWww(prefixed) == bare && StripWww(bare) == bare
  {
    assert StartsWith(prefixed, "www.");
    assert prefixed[4..] == bare;
    assert bare[0] == 'e';
  }

  /** Only one `www.` is removed, so stripping is not idempotent. */
  lemma StripWwwNotIdempotent(hostname: string)
    requires hostname == "www.www.a.com"
    ensures StripWww(hostname) == "www.a.com"
    ensures StripWww(StripWww(hostname)) == "a.com"
  {
    assert StartsWith(hostname, "www.");
    assert hostname[4..] == "www.a.com";
    assert StartsWith(hostname[4..], "www.");
    assert hostname[4..][4..] == "a.com";
  }

  /** The prefix test is case-sensitive. */
  lemma StripWwwCaseSensitive(hostname: string)
    requires hostname == "WWW.a.com"
    ensures StripWww(hostname) == hostname
  {
    assert hostname[0] == 'W';
  }

  /** An approving entry, with only well-formed entries before it, prevents the warning. */
  lemma ApprovingEntryPreventsWarning(tabId: int, hostname: string, items: seq<Entry>, k: nat)
    requires k < |items| && Approves(items[k], StripWww(hostname))
    requires forall j :: 0 <= j < k ==> items[j].domainname.Some?
    ensures Reconcile(tabId, hostname, Parsed(Entries(items))) == []
  {
  }

  /** `Example.EDU` and `example.edu` are the same name up to case. */
  lemma ExampleEduApproves(name: string, clean: string)
    requires name == "Example.EDU" && clean == "example.edu"
    ensures Approves(Entry(Some(name), true), clean)
  {
    var folded := Lower(name);
    assert folded == clean by {
      forall i | 0 <= i < |folded| ensures folded[i] == clean[i] {
        assert folded[i] == LowerChar(name[i]);
      }
    }
    LowerOfLowerCase(clean);
  }

  /** `www.example.edu` is approved by an indexed entry spelt `Example.EDU`. */
  lemma CaseInsensitiveApproval(tabId: int, hostname: string, items: seq<Entry>)
    requires hostname == "www.example.edu" && items == [Entry(Some("Example.EDU"), true)]
    ensures Reconcile(tabId, hostname, Parsed(Entries(items))) == []
  {
    StripWwwExamples(hostname, "example.edu");
    ExampleEduApproves(items[0].domainname.value, StripWww(hostname));
    ApprovingEntryPreventsWarning(tabId, hostname, items, 0);
  }

  /** An empty index approves nothing: the tab gets the red badge and the warning. */
  lemma EmptyIndexWarns(tabId: int, hostname: string)
    ensures Reconcile(tabId, hostname, Parsed(Entries([]))) == WarnEffects(tabId)
  {
  }

  /** An entry without a string name makes `find` throw before any entry behind it is
      reached, and the thrown error is only logged: no warning, although no entry approves the
      host. The same index without that entry warns. */
  lemma MalformedEntrySuppressesWarning(tabId: int, hostname: string, other: string)
    requires hostname == "phish.biz" && other == "other.com"
    ensures Reconcile(tabId, hostname, Parsed(Entries([Entry(None, false), Entry(Some(other), true)]))) == []
    ensures Reconcile(tabId, hostname, Parsed(Entries([Entry(Some(other), true)]))) == WarnEffects(tabId)
  {
    assert !StartsWith(hostname, "www.") by {
      assert hostname[0] == 'p';
    }
    assert Lower(other) != Lower(hostname) by {
      assert Lower(other)[0] == LowerChar(other[0]) == 'o';
      assert Lower(hostname)[0] == LowerChar(hostname[0]) == 'p';
    }
  }
}
