/** The in-flight dedupe of `/insert-history` requests: a request for a host is sent only when
    no request for that host is outstanding, and its key is released when it settles. */
module InsertHistory {
  import opened Strings
  import opened Effects

  const KeyPrefix: string := "insert-"

  /** The dedupe key `insert-<hostname>`. */
  function Key(hostname: string): (k: string)
    ensures StartsWith(k, KeyPrefix)
    ensures k[|KeyPrefix|..] == hostname
  {
    KeyPrefix + hostname
  }

  /** Different hosts never share a key. */
  lemma KeyInjective(a: string, b: string)
    ensures Key(a) == Key(b) <==> a == b
  {
    if Key(a) == Key(b) {
      assert a == Key(a)[|KeyPrefix|..];
    }
  }

  /** Every string under the key prefix is the key of the host that follows the prefix. */
  lemma PrefixedKeyNamesHost(k: string)
    requires StartsWith(k, KeyPrefix)
    ensures k == Key(k[|KeyPrefix|..])
  {
    assert k == k[..|KeyPrefix|] + k[|KeyPrefix|..];
  }

  /** The set of outstanding keys together with what was emitted. */
  datatype Step = Step(activeRequests: set<string>, effects: seq<Effect>)

  /** The synchronous part of `fetchInsertHistory(hostname)`. */
  function Begin(active: set<string>, hostname: string): (s: Step)
    ensures Key(hostname) in s.activeRequests
    ensures s.activeRequests - {Key(hostname)} == active - {Key(hostname)}
    ensures s.effects == [] <==> Key(hostname) in active
    ensures s.effects != [] ==> s.effects == [InsertHistoryFetch(hostname)]
  {
    if Key(hostname) in active then Step(active, [])
    else Step(active + {Key(hostname)}, [InsertHistoryFetch(hostname)])
  }

  /** The `finally` of that request, reached after success and failure alike. */
  function Finish(active: set<string>, hostname: string): (a: set<string>)
    ensures Key(hostname) !in a
    ensures forall k :: k in active && k != Key(hostname) ==> k in a
    ensures a <= active
  {
    active - {Key(hostname)}
  }

  /** A second call for the same host before the first settles sends nothing. */
  lemma SecondCallSuppressed(active: set<string>, hostname: string)
    ensures Begin(Begin(active, hostname).activeRequests, hostname).effects == []
  {
  }

  /** Two calls for one host before either settles send exactly one request. */
  lemma TwoCallsOneRequest(active: set<string>, hostname: string)
    requires Key(hostname) !in active
    ensures Begin(active, hostname).effects + Begin(Begin(active, hostname).activeRequests, hostname).effects
            == [InsertHistoryFetch(hostname)]
  {
    SecondCallSuppressed(active, hostname);
  }

  /** Once the request settles the set is back where it was, and the next call sends again. */
  lemma SettledRequestCanRepeat(active: set<string>, hostname: string)
    requires Key(hostname) !in active
    ensures Finish(Begin(active, hostname).activeRequests, hostname) == active
    ensures Begin(Finish(Begin(active, hostname).activeRequests, hostname), hostname).effects
            == [InsertHistoryFetch(hostname)]
  {
    var after := Finish(Begin(active, hostname).activeRequests, hostname);
    assert after == active;
  }

  /** Requests for one host neither block nor release another host's key. */
  lemma OtherHostsUnaffected(active: set<string>, a: string, b: string)
    requires a != b
    ensures Key(b) in Begin(active, a).activeRequests <==> Key(b) in active
    ensures Key(b) in Finish(active, a) <==> Key(b) in active
  {
    KeyInjective(a, b);
  }
}
