/** What the background script does to the outside world, recorded in order: outbound
    requests, badge writes and messages to a tab. The browser and the reputation service
    that receive them are not modelled. */
module Effects {

  datatype Effect =
    | InsertHistoryFetch(hostname: string)      // GET /insert-history?domainName=<hostname>
    | QueryFetch(tabId: int, hostname: string)  // GET /query, answered later for this tab and host
    | SetBadgeText(tabId: int, text: string)
    | SetBadgeColor(tabId: int, color: string)
    | SendMessage(tabId: int, action: string, message: string)

  /** Text of the `warn_user` message, leading space included. */
  const WarnMessage: string := " this website is not approved, all clicks have been disabled."

  /** The badge writes of the synchronous "no violation" path. */
  function SafeBadge(tabId: int): (r: seq<Effect>)
  {
    [SetBadgeText(tabId, "100"), SetBadgeColor(tabId, "green")]
  }

  /** The writes and the message of an unapproved reputation answer. */
  function WarnEffects(tabId: int): (r: seq<Effect>)
  {
    [SetBadgeText(tabId, "0"), SetBadgeColor(tabId, "red"), SendMessage(tabId, "warn_user", WarnMessage)]
  }

  /** What a tab's badge shows. */
  datatype Badge = Badge(text: string, color: string)

  /** The badge of tab `tabId` after the effects are carried out in order, starting from `b`:
      the last text and the last colour written for that tab win. */
  function BadgeAfter(b: Badge, tabId: int, effects: seq<Effect>): (r: Badge)
    ensures (forall i :: 0 <= i < |effects| ==> !effects[i].SetBadgeText? && !effects[i].SetBadgeColor?) ==> r == b
    decreases |effects|
  {
    if effects == [] then b
    else
      var last := effects[|effects| - 1];
      var before := BadgeAfter(b, tabId, effects[..|effects| - 1]);
      match last
      case SetBadgeText(t, text) => if t == tabId then before.(text := text) else before
      case SetBadgeColor(t, color) => if t == tabId then before.(color := color) else before
      case _ => before
  }

  /** Carrying out two runs of effects one after the other is carrying out their concatenation. */
  lemma {:induction false} BadgeAfterAppend(b: Badge, tabId: int, e1: seq<Effect>, e2: seq<Effect>)
    ensures BadgeAfter(b, tabId, e1 + e2) == BadgeAfter(BadgeAfter(b, tabId, e1), tabId, e2)
    decreases |e2|
  {
    if e2 == [] {
      assert e1 + e2 == e1;
    } else {
      var n := |e2| - 1;
      assert (e1 + e2)[..|e1 + e2| - 1] == e1 + e2[..n];
      assert (e1 + e2)[|e1 + e2| - 1] == e2[n];
      BadgeAfterAppend(b, tabId, e1, e2[..n]);
    }
  }

  /** Whatever came before, the safe writes leave the tab showing `100` on green. */
  lemma SafeBadgeShowsGreen(b: Badge, tabId: int)
    ensures BadgeAfter(b, tabId, SafeBadge(tabId)) == Badge("100", "green")
  {
    assert SafeBadge(tabId)[..1] == [SetBadgeText(tabId, "100")];
    assert SafeBadge(tabId)[..1][..0] == [];
  }

  /** Whatever came before, the warning writes leave the tab showing `0` on red. */
  lemma WarnEffectsShowRed(b: Badge, tabId: int)
    ensures BadgeAfter(b, tabId, WarnEffects(tabId)) == Badge("0", "red")
  {
    var w := WarnEffects(tabId);
    assert w[..2] == [SetBadgeText(tabId, "0"), SetBadgeColor(tabId, "red")];
    assert w[..2][..1] == [SetBadgeText(tabId, "0")];
    assert w[..2][..1][..0] == [];
    assert BadgeAfter(b, tabId, w) == BadgeAfter(b, tabId, w[..2]);
  }
}
