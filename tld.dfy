/** The TLD classifier: a first-match suffix search over the recognised suffixes followed by
    the whitelisted ones. JavaScript `Set`s keep insertion order, so the three constant sets
    are sequences here, in the order they are written. */
module Tld {
  import opened Options
  import opened Strings

  /** Institutional and government suffixes. */
  const RecognisedTlds: seq<string> := [".moe.edu.sg", ".edu.sg", ".edu", ".gov.sg", ".gov", ".bnpparibas"]

  /** Commercial suffixes. */
  const WhitelistedTlds: seq<string> := [".net", ".com", ".org", ".com.sg", ".sg"]

  /** `new Set([...RECOGNISED_TLDS, ...WHITELISTED_TLDS])`: no suffix repeats, so the
      union keeps every element in order. */
  const AllTlds: seq<string> := RecognisedTlds + WhitelistedTlds

  /** The `{ isRecognised, isWhiteListed }` object the classifier returns. */
  datatype TldStatus = TldStatus(isRecognised: bool, isWhiteListed: bool)

  /** Index of the first suffix in `tlds` that `host` ends with, if any. */
  function FirstSuffixIndex(host: string, tlds: seq<string>): (r: Option<nat>)
    ensures r.Some? ==> r.value < |tlds|
  {
    if tlds == [] then None
    else if EndsWith(host, tlds[0]) then Some(0)
    else match FirstSuffixIndex(host, tlds[1..])
      case None => None
      case Some(i) => Some(i + 1)
  }

  /** `FirstSuffixIndex` finds the first suffix that matches, and finds none only when no
      suffix matches. */
  lemma {:induction false} FirstSuffixIndexIsFirstMatch(host: string, tlds: seq<string>)
    ensures FirstSuffixIndex(host, tlds).None? <==> forall i :: 0 <= i < |tlds| ==> !EndsWith(host, tlds[i])
    ensures FirstSuffixIndex(host, tlds).Some? ==>
              var k := FirstSuffixIndex(host, tlds).value;
              EndsWith(host, tlds[k]) && forall j :: 0 <= j < k ==> !EndsWith(host, tlds[j])
  {
    if tlds != [] && !EndsWith(host, tlds[0]) {
      FirstSuffixIndexIsFirstMatch(host, tlds[1..]);
      assert forall i :: 1 <= i < |tlds| ==> tlds[i] == tlds[1..][i - 1];
    }
  }

  /** What the classifier computes: the flags of the first matching suffix, or both false. */
  function ClassifyTld(host: string): (r: TldStatus)
  {
    match FirstSuffixIndex(host, AllTlds)
    case None => TldStatus(false, false)
    case Some(i) => TldStatus(AllTlds[i] in RecognisedTlds, AllTlds[i] in WhitelistedTlds)
  }

  /** `checkAndUpdateTLDStatus`: scan `ALL_TLDS` in order, take the flags of the first suffix
      the string ends with and stop. */
  method CheckAndUpdateTldStatus(url: string) returns (isRecognised: bool, isWhiteListed: bool)
    ensures TldStatus(isRecognised, isWhiteListed) == ClassifyTld(url)
  {
    isRecognised := false;
    isWhiteListed := false;
    var i := 0;
    while i < |AllTlds|
      invariant 0 <= i <= |AllTlds|
      invariant forall j :: 0 <= j < i ==> !EndsWith(url, AllTlds[j])
      invariant !isRecognised && !isWhiteListed
    {
      var tld := AllTlds[i];
      if EndsWith(url, tld) {
        isRecognised := tld in RecognisedTlds;
        isWhiteListed := tld in WhitelistedTlds;
        ClassifyTldFirstMatch(url, i);
        break;
      }
      i := i + 1;
    }
    if i == |AllTlds| {
      FirstSuffixIndexIsFirstMatch(url, AllTlds);
    }
  }

  /** No suffix is both recognised and whitelisted, and none repeats in `AllTlds`. */
  lemma TldSetsDisjoint()
    ensures forall t :: t in RecognisedTlds ==> t !in WhitelistedTlds
    ensures forall i, j :: 0 <= i < j < |AllTlds| ==> AllTlds[i] != AllTlds[j]
  {
  }

  /** Every suffix of `AllTlds` is in exactly one of the two sets. */
  lemma AllTldsPartitioned(t: string)
    requires t in AllTlds
    ensures (t in RecognisedTlds) != (t in WhitelistedTlds)
  {
    TldSetsDisjoint();
  }

  /** The two flags are never both true. */
  lemma ClassifyTldExclusive(host: string)
    ensures !(ClassifyTld(host).isRecognised && ClassifyTld(host).isWhiteListed)
  {
    TldSetsDisjoint();
  }

  /** A host that ends with a known suffix gets exactly one flag; one that ends with none gets
      neither. */
  lemma ClassifyTldMatchesIffFlagged(host: string)
    ensures (ClassifyTld(host).isRecognised || ClassifyTld(host).isWhiteListed)
            <==> exists i :: 0 <= i < |AllTlds| && EndsWith(host, AllTlds[i])
  {
    FirstSuffixIndexIsFirstMatch(host, AllTlds);
    match FirstSuffixIndex(host, AllTlds)
    case None =>
    case Some(i) => AllTldsPartitioned(AllTlds[i]);
  }

  /** The flags are those of the first suffix, in `AllTlds` order, that the host ends with. */
  lemma ClassifyTldFirstMatch(host: string, i: nat)
    requires i < |AllTlds| && EndsWith(host, AllTlds[i])
    requires forall j :: 0 <= j < i ==> !EndsWith(host, AllTlds[j])
    ensures ClassifyTld(host) == TldStatus(AllTlds[i] in RecognisedTlds, AllTlds[i] in WhitelistedTlds)
  {
    FirstSuffixIndexIsFirstMatch(host, AllTlds);
  }

  /** Because the recognised suffixes come first in `AllTlds`, a host is recognised exactly
      when it ends with one of them, even when it also ends with a whitelisted suffix such as
      `.sg`. */
  lemma RecognisedIffRecognisedSuffix(host: string)
    ensures ClassifyTld(host).isRecognised <==>
            exists i :: 0 <= i < |RecognisedTlds| && EndsWith(host, RecognisedTlds[i])
  {
    FirstSuffixIndexIsFirstMatch(host, AllTlds);
    if exists i :: 0 <= i < |RecognisedTlds| && EndsWith(host, RecognisedTlds[i]) {
      var i :| 0 <= i < |RecognisedTlds| && EndsWith(host, RecognisedTlds[i]);
      assert AllTlds[i] == RecognisedTlds[i];
      var k := FirstSuffixIndex(host, AllTlds).value;
      assert k <= i;
      assert AllTlds[k] == RecognisedTlds[k];
    }
    if ClassifyTld(host).isRecognised {
      TldSetsDisjoint();
      var k := FirstSuffixIndex(host, AllTlds).value;
      assert k < |RecognisedTlds|;
      assert AllTlds[k] == RecognisedTlds[k];
    }
  }

  /** `x.moe.edu.sg` is recognised through `.moe.edu.sg`, the first suffix. */
  lemma RecognisedMoeEduSg(host: string)
    requires host == "x.moe.edu.sg"
    ensures ClassifyTld(host) == TldStatus(true, false)
  {
    ClassifyTldFirstMatch(host, 0);
  }

  /** `school.edu.sg` is recognised through `.edu.sg`. */
  lemma RecognisedEduSg(host: string)
    requires host == "school.edu.sg"
    ensures ClassifyTld(host) == TldStatus(true, false)
  {
    assert !EndsWith(host, AllTlds[0]);
    ClassifyTldFirstMatch(host, 1);
  }

  /** `a.com.sg` is whitelisted through `.com.sg`, which comes before `.sg`. */
  lemma WhitelistedComSg(host: string)
    requires host == "a.com.sg"
    ensures ClassifyTld(host) == TldStatus(false, true)
  {
    ClassifyTldFirstMatch(host, 9);
  }

  /** `shop.com` is whitelisted through `.com`. */
  lemma WhitelistedCom(host: string)
    requires host == "shop.com"
    ensures ClassifyTld(host) == TldStatus(false, true)
  {
    ClassifyTldFirstMatch(host, 7);
  }

  /** A host under no listed suffix gets neither flag. */
  lemma UnknownSuffix(host: string)
    requires host == "phish.biz"
    ensures ClassifyTld(host) == TldStatus(false, false)
  {
    FirstSuffixIndexIsFirstMatch(host, AllTlds);
  }
}
