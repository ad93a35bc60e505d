/** The two boolean violation tests of the background script. */
module Heuristics {
  import opened Strings

  /** Test case 1: the string contains an `@`. */
  function ContainsAlias(url: string): (r: bool)
    ensures r <==> exists i :: 0 <= i < |url| && url[i] == '@'
  {
    Includes(url, '@')
  }

  /** Test case 2: the string begins with the literal `http://`. */
  function ContainsHttp(url: string): (r: bool)
    ensures r <==> |url| >= 7 && url[..7] == "http://"
  {
    StartsWith(url, "http://")
  }

  /** An `https://` URL never trips the HTTP test: its fifth character is `s`, not `:`. */
  lemma HttpsNeverTripsHttp(url: string)
    requires StartsWith(url, "https://")
    ensures !ContainsHttp(url)
  {
    assert url[4] == url[..8][4] == 's';
  }

  /** Only the exact lower-case `http://` prefix trips the test. */
  lemma UpperCaseSchemeNeverTripsHttp(url: string)
    requires StartsWith(url, "HTTP://")
    ensures !ContainsHttp(url)
  {
    assert url[0] == url[..7][0] == 'H';
  }
}
