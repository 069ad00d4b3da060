/**
 * The browser classifier of the profiler: a user agent is labelled with the
 * first token of a fixed, ordered list that occurs in it as a substring, and
 * with "Unknown" when none does.
 */
module Browser {
  import opened Wrappers

  /** `sub` occurs in `s` starting at position `i`. */
  predicate OccursAt(s: string, sub: string, i: int)
  {
    0 <= i && i + |sub| <= |s| && s[i..i + |sub|] == sub
  }

  /** Substring search, as Go's strings.Contains: the empty string occurs in every string. */
  function Contains(s: string, sub: string): (b: bool)
    ensures b <==> exists i :: OccursAt(s, sub, i)
    decreases |s|
  {
    if |sub| > |s| then
      false
    else if s[..|sub|] == sub then
      assert OccursAt(s, sub, 0);
      true
    else
      ShiftOccurrence(s, sub);
      Contains(s[1..], sub)
  }

  /** When `sub` is not a prefix of `s`, it occurs in `s` exactly when it occurs in `s[1..]`. */
  lemma ShiftOccurrence(s: string, sub: string)
    requires |sub| <= |s| && s[..|sub|] != sub
    ensures (exists i :: OccursAt(s, sub, i)) <==> (exists j :: OccursAt(s[1..], sub, j))
  {
    forall i | OccursAt(s, sub, i)
      ensures OccursAt(s[1..], sub, i - 1)
    {
      assert i != 0;
      assert s[1..][i - 1..i - 1 + |sub|] == s[i..i + |sub|];
    }
    forall j | OccursAt(s[1..], sub, j)
      ensures OccursAt(s, sub, j + 1)
    {
      assert s[1..][j..j + |sub|] == s[j + 1..j + 1 + |sub|];
    }
  }

  /** A non-empty token whose first character never appears in `s` does not occur in `s`. */
  lemma AbsentFirstChar(s: string, sub: string)
    requires |sub| > 0 && sub[0] !in s
    ensures !Contains(s, sub)
  {
  }

  /** What occurs in a string also occurs in every string that extends it. */
  lemma ContainsInExtension(s: string, t: string, sub: string)
    requires s <= t && Contains(s, sub)
    ensures Contains(t, sub)
  {
  }

  /** The index of the first token, in list order, that occurs in `userAgent`. */
  function FirstMatch(userAgent: string, tokens: seq<string>): (r: Option<nat>)
    ensures r.Some? ==> r.value < |tokens| && Contains(userAgent, tokens[r.value])
    ensures r.Some? ==> forall j :: 0 <= j < r.value ==> !Contains(userAgent, tokens[j])
    ensures r.None? <==> forall j :: 0 <= j < |tokens| ==> !Contains(userAgent, tokens[j])
    decreases |tokens|
  {
    if tokens == [] then
      None
    else if Contains(userAgent, tokens[0]) then
      Some(0)
    else
      match FirstMatch(userAgent, tokens[1..])
      case None => None
      case Some(k) => Some(k + 1)
  }

  /** The browser tokens, in the order in which they are tried. */
  const BrowserList: seq<string> := ["Chrome", "Firefox", "Safari", "Opera", "Edge", "MSIE", "Trident"]

  /** The label given to a user agent that matches no token. */
  const UnknownBrowser: string := "Unknown"

  /** The label the profiler records for a user agent. */
  function GetBrowser(userAgent: string): (r: string)
    ensures r == UnknownBrowser || r in BrowserList
    ensures r in BrowserList ==> Contains(userAgent, r)
  {
    match FirstMatch(userAgent, BrowserList)
    case Some(k) => BrowserList[k]
    case None => UnknownBrowser
  }

  /** No two tokens are equal, and none of them is the fallback label. */
  lemma BrowserListDistinct()
    ensures forall i, j :: 0 <= i < j < |BrowserList| ==> BrowserList[i] != BrowserList[j]
    ensures UnknownBrowser !in BrowserList
  {
  }

  /** The result is the k-th token exactly when that token occurs and no earlier one does. */
  lemma GetBrowserIsFirstMatch(userAgent: string, k: nat)
    requires k < |BrowserList|
    ensures GetBrowser(userAgent) == BrowserList[k] <==>
            (Contains(userAgent, BrowserList[k]) &&
             forall j :: 0 <= j < k ==> !Contains(userAgent, BrowserList[j]))
  {
    BrowserListDistinct();
    var m := FirstMatch(userAgent, BrowserList);
    if m.Some? && m.value != k {
      assert BrowserList[m.value] != BrowserList[k];
    }
  }

  /** The fallback label is returned exactly when no token occurs. */
  lemma GetBrowserUnknown(userAgent: string)
    ensures GetBrowser(userAgent) == UnknownBrowser <==>
            forall t :: t in BrowserList ==> !Contains(userAgent, t)
  {
  }

  /** A user agent that mentions Chrome is always labelled Chrome, whatever else it mentions. */
  lemma ChromeWins(userAgent: string)
    requires Contains(userAgent, "Chrome")
    ensures GetBrowser(userAgent) == "Chrome"
  {
  }

  /** A Chrome user agent that also names Safari is labelled Chrome; curl is Unknown. */
  lemma ClassifierExamples()
    ensures GetBrowser("Mozilla/5.0 Chrome/1.0 Safari/5.0") == "Chrome"
    ensures GetBrowser("curl/7.0") == UnknownBrowser
  {
    var chrome := "Mozilla/5.0 Chrome/1.0 Safari/5.0";
    assert OccursAt(chrome, "Chrome", 12);
    ChromeWins(chrome);
    var curl := "curl/7.0";
    forall t | t in BrowserList
      ensures !Contains(curl, t)
    {
      AbsentFirstChar(curl, t);
    }
    GetBrowserUnknown(curl);
  }
}
