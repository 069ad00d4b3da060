/**
 * The record the profiler captures for each proxied request, and how the
 * request handler assembles it from the incoming request.
 */
module Records {
  import Browser
  import Headers

  /**
   * One captured request. `received` is the already formatted local time
   * ("01-02-06 - 15:04" layout) and is treated as an opaque string.
   */
  datatype RequestInfo = RequestInfo(
    httpMethod: string,
    url: string,
    browser: string,
    header: map<string, string>,
    ip: string,
    received: string)

  /** The canonical header name the classifier reads. */
  const UserAgentKey: string := "User-Agent"

  /**
   * Go's Header.Get for the User-Agent name: the first value stored under
   * that name, or the empty string when there is none.
   */
  function UserAgent(header: map<string, seq<string>>): (r: string)
    ensures UserAgentKey in header && |header[UserAgentKey]| > 0 ==> r == header[UserAgentKey][0]
    ensures (UserAgentKey !in header || header[UserAgentKey] == []) ==> r == ""
  {
    if UserAgentKey in header && |header[UserAgentKey]| > 0 then header[UserAgentKey][0] else ""
  }

  /**
   * The handler's record construction: the collapsed header map, the remote
   * address as given, and the browser classified from the first User-Agent value.
   */
  method BuildRequestInfo(httpMethod: string, url: string, header: map<string, seq<string>>,
                          remoteAddr: string, received: string)
    returns (info: RequestInfo)
    ensures info.httpMethod == httpMethod && info.url == url
    ensures info.ip == remoteAddr && info.received == received
    ensures info.header.Keys == header.Keys
    ensures forall k :: k in header ==> info.header[k] == Headers.Join(header[k], Headers.Separator)
    ensures info.browser == Browser.GetBrowser(UserAgent(header))
  {
    var headers := Headers.CollapseHeaders(header);
    var browser := Browser.GetBrowser(UserAgent(header));
    info := RequestInfo(httpMethod, url, browser, headers, remoteAddr, received);
  }

  /**
   * A browser token the classifier saw in the first User-Agent value also
   * appears in the collapsed User-Agent header that the record keeps.
   */
  lemma RecordedUserAgentShowsBrowser(header: map<string, seq<string>>)
    ensures var browser := Browser.GetBrowser(UserAgent(header));
            browser == Browser.UnknownBrowser ||
            (UserAgentKey in header && Browser.Contains(Headers.Join(header[UserAgentKey], Headers.Separator), browser))
  {
    var ua := UserAgent(header);
    var browser := Browser.GetBrowser(ua);
    if browser != Browser.UnknownBrowser {
      if ua == [] {
        // Every token is non-empty, so none occurs in the empty string.
        Browser.AbsentFirstChar(ua, browser);
      } else {
        Browser.ContainsInExtension(ua, Headers.Join(header[UserAgentKey], Headers.Separator), browser);
      }
    }
  }
}
