/**
 * The HTTPS branch as written: `http.use_ssl = true.` ends in a dot, so
 * Ruby reads it together with the next line as
 * `http.use_ssl = true.http.verify_mode = ...`, and calling `http` on `true`
 * raises NoMethodError. The catch-all rescue turns that into "this URL
 * failed", so every request to an https URI fails before it is sent.
 */
module HttpsFinding {
  import opened Wrappers
  import opened TextLines
  import opened RobotsFetch

  /** The oracle as the program experiences it: every https URI raises before the request. */
  function AsWrittenExchange(oracle: Url -> Exchange, isHttps: Url -> bool): Url -> Exchange {
    u => if isHttps(u) then Raised else oracle(u)
  }

  function FetchAsWritten(domain: string, limit: int, oracle: Url -> Exchange,
                          resolve: (Url, string) -> Option<Url>, isHttps: Url -> bool): FetchResult {
    Fetch(domain, limit, AsWrittenExchange(oracle, isHttps), resolve)
  }

  /** As written, no attempt ever gets its body from an https URI. */
  lemma AsWrittenNeverGetsHttpsBody(oracle: Url -> Exchange, resolve: (Url, string) -> Option<Url>,
                                    isHttps: Url -> bool, limit: int, url: Url)
    ensures var a := RunAttempt(AsWrittenExchange(oracle, isHttps), resolve, limit, url, 0);
            a.outcome.Got? ==> a.tried != [] && !isHttps(a.tried[|a.tried| - 1])
  {
    var a := RunAttempt(AsWrittenExchange(oracle, isHttps), resolve, limit, url, 0);
    AttemptIsRedirectChain(AsWrittenExchange(oracle, isHttps), resolve, limit, url, 0);
    if a.outcome.Got? {
      assert a.outcome != Stopped(LimitReached);
      assert a.tried != [];
    }
  }

  /**
   * As written, the HTTPS URL fails after one try whatever the server would
   * have answered, and the result is whatever the HTTP attempt gives.
   */
  lemma AsWrittenSkipsHttps(domain: string, limit: int, oracle: Url -> Exchange,
                            resolve: (Url, string) -> Option<Url>, isHttps: Url -> bool)
    requires limit > 0 && isHttps(HttpsUrl(domain))
    ensures var http := RunAttempt(AsWrittenExchange(oracle, isHttps), resolve, limit, HttpUrl(domain), 0);
            FetchAsWritten(domain, limit, oracle, resolve, isHttps) ==
              if http.outcome.Got? then Fetched(http.outcome.body, [HttpsUrl(domain)] + http.tried)
              else Exhausted([HttpsUrl(domain)] + http.tried)
  {
    assert AsWrittenExchange(oracle, isHttps)(HttpsUrl(domain)) == Raised;
    HttpsFailureFallsBack(domain, limit, AsWrittenExchange(oracle, isHttps), resolve);
  }

  // ---- a concrete site that shows the difference ----

  const Site: string := "example.com"
  const SiteRules: string := "User-agent: *\nDisallow: /admin\n"

  /** A site that serves its robots.txt over HTTPS only; plain HTTP answers 404. */
  function HttpsOnlySite(u: Url): Exchange {
    if u == HttpsUrl(Site) then Reply(200, None, Some(SiteRules)) else Reply(404, None, None)
  }

  function AbsoluteLocation(base: Url, location: string): Option<Url> {
    Some(location)
  }

  /** `uri.scheme == 'https'` for the URLs of this example. */
  predicate HasHttpsScheme(u: Url) {
    StartsWith(u, "https://")
  }

  lemma SiteUrls()
    ensures HasHttpsScheme(HttpsUrl(Site)) && !HasHttpsScheme(HttpUrl(Site))
    ensures HttpUrl(Site) != HttpsUrl(Site)
  {
    var https, http := HttpsUrl(Site), HttpUrl(Site);
    assert https[..8] == "https://";
    assert http[4] == ':' && https[4] == 's';
    assert http[..8][4] == http[4];
  }

  /**
   * The program as written reports that robots.txt could not be fetched from
   * a site that serves it over HTTPS; the intended program returns it after
   * one request.
   */
  lemma HttpsOnlySiteIsLost()
    ensures FetchAsWritten(Site, DefaultRedirectLimit, HttpsOnlySite, AbsoluteLocation, HasHttpsScheme)
            == Exhausted([HttpsUrl(Site), HttpUrl(Site)])
    ensures Fetch(Site, DefaultRedirectLimit, HttpsOnlySite, AbsoluteLocation)
            == Fetched(Some(SiteRules), [HttpsUrl(Site)])
  {
    SiteUrls();
    var http := HttpUrl(Site);
    AsWrittenSkipsHttps(Site, DefaultRedirectLimit, HttpsOnlySite, AbsoluteLocation, HasHttpsScheme);
    var asWritten := AsWrittenExchange(HttpsOnlySite, HasHttpsScheme);
    assert HttpsOnlySite(http) == Reply(404, None, None);
    assert asWritten(http) == HttpsOnlySite(http);
    OneTryEndsAttempt(asWritten, AbsoluteLocation, DefaultRedirectLimit, http);
    HttpsSuccessShortCircuits(Site, DefaultRedirectLimit, HttpsOnlySite, AbsoluteLocation);
  }
}
