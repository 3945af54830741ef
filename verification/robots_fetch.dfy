/**
 * `fetch_robots_txt`: try `https://<domain>/robots.txt`, then
 * `http://<domain>/robots.txt`; for each, follow redirects until the
 * redirect count reaches the limit; the first 2xx body wins, and when both
 * schemes fail the result is a fixed message naming the input.
 *
 * The network, `URI.parse` and `Net::HTTP` are one oracle from a URL to what
 * happened when it was requested; `URI.join` is the `resolve` parameter.
 */
module RobotsFetch {
  import opened Wrappers
  import opened TextLines

  type Url = string

  /** What requesting one URL produced. */
  datatype Exchange =
    | Reply(status: int, location: Option<string>, body: Option<string>)
    | Raised   // any rescued exception: bad URI, socket, timeout, SSL, anything else

  /** Why one scheme's attempt ended without a body. */
  datatype StopReason =
    | LimitReached          // redirect count reached the limit before a request
    | MissingLocation       // 3xx without a Location header
    | NotFound              // 404
    | OtherStatus(status: int)
    | Error                 // the request, or resolving the Location, raised

  datatype Outcome = Got(body: Option<string>) | Stopped(reason: StopReason)

  /**
   * One scheme's attempt: how it ended, and every URL that got past the
   * limit check (whether its request was answered or raised), in order.
   */
  datatype Attempt = Attempt(outcome: Outcome, tried: seq<Url>)

  /** The whole fetch: a body from some scheme, or every scheme exhausted. */
  datatype FetchResult =
    | Fetched(body: Option<string>, tried: seq<Url>)
    | Exhausted(tried: seq<Url>)

  const DefaultRedirectLimit: int := 5

  predicate IsSuccess(status: int) { 200 <= status <= 299 }
  predicate IsRedirection(status: int) { 300 <= status <= 399 }
  const NotFoundStatus: int := 404

  function HttpsUrl(domain: string): Url { "https://" + domain + "/robots.txt" }
  function HttpUrl(domain: string): Url { "http://" + domain + "/robots.txt" }

  /** The candidate URLs, HTTPS first; the input is interpolated unchanged. */
  function CandidateUrls(domain: string): seq<Url> { [HttpsUrl(domain), HttpUrl(domain)] }

  const FailurePrefix: string := "Could not fetch robots.txt for domain/URL '"

  function FailureMessage(domain: string): string {
    FailurePrefix + domain + "' after trying all schemes and redirects."
  }

  /** Requests still allowed when `count` redirects have been followed. */
  function Budget(limit: int, count: nat): nat {
    if count < limit then limit - count else 0
  }

  /**
   * The inner loop for one scheme, entered with `count` redirects already
   * followed and `url` as the current URL.
   */
  function RunAttempt(oracle: Url -> Exchange, resolve: (Url, string) -> Option<Url>,
                      limit: int, url: Url, count: nat): (a: Attempt)
    ensures |a.tried| <= Budget(limit, count)
    ensures a.tried == [] <==> limit <= count
    ensures a.tried != [] ==> a.tried[0] == url
    ensures a.outcome == Stopped(LimitReached) ==> |a.tried| == Budget(limit, count)
    decreases Budget(limit, count)
  {
    if count >= limit then Attempt(Stopped(LimitReached), [])
    else
      match oracle(url)
      case Raised => Attempt(Stopped(Error), [url])
      case Reply(status, location, body) =>
        if IsSuccess(status) then Attempt(Got(body), [url])
        else if IsRedirection(status) then
          if location.None? then Attempt(Stopped(MissingLocation), [url])
          else
            match resolve(url, location.value)
            case None => Attempt(Stopped(Error), [url])
            case Some(next) =>
              var rest := RunAttempt(oracle, resolve, limit, next, count + 1);
              Attempt(rest.outcome, [url] + rest.tried)
        else if status == NotFoundStatus then Attempt(Stopped(NotFound), [url])
        else Attempt(Stopped(OtherStatus(status)), [url])
  }

  function Prepend(earlier: seq<Url>, r: FetchResult): FetchResult {
    match r
    case Fetched(body, tried) => Fetched(body, earlier + tried)
    case Exhausted(tried) => Exhausted(earlier + tried)
  }

  /** The outer loop over the candidate URLs: the first attempt that gets a body wins. */
  function TryCandidates(oracle: Url -> Exchange, resolve: (Url, string) -> Option<Url>,
                         limit: int, urls: seq<Url>): (r: FetchResult)
    ensures r.Exhausted? <==>
              forall k :: 0 <= k < |urls| ==> !RunAttempt(oracle, resolve, limit, urls[k], 0).outcome.Got?
  {
    if urls == [] then Exhausted([])
    else
      var a := RunAttempt(oracle, resolve, limit, urls[0], 0);
      if a.outcome.Got? then Fetched(a.outcome.body, a.tried)
      else
        var rest := TryCandidates(oracle, resolve, limit, urls[1..]);
        assert forall k :: 0 <= k < |urls[1..]| ==> urls[1..][k] == urls[k + 1];
        Prepend(a.tried, rest)
  }

  /**
   * `fetch_robots_txt` as a function: it gives up exactly when neither the
   * HTTPS nor the HTTP attempt gets a body, and otherwise returns the body of
   * the first scheme that got one.
   */
  function Fetch(domain: string, limit: int, oracle: Url -> Exchange,
                 resolve: (Url, string) -> Option<Url>): (r: FetchResult)
    ensures var https := RunAttempt(oracle, resolve, limit, HttpsUrl(domain), 0);
            var http := RunAttempt(oracle, resolve, limit, HttpUrl(domain), 0);
            && (r.Exhausted? <==> !https.outcome.Got? && !http.outcome.Got?)
            && (r.Fetched? ==> r.body == if https.outcome.Got? then https.outcome.body else http.outcome.body)
  {
    var urls := CandidateUrls(domain);
    var https := RunAttempt(oracle, resolve, limit, urls[0], 0);
    var http := RunAttempt(oracle, resolve, limit, urls[1], 0);
    assert urls[1..] == [HttpUrl(domain)] && urls[1..][1..] == [];
    assert !http.outcome.Got? ==> TryCandidates(oracle, resolve, limit, urls[1..]).Exhausted?;
    assert http.outcome.Got? ==> TryCandidates(oracle, resolve, limit, urls[1..]) == Fetched(http.outcome.body, http.tried);
    TryCandidates(oracle, resolve, limit, urls)
  }

  /**
   * The Ruby return value: the body (possibly nil) when a scheme got one,
   * otherwise a message that starts with "Could not fetch" and names the
   * input.
   */
  function Returned(domain: string, r: FetchResult): (c: Option<string>)
    ensures r.Fetched? ==> c == r.body
    ensures r.Exhausted? ==>
              && c.Some?
              && StartsWith(c.value, "Could not fetch")
              && |c.value| > |FailurePrefix| + |domain|
              && c.value[|FailurePrefix|..|FailurePrefix| + |domain|] == domain
  {
    match r
    case Fetched(body, _) => body
    case Exhausted(_) =>
      var m := FailureMessage(domain);
      assert m[..15] == "Could not fetch";
      assert m[|FailurePrefix|..|FailurePrefix| + |domain|] == domain;
      Some(m)
  }

  /**
   * The inner `loop do ... end` for one candidate URL, as the program writes
   * it: check the limit, request, then return the body, follow a redirect or
   * break.
   */
  method FollowRedirects(start: Url, limit: int, oracle: Url -> Exchange,
                         resolve: (Url, string) -> Option<Url>)
    returns (outcome: Outcome, visited: seq<Url>)
    ensures Attempt(outcome, visited) == RunAttempt(oracle, resolve, limit, start, 0)
  {
    var current := start;
    var count: nat := 0;
    visited := [];
    while true
      invariant var a := RunAttempt(oracle, resolve, limit, current, count);
                Attempt(a.outcome, visited + a.tried) == RunAttempt(oracle, resolve, limit, start, 0)
      decreases Budget(limit, count)
    {
      if count >= limit {
        outcome := Stopped(LimitReached);
        return;
      }
      var before := visited;
      visited := visited + [current];
      match oracle(current) {
        case Raised =>
          outcome := Stopped(Error);
          return;
        case Reply(status, location, body) =>
          if IsSuccess(status) {
            outcome := Got(body);
            return;
          } else if IsRedirection(status) {
            if location.None? {
              outcome := Stopped(MissingLocation);
              return;
            }
            match resolve(current, location.value) {
              case None =>
                outcome := Stopped(Error);
                return;
              case Some(next) =>
                RedirectStep(oracle, resolve, limit, current, count, next);
                assert visited + RunAttempt(oracle, resolve, limit, next, count + 1).tried
                       == before + ([current] + RunAttempt(oracle, resolve, limit, next, count + 1).tried);
                current := next;
                count := count + 1;
            }
          } else if status == NotFoundStatus {
            outcome := Stopped(NotFound);
            return;
          } else {
            outcome := Stopped(OtherStatus(status));
            return;
          }
      }
    }
  }

  lemma CandidateStep(oracle: Url -> Exchange, resolve: (Url, string) -> Option<Url>,
                      limit: int, urls: seq<Url>, i: nat)
    requires i < |urls|
    ensures var a := RunAttempt(oracle, resolve, limit, urls[i], 0);
            TryCandidates(oracle, resolve, limit, urls[i..]) ==
              if a.outcome.Got? then Fetched(a.outcome.body, a.tried)
              else Prepend(a.tried, TryCandidates(oracle, resolve, limit, urls[i + 1..]))
  {
    assert urls[i..][0] == urls[i];
    assert urls[i..][1..] == urls[i + 1..];
  }

  lemma PrependTwice(t: seq<Url>, u: seq<Url>, r: FetchResult)
    ensures Prepend(t, Prepend(u, r)) == Prepend(t + u, r)
  {
    assert t + (u + r.tried) == (t + u) + r.tried;
  }

  /** Following one redirect continues the same attempt from the resolved URL with the count one higher. */
  lemma RedirectStep(oracle: Url -> Exchange, resolve: (Url, string) -> Option<Url>,
                     limit: int, url: Url, count: nat, next: Url)
    requires count < limit
    requires RedirectsTo(oracle, resolve, url, next)
    ensures var rest := RunAttempt(oracle, resolve, limit, next, count + 1);
            RunAttempt(oracle, resolve, limit, url, count) == Attempt(rest.outcome, [url] + rest.tried)
  {
  }

  /** The outer `urls_to_try.each` loop: the first body returns, otherwise the failure message. */
  method FetchRobotsTxt(domain: string, limit: int, oracle: Url -> Exchange,
                        resolve: (Url, string) -> Option<Url>)
    returns (content: Option<string>, tried: seq<Url>)
    ensures content == Returned(domain, Fetch(domain, limit, oracle, resolve))
    ensures tried == Fetch(domain, limit, oracle, resolve).tried
  {
    var urls := CandidateUrls(domain);
    tried := [];
    var i := 0;
    while i < |urls|
      invariant 0 <= i <= |urls|
      invariant Prepend(tried, TryCandidates(oracle, resolve, limit, urls[i..]))
                == TryCandidates(oracle, resolve, limit, urls)
    {
      var outcome, visited := FollowRedirects(urls[i], limit, oracle, resolve);
      CandidateStep(oracle, resolve, limit, urls, i);
      if outcome.Got? {
        content := outcome.body;
        tried := tried + visited;
        return;
      }
      PrependTwice(tried, visited, TryCandidates(oracle, resolve, limit, urls[i + 1..]));
      tried := tried + visited;
      i := i + 1;
    }
    content := Some(FailureMessage(domain));
  }

  // ---- properties of one scheme's attempt ----

  /** `from` answered with a redirect whose Location resolves to `to`. */
  ghost predicate RedirectsTo(oracle: Url -> Exchange, resolve: (Url, string) -> Option<Url>, from: Url, to: Url) {
    var x := oracle(from);
    x.Reply? && IsRedirection(x.status) && x.location.Some? && resolve(from, x.location.value) == Some(to)
  }

  /** How the last URL of an attempt explains the attempt's end. */
  ghost predicate EndsAt(oracle: Url -> Exchange, resolve: (Url, string) -> Option<Url>, last: Url, outcome: Outcome) {
    var x := oracle(last);
    match outcome
    case Got(body) => x.Reply? && IsSuccess(x.status) && x.body == body
    case Stopped(LimitReached) => exists next :: RedirectsTo(oracle, resolve, last, next)
    case Stopped(MissingLocation) => x.Reply? && IsRedirection(x.status) && x.location.None?
    case Stopped(NotFound) => x.Reply? && x.status == NotFoundStatus
    case Stopped(OtherStatus(s)) =>
      x.Reply? && x.status == s && !IsSuccess(s) && !IsRedirection(s) && s != NotFoundStatus
    case Stopped(Error) =>
      x.Raised? || (x.Reply? && IsRedirection(x.status) && x.location.Some? && resolve(last, x.location.value).None?)
  }

  /**
   * Every URL an attempt tries after the first is where the previous one
   * redirected to, and the last URL tried explains how the attempt ended.
   */
  lemma {:induction false} AttemptIsRedirectChain(oracle: Url -> Exchange, resolve: (Url, string) -> Option<Url>,
                                                  limit: int, url: Url, count: nat)
    ensures var a := RunAttempt(oracle, resolve, limit, url, count);
            && (forall k :: 0 <= k < |a.tried| - 1 ==> RedirectsTo(oracle, resolve, a.tried[k], a.tried[k + 1]))
            && (a.tried != [] ==> EndsAt(oracle, resolve, a.tried[|a.tried| - 1], a.outcome))
    decreases Budget(limit, count)
  {
    var a := RunAttempt(oracle, resolve, limit, url, count);
    if count < limit {
      var x := oracle(url);
      if x.Reply? && IsRedirection(x.status) && x.location.Some? && resolve(url, x.location.value).Some? {
        var next := resolve(url, x.location.value).value;
        var rest := RunAttempt(oracle, resolve, limit, next, count + 1);
        AttemptIsRedirectChain(oracle, resolve, limit, next, count + 1);
        assert a.tried == [url] + rest.tried;
        assert RedirectsTo(oracle, resolve, url, next);
        if rest.tried == [] {
          assert a.outcome == Stopped(LimitReached);
        } else {
          assert a.tried[|a.tried| - 1] == rest.tried[|rest.tried| - 1];
          forall k | 0 <= k < |a.tried| - 1
            ensures RedirectsTo(oracle, resolve, a.tried[k], a.tried[k + 1])
          {
            if k > 0 {
              assert a.tried[k] == rest.tried[k - 1] && a.tried[k + 1] == rest.tried[k];
            }
          }
        }
      }
    }
  }

  /** A server that redirects every URL somewhere resolvable. */
  ghost predicate AlwaysRedirects(oracle: Url -> Exchange, resolve: (Url, string) -> Option<Url>) {
    forall u :: oracle(u).Reply? && IsRedirection(oracle(u).status) && oracle(u).location.Some?
                && resolve(u, oracle(u).location.value).Some?
  }

  /** Against a server that always redirects, an attempt uses its whole budget and gives up. */
  lemma {:induction false} EndlessRedirectsReachLimit(oracle: Url -> Exchange, resolve: (Url, string) -> Option<Url>,
                                                     limit: int, url: Url, count: nat)
    requires AlwaysRedirects(oracle, resolve)
    ensures RunAttempt(oracle, resolve, limit, url, count).outcome == Stopped(LimitReached)
    ensures |RunAttempt(oracle, resolve, limit, url, count).tried| == Budget(limit, count)
    decreases Budget(limit, count)
  {
    if count < limit {
      var x := oracle(url);
      assert x.Reply? && IsRedirection(x.status) && x.location.Some? && resolve(url, x.location.value).Some?;
      EndlessRedirectsReachLimit(oracle, resolve, limit, resolve(url, x.location.value).value, count + 1);
    }
  }

  // ---- properties of the whole fetch ----

  /** With a positive limit the first URL requested is `https://<domain>/robots.txt`. */
  lemma HttpsTriedFirst(domain: string, limit: int, oracle: Url -> Exchange, resolve: (Url, string) -> Option<Url>)
    requires limit > 0
    ensures var r := Fetch(domain, limit, oracle, resolve);
            r.tried != [] && r.tried[0] == "https://" + domain + "/robots.txt"
  {
    var a := RunAttempt(oracle, resolve, limit, HttpsUrl(domain), 0);
    assert a.tried != [] && a.tried[0] == HttpsUrl(domain);
    var urls := CandidateUrls(domain);
    if !a.outcome.Got? {
      assert urls[1..] == [HttpUrl(domain)];
    }
  }

  /**
   * The schemes in order: a body over HTTPS is returned at once and nothing
   * else is requested; otherwise the HTTP attempt runs after the HTTPS one,
   * and if it fails too the fetch is exhausted.
   */
  lemma SchemeOrder(domain: string, limit: int, oracle: Url -> Exchange, resolve: (Url, string) -> Option<Url>)
    ensures var https := RunAttempt(oracle, resolve, limit, HttpsUrl(domain), 0);
            var http := RunAttempt(oracle, resolve, limit, HttpUrl(domain), 0);
            Fetch(domain, limit, oracle, resolve) ==
              if https.outcome.Got? then Fetched(https.outcome.body, https.tried)
              else if http.outcome.Got? then Fetched(http.outcome.body, https.tried + http.tried)
              else Exhausted(https.tried + http.tried)
  {
    var urls := CandidateUrls(domain);
    var https := RunAttempt(oracle, resolve, limit, HttpsUrl(domain), 0);
    var http := RunAttempt(oracle, resolve, limit, HttpUrl(domain), 0);
    assert urls[0] == HttpsUrl(domain);
    assert urls[1..] == [HttpUrl(domain)];
    assert [HttpUrl(domain)][0] == HttpUrl(domain);
    assert [HttpUrl(domain)][1..] == [];
    assert TryCandidates(oracle, resolve, limit, []) == Exhausted([]);
    assert http.tried + [] == http.tried;
    var tail := TryCandidates(oracle, resolve, limit, [HttpUrl(domain)]);
    assert tail == if http.outcome.Got? then Fetched(http.outcome.body, http.tried) else Exhausted(http.tried);
    assert Fetch(domain, limit, oracle, resolve) ==
             if https.outcome.Got? then Fetched(https.outcome.body, https.tried) else Prepend(https.tried, tail);
  }

  /** A 2xx on the HTTPS URL itself returns its body; the HTTP URL is never requested. */
  lemma HttpsSuccessShortCircuits(domain: string, limit: int, oracle: Url -> Exchange,
                                  resolve: (Url, string) -> Option<Url>)
    requires limit > 0
    requires oracle(HttpsUrl(domain)).Reply? && IsSuccess(oracle(HttpsUrl(domain)).status)
    ensures Fetch(domain, limit, oracle, resolve) == Fetched(oracle(HttpsUrl(domain)).body, [HttpsUrl(domain)])
    ensures Returned(domain, Fetch(domain, limit, oracle, resolve)) == oracle(HttpsUrl(domain)).body
  {
    SchemeOrder(domain, limit, oracle, resolve);
  }

  /**
   * A 404, another non-2xx non-3xx status, a 3xx without Location, a 3xx
   * whose Location does not resolve, or an exception on the HTTPS URL ends that scheme after one request with no
   * retry, and the fetch continues with the HTTP URL.
   */
  lemma HttpsFailureFallsBack(domain: string, limit: int, oracle: Url -> Exchange,
                              resolve: (Url, string) -> Option<Url>)
    requires limit > 0
    requires var x := oracle(HttpsUrl(domain));
             || x.Raised?
             || (!IsSuccess(x.status) && !(IsRedirection(x.status) && x.location.Some?))
             || (IsRedirection(x.status) && x.location.Some? && resolve(HttpsUrl(domain), x.location.value).None?)
    ensures var http := RunAttempt(oracle, resolve, limit, HttpUrl(domain), 0);
            Fetch(domain, limit, oracle, resolve) ==
              if http.outcome.Got? then Fetched(http.outcome.body, [HttpsUrl(domain)] + http.tried)
              else Exhausted([HttpsUrl(domain)] + http.tried)
  {
    OneTryEndsAttempt(oracle, resolve, limit, HttpsUrl(domain));
    SchemeOrder(domain, limit, oracle, resolve);
  }

  /**
   * An answer that is neither 2xx nor a followable 3xx, or a Location that
   * `URI.join` rejects, ends the attempt after that one URL.
   */
  lemma OneTryEndsAttempt(oracle: Url -> Exchange, resolve: (Url, string) -> Option<Url>, limit: int, url: Url)
    requires limit > 0
    requires var x := oracle(url);
             || x.Raised?
             || (!IsSuccess(x.status) && !(IsRedirection(x.status) && x.location.Some?))
             || (IsRedirection(x.status) && x.location.Some? && resolve(url, x.location.value).None?)
    ensures var a := RunAttempt(oracle, resolve, limit, url, 0);
            a.outcome.Stopped? && a.tried == [url]
  {
  }

  /**
   * At most `limit` URLs are tried per scheme, so at most twice that in
   * all; with a limit of zero or less nothing is requested and the failure
   * message is returned.
   */
  lemma FetchIsBounded(domain: string, limit: int, oracle: Url -> Exchange, resolve: (Url, string) -> Option<Url>)
    ensures |Fetch(domain, limit, oracle, resolve).tried| <= 2 * Budget(limit, 0)
    ensures limit <= 0 ==> Fetch(domain, limit, oracle, resolve) == Exhausted([])
    ensures limit <= 0 ==> Returned(domain, Fetch(domain, limit, oracle, resolve)) == Some(FailureMessage(domain))
  {
    SchemeOrder(domain, limit, oracle, resolve);
  }

  /** A server that always redirects exhausts both schemes, each after exactly `limit` requests. */
  lemma EndlessRedirectsExhaust(domain: string, limit: int, oracle: Url -> Exchange,
                                resolve: (Url, string) -> Option<Url>)
    requires AlwaysRedirects(oracle, resolve)
    ensures Fetch(domain, limit, oracle, resolve).Exhausted?
    ensures |Fetch(domain, limit, oracle, resolve).tried| == 2 * Budget(limit, 0)
    ensures Returned(domain, Fetch(domain, limit, oracle, resolve)) == Some(FailureMessage(domain))
  {
    SchemeOrder(domain, limit, oracle, resolve);
    EndlessRedirectsReachLimit(oracle, resolve, limit, HttpsUrl(domain), 0);
    EndlessRedirectsReachLimit(oracle, resolve, limit, HttpUrl(domain), 0);
  }
}
