/**
 * The main program after option parsing: `-u` fetches one domain or URL as
 * given and shows the result; `-l` does the same for every selected line of
 * a list file. Both use the default redirect limit.
 */
module MainFlow {
  import opened Wrappers
  import opened TextLines
  import opened RobotsFetch
  import opened DisallowFilter
  import opened ListFile

  /** Fetch one domain and decide what to show for it. */
  function ProcessDomain(domain: string, showDisallowOnly: bool, oracle: Url -> Exchange,
                         resolve: (Url, string) -> Option<Url>): View {
    Render(showDisallowOnly, Returned(domain, Fetch(domain, DefaultRedirectLimit, oracle, resolve)))
  }

  /** What `-l` prints for one processed line. */
  datatype Report = Report(number: nat, domain: string, view: View)

  function ProcessEntries(entries: seq<Entry>, showDisallowOnly: bool, oracle: Url -> Exchange,
                          resolve: (Url, string) -> Option<Url>): (rs: seq<Report>)
    ensures |rs| == |entries|
    ensures forall k :: 0 <= k < |rs| ==>
              rs[k] == Report(entries[k].number, entries[k].domain,
                              ProcessDomain(entries[k].domain, showDisallowOnly, oracle, resolve))
  {
    if entries == [] then []
    else
      [Report(entries[0].number, entries[0].domain, ProcessDomain(entries[0].domain, showDisallowOnly, oracle, resolve))]
      + ProcessEntries(entries[1..], showDisallowOnly, oracle, resolve)
  }

  function ProcessList(fileText: string, showDisallowOnly: bool, oracle: Url -> Exchange,
                       resolve: (Url, string) -> Option<Url>): seq<Report> {
    ProcessEntries(SelectEntries(fileText), showDisallowOnly, oracle, resolve)
  }

  lemma FailureMessageStart(domain: string)
    ensures StartsWith(FailureMessage(domain), "Could not fetch")
  {
    assert FailureMessage(domain)[..15] == "Could not fetch";
  }

  /**
   * When neither scheme gets a body the failure message is shown as it is,
   * with or without `-d`: the guard never filters it.
   */
  lemma FailedFetchShownVerbatim(domain: string, showDisallowOnly: bool, oracle: Url -> Exchange,
                                 resolve: (Url, string) -> Option<Url>)
    requires Fetch(domain, DefaultRedirectLimit, oracle, resolve).Exhausted?
    ensures ProcessDomain(domain, showDisallowOnly, oracle, resolve) == Verbatim(Some(FailureMessage(domain)))
  {
    FailureMessageStart(domain);
  }

  /** A nil body (a 2xx without one) is not a String, so it is shown as it is even with `-d`. */
  lemma NilBodyShownVerbatim(domain: string, showDisallowOnly: bool, oracle: Url -> Exchange,
                             resolve: (Url, string) -> Option<Url>)
    requires Fetch(domain, DefaultRedirectLimit, oracle, resolve).Fetched?
    requires Fetch(domain, DefaultRedirectLimit, oracle, resolve).body.None?
    ensures ProcessDomain(domain, showDisallowOnly, oracle, resolve) == Verbatim(None)
  {
  }

  /**
   * `-l` reports exactly the lines that survive the skip rule, in file order,
   * each numbered by its line and processed like `-u` with its stripped text.
   */
  lemma ProcessListReportsSelectedLines(fileText: string, showDisallowOnly: bool, oracle: Url -> Exchange,
                                        resolve: (Url, string) -> Option<Url>, k: int)
    requires 0 <= k
    ensures var rs := ProcessList(fileText, showDisallowOnly, oracle, resolve);
            k < |rs| ==>
              && IsSelectedLine(fileText, rs[k].number, rs[k].domain)
              && rs[k].view == ProcessDomain(rs[k].domain, showDisallowOnly, oracle, resolve)
  {
    var entries := SelectEntries(fileText);
    if k >= |entries| {
      return;
    }
    var e := entries[k];
    assert e in entries;
    SelectEntriesExact(fileText, e);
    assert ProcessList(fileText, showDisallowOnly, oracle, resolve)[k]
           == Report(e.number, e.domain, ProcessDomain(e.domain, showDisallowOnly, oracle, resolve));
  }

  /** Conversely, every line that survives the skip rule gets a report under its own line number. */
  lemma EveryKeptLineIsReported(fileText: string, showDisallowOnly: bool, oracle: Url -> Exchange,
                                resolve: (Url, string) -> Option<Url>, n: int, domain: string)
    requires IsSelectedLine(fileText, n, domain)
    ensures Report(n, domain, ProcessDomain(domain, showDisallowOnly, oracle, resolve))
              in ProcessList(fileText, showDisallowOnly, oracle, resolve)
  {
    var e := Entry(n, domain);
    SelectEntriesExact(fileText, e);
    SelectedEntryIsReported(SelectEntries(fileText), e, showDisallowOnly, oracle, resolve);
  }

  lemma SelectedEntryIsReported(entries: seq<Entry>, e: Entry, showDisallowOnly: bool, oracle: Url -> Exchange,
                                resolve: (Url, string) -> Option<Url>)
    requires e in entries
    ensures Report(e.number, e.domain, ProcessDomain(e.domain, showDisallowOnly, oracle, resolve))
              in ProcessEntries(entries, showDisallowOnly, oracle, resolve)
  {
    var k :| 0 <= k < |entries| && entries[k] == e;
    assert ProcessEntries(entries, showDisallowOnly, oracle, resolve)[k]
           == Report(e.number, e.domain, ProcessDomain(e.domain, showDisallowOnly, oracle, resolve));
  }
}
