/**
 * The fixed range of performance ids the ticket site is polled over, and the one formula that
 * turns a 1-based match number into a performance id and a page URL. Both the fetch loop and the
 * links printed with a match use it.
 */
module Performances {
  import opened Text

  const TotalMatchesCount: nat := 64
  const PerformanceIdsRangeStart: int := 101437163855
  const PerformanceIdsRangeEnd: int := PerformanceIdsRangeStart + TotalMatchesCount

  /** The two halves of the URL template around its `{}` placeholder. */
  const UrlPrefix: string := "https://fcfs-intl.fwc22.tickets.fifa.com/secure/selection/event/seat/performance/"
  const UrlSuffix: string := "/lang/en"

  /** `URL_TEMPLATE.format(performanceId)`. */
  function Url(performanceId: int): string
  {
    UrlPrefix + FormatInt(performanceId) + UrlSuffix
  }

  /** The performance id of a match: `PERFORMANCE_IDS_RANGE_START + matchNumber - 1`. */
  function PerformanceId(matchNumber: int): (id: int)
    ensures 1 <= matchNumber <= TotalMatchesCount ==> PerformanceIdsRangeStart <= id < PerformanceIdsRangeEnd
    ensures MatchNumberOf(id) == matchNumber
  {
    PerformanceIdsRangeStart + matchNumber - 1
  }

  /** The 1-based match number of a performance id. */
  function MatchNumberOf(performanceId: int): int
  {
    performanceId - PerformanceIdsRangeStart + 1
  }

  /** Different performance ids have different URLs, so a page is identified by its URL. */
  lemma UrlInjective(a: int, b: int)
    requires Url(a) == Url(b)
    ensures a == b
  {
    var fa, fb := FormatInt(a), FormatInt(b);
    assert |fa| == |fb|;
    assert fa == Url(a)[|UrlPrefix|..|UrlPrefix| + |fa|];
    assert fb == Url(b)[|UrlPrefix|..|UrlPrefix| + |fb|];
    ParseFormatInt(a);
    ParseFormatInt(b);
  }
}
