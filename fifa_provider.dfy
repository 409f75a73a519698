/**
 * `MatchesProvider`: an iterator over the 64 match slots. Its only state is the performance id
 * of the next page to fetch; each step fetches that page and turns whatever happens into a
 * `GetMatchResult`, never raising. The HTTP session, its retry policy and the markup parser are
 * not modelled: `web` gives, for a URL, the response after retries (or the exception the request
 * raised), and the response body is already the `Document` the parser would have built.
 */
module FifaProvider {
  import opened Wrappers
  import opened Text
  import opened Models
  import opened Performances

  datatype Response = Response(statusCode: int, content: Document) | Raised(detail: string)

  /** The label every error of a slot starts with. */
  function SlotLabel(matchNumber: int): string
  {
    "match_number: " + FormatInt(matchNumber) + ". "
  }

  /** `_fetch` for the page of `matchNumber`: a non-200 status, an exception while fetching or an
      exception while parsing is an error naming the slot; only status 200 with a clean parse is a
      success, carrying the parsed match. */
  function FetchOutcome(matchNumber: int, response: Response): (r: GetMatchResult)
    ensures r.Constructed()
    ensures r.IsError() <==>
      response.Raised? || response.statusCode != 200 || FromHtml(response.content).Err?
    ensures r.IsSuccess() ==> r.record == Some(FromHtml(response.content).value)
    ensures r.IsError() ==> SlotLabel(matchNumber) <= r.ErrorMessage()
    ensures response.Raised? ==> r.ErrorMessage() == SlotLabel(matchNumber) + "Exception: " + response.detail
    ensures response.Response? && response.statusCode != 200 ==>
      r.ErrorMessage() == SlotLabel(matchNumber) + "Bad response status code: " + FormatInt(response.statusCode)
    ensures response.Response? && response.statusCode == 200 && FromHtml(response.content).Err? ==>
      r.ErrorMessage() == SlotLabel(matchNumber) + "Exception: " + FromHtml(response.content).msg
  {
    match response
    case Raised(detail) =>
      GetMatchResult.Error(SlotLabel(matchNumber) + "Exception: " + detail)
    case Response(status, content) =>
      if status != 200 then
        GetMatchResult.Error(SlotLabel(matchNumber) + "Bad response status code: " + FormatInt(status))
      else match FromHtml(content)
        case Err(e) => GetMatchResult.Error(SlotLabel(matchNumber) + "Exception: " + e)
        case Ok(m) => GetMatchResult.Success(m)
  }

  /** What the provider yields for slot `matchNumber`. */
  function SlotResult(web: string -> Response, matchNumber: int): (r: GetMatchResult)
    ensures r.Constructed()
  {
    FetchOutcome(matchNumber, web(Url(PerformanceId(matchNumber))))
  }

  /** `f` at `from`, `from + 1`, ..., `to - 1`, in that order. */
  function Window<T>(f: int -> T, from: int, to: int): (s: seq<T>)
    requires from <= to
    ensures |s| == to - from
    ensures forall k :: 0 <= k < |s| ==> s[k] == f(from + k)
  {
    seq(to - from, k => f(from + k))
  }

  /** A non-empty window is its first element followed by the window one further on. */
  lemma WindowStep<T>(f: int -> T, from: int, to: int)
    requires from < to
    ensures Window(f, from, to) == [f(from)] + Window(f, from + 1, to)
  {
    var all := Window(f, from, to);
    var rest := Window(f, from + 1, to);
    forall k | 0 <= k < |all| ensures all[k] == ([f(from)] + rest)[k] {
      if k > 0 {
        assert rest[k - 1] == f(from + 1 + (k - 1));
      }
    }
  }

  /** What the provider still yields when slot `matchNumber` is current: the results of that slot
      and of every later one up to the last match, in order. */
  function Remaining(web: string -> Response, matchNumber: int): (rs: seq<GetMatchResult>)
    ensures matchNumber > TotalMatchesCount ==> rs == []
    ensures matchNumber <= TotalMatchesCount ==> |rs| == TotalMatchesCount + 1 - matchNumber
    ensures forall k :: 0 <= k < |rs| ==> rs[k].Constructed()
  {
    if matchNumber > TotalMatchesCount then []
    else Window(n => SlotResult(web, n), matchNumber, TotalMatchesCount + 1)
  }

  /** Past the last match nothing remains; otherwise the current slot's result comes first. */
  lemma RemainingStep(web: string -> Response, matchNumber: int)
    ensures matchNumber > TotalMatchesCount ==> Remaining(web, matchNumber) == []
    ensures matchNumber <= TotalMatchesCount ==>
      Remaining(web, matchNumber) == [SlotResult(web, matchNumber)] + Remaining(web, matchNumber + 1)
  {
    if matchNumber <= TotalMatchesCount {
      WindowStep(n => SlotResult(web, n), matchNumber, TotalMatchesCount + 1);
    }
  }

  /** Everything a full iteration yields. */
  function FullIteration(web: string -> Response): (rs: seq<GetMatchResult>)
    ensures |rs| == TotalMatchesCount
    ensures forall k :: 0 <= k < |rs| ==> rs[k].Constructed()
  {
    Remaining(web, 1)
  }

  /** A full iteration yields one result per match, for match numbers 1..64 in order. */
  lemma FullIterationSlots(web: string -> Response)
    ensures |FullIteration(web)| == TotalMatchesCount
    ensures forall k :: 0 <= k < TotalMatchesCount ==> FullIteration(web)[k] == SlotResult(web, k + 1)
  {
    var slot := n => SlotResult(web, n);
    assert FullIteration(web) == Window(slot, 1, TotalMatchesCount + 1);
    forall k | 0 <= k < TotalMatchesCount ensures FullIteration(web)[k] == SlotResult(web, k + 1) {
      assert Window(slot, 1, TotalMatchesCount + 1)[k] == slot(1 + k);
    }
  }

  class MatchesProvider {
    var currentPerformanceId: int

    constructor ()
      ensures currentPerformanceId == PerformanceIdsRangeStart
    {
      currentPerformanceId := PerformanceIdsRangeStart;
    }

    /** `_current_match_number`; its performance id is the one the link formula gives. */
    function CurrentMatchNumber(): (n: int)
      reads this
      ensures PerformanceId(n) == currentPerformanceId
    {
      MatchNumberOf(currentPerformanceId)
    }

    /** What the provider will still yield from its current slot on. */
    function Pending(web: string -> Response): (rs: seq<GetMatchResult>)
      reads this
      ensures forall k :: 0 <= k < |rs| ==> rs[k].Constructed()
    {
      Remaining(web, CurrentMatchNumber())
    }

    /** `__iter__`: back to the first slot. */
    method Iter()
      modifies this
      ensures currentPerformanceId == PerformanceIdsRangeStart && CurrentMatchNumber() == 1
    {
      currentPerformanceId := PerformanceIdsRangeStart;
    }

    /** `_fetch`: the current page, classified. */
    method Fetch(web: string -> Response) returns (r: GetMatchResult)
      ensures r == FetchOutcome(CurrentMatchNumber(), web(Url(currentPerformanceId)))
    {
      var response := web(Url(currentPerformanceId));
      if response.Raised? {
        return GetMatchResult.Error(SlotLabel(CurrentMatchNumber()) + "Exception: " + response.detail);
      }
      if response.statusCode != 200 {
        var error := SlotLabel(CurrentMatchNumber()) + "Bad response status code: " + FormatInt(response.statusCode);
        return GetMatchResult.Error(error);
      }
      var parsed := FromHtml(response.content);
      if parsed.Err? {
        return GetMatchResult.Error(SlotLabel(CurrentMatchNumber()) + "Exception: " + parsed.msg);
      }
      return GetMatchResult.Success(parsed.value);
    }

    /** `__next__`: `None` (StopIteration) past the last match, without touching the state;
        otherwise the current slot's result, and the next slot becomes current. */
    method Next(web: string -> Response) returns (r: Option<GetMatchResult>)
      modifies this
      ensures r.None? <==> old(CurrentMatchNumber()) > TotalMatchesCount
      ensures r.None? ==> currentPerformanceId == old(currentPerformanceId)
      ensures r.Some? ==> currentPerformanceId == old(currentPerformanceId) + 1
      ensures r.None? ==> old(Pending(web)) == []
      ensures r.Some? ==> old(Pending(web)) == [r.value] + Pending(web)
    {
      RemainingStep(web, CurrentMatchNumber());
      if CurrentMatchNumber() > TotalMatchesCount {
        return None;
      }
      var result := Fetch(web);
      currentPerformanceId := currentPerformanceId + 1;
      return Some(result);
    }
  }

  /** The page fetched for match `n` of the 64 is that of performance `START + n - 1`, inside the
      provider's id range, and no other match fetches it. */
  lemma SlotPages(n: int, k: int)
    requires 1 <= n <= TotalMatchesCount && 1 <= k <= TotalMatchesCount
    ensures PerformanceIdsRangeStart <= PerformanceId(n) < PerformanceIdsRangeEnd
    ensures Url(PerformanceId(n)) == Url(PerformanceId(k)) ==> n == k
  {
    if Url(PerformanceId(n)) == Url(PerformanceId(k)) {
      UrlInjective(PerformanceId(n), PerformanceId(k));
    }
  }
}
