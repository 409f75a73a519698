/**
 * One run of the checker: collect the 64 slots (stopping at the first error), keep the available
 * matches, diff them position by position against the stored list, report the changed ones and
 * store the newly fetched list. The bot and the repository are not modelled: what is reported and what
 * is stored are results, and the stored list read back is a parameter.
 */
module Index {
  import opened Wrappers
  import opened Models
  import opened FifaProvider

  // ---------------------------------------------------------------------------------------------
  // The availability filter of `main`

  /** `[m for m in matches if m.is_available()]`. */
  function OnlyAvailable(ms: seq<Match>): (r: seq<Match>)
    ensures |r| <= |ms|
    ensures forall k :: 0 <= k < |r| ==> r[k].IsAvailable() && r[k] in ms
    ensures forall k :: 0 <= k < |ms| && ms[k].IsAvailable() ==> ms[k] in r
  {
    if ms == [] then []
    else (if ms[0].IsAvailable() then [ms[0]] else []) + OnlyAvailable(ms[1..])
  }

  /** The filter works element by element: filtering a concatenation concatenates the filtered
      parts, so input order and repeated matches are kept. */
  lemma {:induction false} OnlyAvailableConcat(a: seq<Match>, b: seq<Match>)
    ensures OnlyAvailable(a + b) == OnlyAvailable(a) + OnlyAvailable(b)
  {
    if a == [] {
      assert a + b == b;
    } else {
      assert (a + b)[1..] == a[1..] + b;
      OnlyAvailableConcat(a[1..], b);
    }
  }

  /** For each input position, whether the match there is available. */
  function AvailableFlags(ms: seq<Match>): (flags: seq<bool>)
    ensures |flags| == |ms|
  {
    seq(|ms|, i requires 0 <= i < |ms| => ms[i].IsAvailable())
  }

  lemma {:induction false} OnlyAvailablePrefix(ms: seq<Match>, n: nat)
    requires n <= |ms|
    ensures OnlyAvailable(ms[..n]) == Select(ms, AvailableFlags(ms), n)
  {
    if n > 0 {
      OnlyAvailablePrefix(ms, n - 1);
      assert ms[..n] == ms[..n - 1] + [ms[n - 1]];
      OnlyAvailableConcat(ms[..n - 1], [ms[n - 1]]);
      assert [ms[n - 1]][1..] == [];
    }
  }

  /** The filter's result is the order-preserving subsequence of the input at strictly increasing
      positions, which are exactly the positions of the available matches. */
  lemma OnlyAvailableAtPositions(ms: seq<Match>)
    ensures var r, ps := OnlyAvailable(ms), SelectedPositions(AvailableFlags(ms), |ms|);
      && |r| == |ps|
      && (forall k :: 0 <= k < |ps| ==> ps[k] < |ms| && r[k] == ms[ps[k]])
      && (forall k, l :: 0 <= k < l < |ps| ==> ps[k] < ps[l])
      && (forall i :: 0 <= i < |ms| ==> (i in ps <==> ms[i].IsAvailable()))
  {
    var flags := AvailableFlags(ms);
    OnlyAvailablePrefix(ms, |ms|);
    assert ms[..|ms|] == ms;
    SelectPicks(ms, flags, |ms|);
    PositionsAscending(flags, |ms|);
    PositionsMembership(flags, |ms|);
  }

  // ---------------------------------------------------------------------------------------------
  // `get_updated_matches`

  /** The element at position `i`, or `None` past the end (`zip_longest`'s fill value). */
  function At(s: seq<Match>, i: nat): (r: Option<Match>)
    ensures r.Some? <==> i < |s|
  {
    if i < |s| then Some(s[i]) else None
  }

  /** An incoming match is reported when no stored match is at its position, or when
      `set(new.available_categories) - set(old.available_categories)` is not empty. Categories
      compare by quality and price. */
  predicate IsUpdate(incoming: Match, stored: Option<Match>)
  {
    stored.None? ||
    |(set c | c in incoming.availableCategories) - (set c | c in stored.value.availableCategories)| > 0
  }

  /** For each incoming position, whether the match there is reported. */
  function UpdateFlags(current: seq<Match>, actual: seq<Match>): (flags: seq<bool>)
    ensures |flags| == |actual|
    ensures forall i :: 0 <= i < |actual| ==> flags[i] == IsUpdate(actual[i], At(current, i))
  {
    seq(|actual|, i requires 0 <= i < |actual| => IsUpdate(actual[i], At(current, i)))
  }

  /** The elements among the first `n` of `xs` whose flag is set, in order. */
  function Select(xs: seq<Match>, flags: seq<bool>, n: nat): seq<Match>
    requires n <= |xs| && n <= |flags|
  {
    if n == 0 then []
    else
      Select(xs, flags, n - 1) + (if flags[n - 1] then [xs[n - 1]] else [])
  }

  /** The result of `get_updated_matches(current, actual)`: `None` when it raises, which it does
      iff the stored list is longer (`zip_longest` then pairs a stored match with `None`). */
  function UpdatedMatches(current: seq<Match>, actual: seq<Match>): (r: Option<seq<Match>>)
    ensures r.None? <==> |current| > |actual|
  {
    if |current| > |actual| then None else Some(Select(actual, UpdateFlags(current, actual), |actual|))
  }

  /** The `zip_longest` loop appending to `updates`. */
  method GetUpdatedMatches(current: seq<Match>, actual: seq<Match>) returns (r: Option<seq<Match>>)
    ensures r == UpdatedMatches(current, actual)
  {
    ghost var flags := UpdateFlags(current, actual);
    var updates: seq<Match> := [];
    var n := if |actual| >= |current| then |actual| else |current|;
    var i := 0;
    while i < n
      invariant 0 <= i <= n && i <= |actual|
      invariant updates == Select(actual, flags, i)
    {
      var incoming, stored := At(actual, i), At(current, i);
      if stored.None? {
        updates := updates + [incoming.value];
      } else if incoming.None? {
        // `new.available_categories` on `None`: AttributeError
        return None;
      } else {
        var added := (set c | c in incoming.value.availableCategories) - (set c | c in stored.value.availableCategories);
        if |added| > 0 {
          updates := updates + [incoming.value];
        }
      }
      i := i + 1;
    }
    return Some(updates);
  }

  /** The inclusion test is "some incoming category is not among the stored ones", so a category
      whose price changed counts as new, and a match that only lost categories does not. */
  lemma IsUpdateIff(incoming: Match, stored: Match)
    ensures IsUpdate(incoming, Some(stored)) <==>
      exists c :: c in incoming.availableCategories && c !in stored.availableCategories
  {
    var added := (set c | c in incoming.availableCategories) - (set c | c in stored.availableCategories);
    if exists c :: c in incoming.availableCategories && c !in stored.availableCategories {
      var c :| c in incoming.availableCategories && c !in stored.availableCategories;
      assert c in added;
    } else {
      assert added == {};
    }
  }

  /** A tier still on sale at a different price, and not at its new price before, is reported. */
  lemma PriceChangeIsUpdate(incoming: Match, stored: Match, k: nat)
    requires k < |incoming.availableCategories|
    requires forall d :: d in stored.availableCategories && d.quality == incoming.availableCategories[k].quality ==>
      d.price != incoming.availableCategories[k].price
    ensures IsUpdate(incoming, Some(stored))
  {
    IsUpdateIff(incoming, stored);
    assert incoming.availableCategories[k] !in stored.availableCategories;
  }

  /** A match whose categories are all among the stored ones (only removals) is not reported. */
  lemma OnlyRemovalsNotUpdate(incoming: Match, stored: Match)
    requires forall c :: c in incoming.availableCategories ==> c in stored.availableCategories
    ensures !IsUpdate(incoming, Some(stored))
  {
    IsUpdateIff(incoming, stored);
  }

  /** The positions among the first `n` whose flag is set, ascending. */
  function SelectedPositions(flags: seq<bool>, n: nat): seq<nat>
    requires n <= |flags|
  {
    if n == 0 then []
    else
      SelectedPositions(flags, n - 1) + (if flags[n - 1] then [n - 1] else [])
  }

  lemma {:induction false} SelectPicks(xs: seq<Match>, flags: seq<bool>, n: nat)
    requires n <= |xs| && n <= |flags|
    ensures |Select(xs, flags, n)| == |SelectedPositions(flags, n)|
    ensures forall k :: 0 <= k < |SelectedPositions(flags, n)| ==>
      SelectedPositions(flags, n)[k] < n && Select(xs, flags, n)[k] == xs[SelectedPositions(flags, n)[k]]
  {
    if n > 0 {
      SelectPicks(xs, flags, n - 1);
    }
  }

  lemma {:induction false} PositionsAscending(flags: seq<bool>, n: nat)
    requires n <= |flags|
    ensures forall k :: 0 <= k < |SelectedPositions(flags, n)| ==> SelectedPositions(flags, n)[k] < n
    ensures forall k, l :: 0 <= k < l < |SelectedPositions(flags, n)| ==>
      SelectedPositions(flags, n)[k] < SelectedPositions(flags, n)[l]
  {
    if n > 0 {
      PositionsAscending(flags, n - 1);
      var prev := SelectedPositions(flags, n - 1);
      assert forall k :: 0 <= k < |prev| ==> prev[k] < n - 1;
    }
  }

  lemma {:induction false} PositionsMembership(flags: seq<bool>, n: nat)
    requires n <= |flags|
    ensures forall i :: 0 <= i < n ==> (i in SelectedPositions(flags, n) <==> flags[i])
  {
    if n > 0 {
      PositionsMembership(flags, n - 1);
      PositionsAscending(flags, n - 1);
      var prev := SelectedPositions(flags, n - 1);
      assert forall k :: 0 <= k < |prev| ==> prev[k] < n - 1;
      assert n - 1 !in prev;
    }
  }

  /** The diff is the order-preserving subsequence of the incoming list at exactly the positions `i`
      with no stored match at `i`, or with a category the stored match at `i` lacks. */
  lemma UpdatesAtPositions(current: seq<Match>, actual: seq<Match>)
    requires |current| <= |actual|
    ensures var us, ps := UpdatedMatches(current, actual).value, SelectedPositions(UpdateFlags(current, actual), |actual|);
      && |us| == |ps|
      && (forall k :: 0 <= k < |ps| ==> ps[k] < |actual| && us[k] == actual[ps[k]])
      && (forall k, l :: 0 <= k < l < |ps| ==> ps[k] < ps[l])
      && (forall i :: 0 <= i < |actual| ==> (i in ps <==> IsUpdate(actual[i], At(current, i))))
  {
    var flags := UpdateFlags(current, actual);
    SelectPicks(actual, flags, |actual|);
    PositionsAscending(flags, |actual|);
    PositionsMembership(flags, |actual|);
  }

  /** Therefore the diff is never longer than the incoming list. */
  lemma UpdatesNoLonger(current: seq<Match>, actual: seq<Match>)
    requires |current| <= |actual|
    ensures |UpdatedMatches(current, actual).value| <= |actual|
  {
    var flags := UpdateFlags(current, actual);
    SelectPicks(actual, flags, |actual|);
    PositionsAscending(flags, |actual|);
    PositionsBounded(SelectedPositions(flags, |actual|), |actual|);
  }

  /** Strictly increasing positions below `n` are at most `n` many. */
  lemma {:induction false} PositionsBounded(ps: seq<nat>, n: nat)
    requires forall k :: 0 <= k < |ps| ==> ps[k] < n
    requires forall k, l :: 0 <= k < l < |ps| ==> ps[k] < ps[l]
    ensures |ps| <= n
  {
    if ps != [] {
      var last := ps[|ps| - 1];
      PositionsBounded(ps[..|ps| - 1], last);
    }
  }

  lemma {:induction false} SelectNone(xs: seq<Match>, flags: seq<bool>, n: nat)
    requires n <= |xs| && n <= |flags|
    requires forall i :: 0 <= i < n ==> !flags[i]
    ensures Select(xs, flags, n) == []
  {
    if n > 0 {
      SelectNone(xs, flags, n - 1);
    }
  }

  lemma {:induction false} SelectAll(xs: seq<Match>, flags: seq<bool>, n: nat)
    requires n <= |xs| && n <= |flags|
    requires forall i :: 0 <= i < n ==> flags[i]
    ensures Select(xs, flags, n) == xs[..n]
  {
    if n > 0 {
      SelectAll(xs, flags, n - 1);
      assert xs[..n] == xs[..n - 1] + [xs[n - 1]];
    }
  }

  /** Diffing a list against itself reports nothing. */
  lemma DiffIdentity(b: seq<Match>)
    ensures UpdatedMatches(b, b) == Some([])
  {
    var flags := UpdateFlags(b, b);
    forall i | 0 <= i < |b| ensures !flags[i] {
      OnlyRemovalsNotUpdate(b[i], b[i]);
    }
    SelectNone(b, flags, |b|);
  }

  /** With nothing stored, every incoming match is reported, in order. */
  lemma EmptyStoredReportsAll(actual: seq<Match>)
    ensures UpdatedMatches([], actual) == Some(actual)
  {
    SelectAll(actual, UpdateFlags([], actual), |actual|);
    assert actual[..|actual|] == actual;
  }

  // ---------------------------------------------------------------------------------------------
  // `get_actual_matches`

  /** The collected matches, or `None` after an error, and the error messages sent to the bot. */
  datatype Collected = Collected(matches: Option<seq<Match>>, reported: seq<string>)

  /** `acc` in front of the matches collected afterwards; an abort passes through. */
  function PrependMatches(acc: seq<Match>, c: Collected): Collected
  {
    match c.matches
    case Some(ms) => Collected(Some(acc + ms), c.reported)
    case None => c
  }

  /** What `get_actual_matches` returns and reports for a sequence of fetch results: successes
      are collected in order; the first error is reported and ends the run with `None`. */
  function ActualMatches(results: seq<GetMatchResult>): Collected
    requires forall i :: 0 <= i < |results| ==> results[i].Constructed()
  {
    if results == [] then Collected(Some([]), [])
    else
      assert results[0].Constructed();
      if results[0].IsSuccess() then PrependMatches([results[0].record.value], ActualMatches(results[1..]))
    else Collected(None, [results[0].ErrorMessage()])
  }

  /** The matches of a sequence of successful results. */
  function Records(results: seq<GetMatchResult>): (ms: seq<Match>)
    requires forall i :: 0 <= i < |results| ==> results[i].record.Some?
    ensures |ms| == |results| && forall k :: 0 <= k < |ms| ==> Some(ms[k]) == results[k].record
  {
    if results == [] then [] else [results[0].record.value] + Records(results[1..])
  }

  /** Without errors, every match is returned in iteration order and nothing is reported. */
  lemma {:induction false} NoErrorCollectsAll(results: seq<GetMatchResult>)
    requires forall i :: 0 <= i < |results| ==> results[i].record.Some? && results[i].error.None?
    ensures ActualMatches(results) == Collected(Some(Records(results)), [])
  {
    if results != [] {
      NoErrorCollectsAll(results[1..]);
    }
  }

  /** With an error at `i` and none before, the run returns `None` after reporting exactly that
      error; nothing after it is fetched into the result or reported. */
  lemma {:induction false} FirstErrorAborts(results: seq<GetMatchResult>, i: nat)
    requires forall j :: 0 <= j < |results| ==> results[j].Constructed()
    requires i < |results| && results[i].IsError()
    requires forall j :: 0 <= j < i ==> !results[j].IsError()
    ensures ActualMatches(results) == Collected(None, [results[i].ErrorMessage()])
  {
    if i > 0 {
      FirstErrorAborts(results[1..], i - 1);
    }
  }

  /** One more result in front: a success is collected ahead of the rest, an error ends the run. */
  lemma CollectHead(r: GetMatchResult, rest: seq<GetMatchResult>)
    requires r.Constructed() && forall i :: 0 <= i < |rest| ==> rest[i].Constructed()
    ensures forall i :: 0 <= i < |[r] + rest| ==> ([r] + rest)[i].Constructed()
    ensures ActualMatches([r] + rest) ==
      if r.IsSuccess() then PrependMatches([r.record.value], ActualMatches(rest))
      else Collected(None, [r.ErrorMessage()])
  {
    assert ([r] + rest)[0] == r && ([r] + rest)[1..] == rest;
  }

  /** The `for m in matches_provider` loop (corrected as described at `ActualMatchesAsWritten`). */
  method GetActualMatches(web: string -> Response) returns (matches: Option<seq<Match>>, reported: seq<string>)
    ensures Collected(matches, reported) == ActualMatches(FullIteration(web))
  {
    var provider := new MatchesProvider();
    var actualMatches: seq<Match> := [];
    provider.Iter();
    ghost var whole := ActualMatches(FullIteration(web));
    PrependNothing(whole);
    while true
      invariant whole == PrependMatches(actualMatches, ActualMatches(provider.Pending(web)))
      decreases Performances.TotalMatchesCount + 1 - provider.CurrentMatchNumber()
    {
      var m := provider.Next(web);
      if m.None? {
        break;
      }
      var r := m.value;
      ghost var rest := provider.Pending(web);
      CollectHead(r, rest);
      if r.IsSuccess() {
        PrependTwice(actualMatches, [r.record.value], ActualMatches(rest));
        actualMatches := actualMatches + [r.record.value];
      } else {
        return None, [r.ErrorMessage()];
      }
    }
    assert actualMatches + [] == actualMatches;
    return Some(actualMatches), [];
  }

  lemma PrependNothing(c: Collected)
    ensures PrependMatches([], c) == c
  {
    if c.matches.Some? {
      assert [] + c.matches.value == c.matches.value;
    }
  }

  lemma PrependTwice(a: seq<Match>, b: seq<Match>, c: Collected)
    ensures PrependMatches(a, PrependMatches(b, c)) == PrependMatches(a + b, c)
  {
    if c.matches.Some? {
      assert a + (b + c.matches.value) == (a + b) + c.matches.value;
    }
  }

  const NoIsSuccess: string := "AttributeError: 'GetMatchResult' object has no attribute 'is_success'"

  /** `get_actual_matches` as written: the loop's first statement calls `m.is_success()`, which
      `GetMatchResult` does not define, so the first result raises `AttributeError` (and the
      `m.error` it would report is the `error` classmethod, not the message). */
  function ActualMatchesAsWritten(results: seq<GetMatchResult>): (r: Result<Collected>)
    ensures results != [] ==> r == Err(NoIsSuccess)
  {
    if results == [] then Ok(Collected(Some([]), [])) else Err(NoIsSuccess)
  }

  /** Every run therefore raises as written, even one in which every page is fetched cleanly. */
  lemma AsWrittenEveryRunRaises(web: string -> Response)
    ensures ActualMatchesAsWritten(FullIteration(web)).Err?
  {
  }

  // ---------------------------------------------------------------------------------------------
  // `update_state` and `main`

  datatype StateOutcome =
    | Skipped                                        // `UPDATE_STATE` is not "true"
    | Updated(reported: seq<Match>, stored: seq<Match>)
    | Failed(error: string)                          // caught and sent to the bot

  const UpdateFailed: string := "failed to update state\n"

  /** What `zip_longest`'s `None` raises when the diff reads its categories. */
  const NoneCategories: string := "AttributeError: 'NoneType' object has no attribute 'available_categories'"

  /** `update_state(bot, actual)` with the switch `enabled` and the stored list `current`: the
      changed matches are reported and the incoming list is stored; if the diff raises, the error
      is caught, reported, and nothing is stored. */
  function UpdateState(enabled: bool, current: seq<Match>, actual: seq<Match>): (o: StateOutcome)
    ensures o.Skipped? <==> !enabled
    ensures o.Failed? <==> enabled && |current| > |actual|
    ensures o.Updated? ==> o.stored == actual && |o.reported| <= |actual|
    ensures o.Updated? ==> o.reported == UpdatedMatches(current, actual).value
    ensures o.Failed? ==> o.error == UpdateFailed + NoneCategories
  {
    if !enabled then Skipped
    else match UpdatedMatches(current, actual)
      case None => Failed(UpdateFailed + NoneCategories)
      case Some(updates) =>
        UpdatesNoLonger(current, actual);
        Updated(updates, actual)
  }

  /** `main`: errors sent to the bot, matches reported as changed, and the list stored, if any. */
  method Run(web: string -> Response, enabled: bool, current: seq<Match>)
    returns (errors: seq<string>, reported: seq<Match>, stored: Option<seq<Match>>)
    ensures forall k :: 0 <= k < |reported| ==> reported[k].IsAvailable()
    ensures stored.Some? ==> forall k :: 0 <= k < |stored.value| ==> stored.value[k].IsAvailable()
    ensures ActualMatches(FullIteration(web)).matches.None? ==>
      errors == ActualMatches(FullIteration(web)).reported && reported == [] && stored == None
    ensures ActualMatches(FullIteration(web)).matches.Some? ==>
      var o := UpdateState(enabled, current, OnlyAvailable(ActualMatches(FullIteration(web)).matches.value));
      && (o.Skipped? ==> errors == [] && reported == [] && stored == None)
      && (o.Failed? ==> errors == [o.error] && reported == [] && stored == None)
      && (o.Updated? ==> errors == [] && reported == o.reported && stored == Some(o.stored))
  {
    var actualMatches, fetchErrors := GetActualMatches(web);
    if actualMatches.None? {
      return fetchErrors, [], None;
    }
    var onlyAvailable := OnlyAvailable(actualMatches.value);
    var outcome := UpdateState(enabled, current, onlyAvailable);
    match outcome
    case Skipped =>
      return [], [], None;
    case Failed(e) =>
      return [e], [], None;
    case Updated(updates, list) =>
      ReportedAreAvailable(current, onlyAvailable);
      return [], updates, Some(list);
  }

  /** Everything the diff reports comes from the list it is given, here the available matches. */
  lemma ReportedAreAvailable(current: seq<Match>, actual: seq<Match>)
    requires |current| <= |actual|
    requires forall k :: 0 <= k < |actual| ==> actual[k].IsAvailable()
    ensures forall k :: 0 <= k < |UpdatedMatches(current, actual).value| ==> UpdatedMatches(current, actual).value[k].IsAvailable()
  {
    UpdatesAtPositions(current, actual);
  }

  /** With nothing stored, `update_state` reports every available match and stores them. */
  lemma FirstRunReportsAllAvailable(fetched: seq<Match>)
    ensures UpdateState(true, [], OnlyAvailable(fetched)) == Updated(OnlyAvailable(fetched), OnlyAvailable(fetched))
  {
    EmptyStoredReportsAll(OnlyAvailable(fetched));
  }

  /** A match that sells out after a stored run blocks every later update: the filtered list is
      now shorter than the stored one, so `update_state` fails and stores nothing, and any later run
      with no more available matches than that diffs against the same stored list and fails again. */
  lemma SellOutBlocksUpdates(before: seq<Match>, after: seq<Match>, m: Match, later: seq<Match>)
    requires m.IsAvailable()
    requires |OnlyAvailable(later)| <= |OnlyAvailable(before)| + |OnlyAvailable(after)|
    ensures var stored := OnlyAvailable(before + [m] + after);
      && UpdateState(true, stored, OnlyAvailable(before + [m.(availableCategories := [])] + after)) ==
         Failed(UpdateFailed + NoneCategories)
      && UpdateState(true, stored, OnlyAvailable(later)) == Failed(UpdateFailed + NoneCategories)
  {
    var soldOut := m.(availableCategories := []);
    OnlyAvailableConcat(before + [m], after);
    OnlyAvailableConcat(before, [m]);
    OnlyAvailableConcat(before + [soldOut], after);
    OnlyAvailableConcat(before, [soldOut]);
    assert [m][1..] == [] && [soldOut][1..] == [];
  }
}
