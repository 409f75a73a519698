# FIFA World Cup 2022 ticket checker — a verified model

The checker polls the 64 seating pages of the FIFA World Cup 2022 ticket site, one per match.
From each page it reads a `Match`: its number, the two teams, the date, the time, the stadium,
and the categories (quality tier and price) still on sale. As intended, a failed page is reported
and stops the run. Otherwise it keeps the available matches and diffs them, position by position,
against the stored snapshot. It reports the matches that gained a category and stores the new
list. As written, the collection loop calls `m.is_success()` (index.py:40), which `GetMatchResult`
does not define. So every run raises `AttributeError` on its first result, and nothing is
reported, diffed or stored (see "## Findings"). The model proves both readings: the code as
written, and the intended run that the rest of the model builds on.

The project models:

- the provider's iterator state, as a class whose one field is the current performance id;
- the per-page classification into a `GetMatchResult`;
- the page reader `Match.from_html`, with its category extraction;
- the snapshot reader `Match.from_dict`, with `dataclasses.asdict` as its inverse;
- the text table of `Match.__str__`;
- the collection loop, the availability filter, the diff and one run of `main`.

The modules are:

- `Wrappers`: `Option` and `Result`.
- `Text`: the Python string operations the code relies on (`strip`, `split`, `int`, `str`, `join`, `*`).
- `Performances`: the id range and the page URL formula.
- `Models`: `models.py` without `__str__`.
- `MatchLayout`: `__str__`.
- `FifaProvider`: `fifa_provider.py`.
- `Index`: `index.py`.

The model follows the code as written in these points, where a reader might expect a diff by quality alone, a staleness warning on the stored snapshot, or a fetch error that is re-raised:

- A category counts as new when its (quality, price) pair was not stored before. `Category` is a frozen dataclass, so set difference compares both fields. A tier whose price changed is therefore reported as new.
- There is no staleness check on the stored snapshot.
- A fetch error reaches the bot only as a message. Nothing is re-raised.
- A diff failure is caught and reported by `update_state`.

How external things are modelled:

- The network is a parameter `web: string -> Response`. It maps a URL to the response after the session's retries, or to the exception the request raised.
- The response body is the `Document` the markup parser would build. The document keeps only the element texts that `from_html` reads. An element that `find` or `select_one` does not find is `None`.
- The stored list and the `UPDATE_STATE` switch are inputs.
- What the bot is sent and what is stored are outputs.

## Model

| member | source | states |
|---|---|---|
| Performances.PerformanceId | fifa_provider.py:61-63 | For match numbers 1..64 the performance id lies in the provider's range [START, END). `_current_match_number` gives the number back. |
| Performances.UrlInjective | fifa_provider.py:14 | Filling the URL template with two ids gives the same URL only when the ids are equal. So each page belongs to one performance. |
| Text.StripLeftSuffix | models.py:40-45 | `lstrip()` keeps the suffix that follows a run of whitespace and starts with a non-space. |
| Text.StripRightPrefix | models.py:40-45 | `rstrip()` keeps the prefix that precedes a run of whitespace and ends with a non-space. |
| Text.StripPadded | models.py:40-45 | `strip()` of whitespace + t + whitespace is t, for t without whitespace at its ends. |
| Text.SplitTokens | models.py:38 | Each piece `split()` returns is non-empty and has no whitespace. |
| Text.SplitJoinSpaced | models.py:38 | `split()` of tokens joined by single spaces gives the tokens back. |
| Text.SplitSpaced | models.py:38 | `split()` gives the tokens back from any text made of leading whitespace and tokens, each token followed by its own whitespace run. These runs may contain any whitespace characters and be of any length; all but the last are non-empty. |
| Text.DigitsValue | models.py:70 | A digit string has a decimal value iff it is non-empty and all ASCII digits. |
| Text.ParseFormatInt | models.py:69-70 | `int(str(n)) == n` for every integer n, negative ones included. |
| Models.SecondTokenOfWords | models.py:38 | The text "word N" yields N. |
| Models.SecondTokenOfSpaced | models.py:38 | For any text of tokens and whitespace, `int(text.split()[1])` raises `IndexError` when there are fewer than two tokens and `ValueError` when the second token is not an integer literal. Otherwise it is the value of the second token. The text may have leading whitespace, runs of any whitespace between tokens (newlines and indentation included) and trailing whitespace. |
| Models.SecondTokenOfIndentedText | models.py:38 | An indented round element with a line break after its number, "\n    Match N\n  ", reads as N for every integer N. |
| Models.ExtractAvailableCategories | models.py:59-72 | The generator loop with its two `continue`s collects exactly the specification function `AvailableCategories` of the seat rows. This includes which exception aborts it. |
| Models.SurvivorStep | models.py:61-72 | In a clean extraction, the first row raises nothing. A row that yields a category adds that category and one surviving row in front. A skipped row adds nothing except one to the skipped count. |
| Models.ExtractedAreSurvivors | models.py:61-72 | A clean extraction has one category per surviving row, in document order. A row survives when it is not overlaid and has the tariff "Ticket Price". Each category is that row's parse. Their number is rows − overlaid − other-tariff. |
| Models.ExtractionFailsAtFirstBadRow | models.py:62-70 | The extraction succeeds iff no row raises. If some row raises, it fails with the first such row's exception. |
| Models.OverlaidSeatIgnored | models.py:63-64 | The overlay test comes first. Inserting an overlaid row anywhere, malformed or not, leaves the result unchanged. |
| Models.ClassifyShapes | models.py:62-72 | An overlaid or other-tariff row is skipped. A row that yields a category survives both filters. A skipped row is exactly one of the two kinds. |
| Models.FromHtml | models.py:34-57 | A page parses iff it has a round with an integer second token, all five text elements, and a clean category extraction. |
| Models.FromHtmlAvailability | models.py:74-75 | A parsed match is available iff some seat row on its page survives the filters. |
| Models.SeatRowParses | models.py:61-72 | The row "Category q" / "Ticket Price" / "p" yields `Category(q, p)`. |
| Models.SeatsOfParse | models.py:59-72 | One such row per category extracts the categories back, in order. |
| Models.FromHtmlOfPage | models.py:34-57 | The plain page of a match whose text fields are already trimmed parses back to that match. |
| Models.CategoriesToList | encoding.py:8-11 | `asdict` stores each category as the dictionary {quality, price}, in order. |
| Models.ToDict | encoding.py:8-11 | `asdict` of a match has exactly the seven field names as keys. |
| Models.CategoriesFromList | models.py:31 | A clean `[Category(**c) for c in ...]` has one category per item. |
| Models.FromDict | models.py:28-32 | `Match(**data)` succeeds only when the keys are exactly the seven field names. |
| Models.CategoriesRoundTrip | models.py:31 | Stored categories read back as the same list. |
| Models.FromDictToDict | models.py:28-32 | `from_dict(asdict(m)) == m` for every match. |
| Models.CategoriesFromListInverse | models.py:31 | A list that reads back as categories is those categories' stored list. |
| Models.ToDictFromDict | models.py:28-32 | Conversely, a dictionary that `from_dict` accepts, with a list of categories, is the stored form of the match it yields. |
| Models.GetMatchResult.Success | models.py:177-179 | `success(m)` is not an error and carries m. |
| Models.GetMatchResult.Error | models.py:181-186 | `error(e)` is an error whose message is e. |
| MatchLayout.CategoryLabels | models.py:128 | One label "Cat q" per category, in order. |
| MatchLayout.Width | models.py:132-136 | The width is the length of the longest of the header, date and location rows. |
| MatchLayout.Pad | models.py:138-146 | A padded row has length max(width + 2, its own length). |
| MatchLayout.PadCentres | models.py:138-146 | A row no wider than the column gets at least one tab on each side. The odd tab goes before the row. |
| MatchLayout.HorizontalLine | models.py:154 | The rule is width + 5 characters long: `+`, width + 2 dashes, `+`, newline. |
| MatchLayout.TableAligned | models.py:148-169 | Framed, the header, date and location rows are exactly as long as the rule. The framed categories row is never shorter than the rule. The padded link, which is not framed, is never shorter than the column (width + 2). |
| MatchLayout.RenderLayout | models.py:156-169 | `str(match)` opens with the fence and the first seven table lines: the rule, then the framed header, date and location rows, each followed by the rule. Each of these lines is as long as the rule, so together they span 4 + 7·(width + 5) characters. The text ends with the padded link. |
| FifaProvider.FetchOutcome | fifa_provider.py:44-59 | `_fetch` returns an error iff the request raised, or the status is not 200, or `from_html` raised. Otherwise it returns a success carrying the parsed match. Every error message starts with "match_number: N. ". After that prefix comes "Bad response status code: " and the status code for a non-200 status. For an exception it is "Exception: " and the exception's text, from the request or from `from_html`. |
| FifaProvider.WindowStep | fifa_provider.py:36-42 | A non-empty window is its first value followed by the window that starts one slot later. |
| FifaProvider.Remaining | fifa_provider.py:36-42 | From match n on, the iterator still yields 65 − n results, and none once n is past 64. Each result is either a success or an error, as `success` and `error` build them. |
| FifaProvider.RemainingStep | fifa_provider.py:36-42 | Past match 64 nothing remains. Otherwise the current slot's result comes first, followed by what remains from the next slot. |
| FifaProvider.FullIteration | fifa_provider.py:32-42 | A full iteration yields 64 results, each a success or an error. |
| FifaProvider.FullIterationSlots | fifa_provider.py:32-42 | The k-th result of a full iteration is the fetch of match k + 1, for k in 0..63. |
| FifaProvider.MatchesProvider.constructor | fifa_provider.py:30 | A new provider starts at the first performance id. |
| FifaProvider.MatchesProvider.CurrentMatchNumber | fifa_provider.py:61-63 | The current match number is the one whose performance id is the current id. |
| FifaProvider.MatchesProvider.Iter | fifa_provider.py:32-34 | `__iter__` resets to the first id, which is match 1. |
| FifaProvider.MatchesProvider.Fetch | fifa_provider.py:44-59 | The fetch classifies exactly what the web returns for the current page's URL. |
| FifaProvider.MatchesProvider.Next | fifa_provider.py:36-42 | Past match 64, `__next__` stops without changing the state. Otherwise it yields the current slot's result and advances the id by one. |
| FifaProvider.SlotPages | fifa_provider.py:14-17 | Each of the 64 match numbers fetches a page inside the id range, and no two fetch the same URL. |
| Index.OnlyAvailable | index.py:32 | The filter keeps exactly the available matches: every kept match is available and comes from the input, and every available input match is kept. |
| Index.OnlyAvailableConcat | index.py:32 | Filtering a concatenation concatenates the filtered parts, so the filter keeps input order and repeated matches. |
| Index.OnlyAvailableAtPositions | index.py:32 | The filtered list is the ordered subsequence of the input at strictly increasing positions. These are exactly the positions of the available matches. |
| Index.At | index.py:65 | The `zip_longest` fill value is `None` exactly past the end. |
| Index.UpdatedMatches | index.py:63-70 | The diff raises iff the stored list is longer than the incoming one. |
| Index.GetUpdatedMatches | index.py:63-70 | The `zip_longest` loop computes exactly `UpdatedMatches`, including the `AttributeError` on an incoming `None`. |
| Index.IsUpdateIff | index.py:68 | The set test is true iff some incoming category is not among the stored ones. |
| Index.PriceChangeIsUpdate | index.py:68 | A tier still on sale, at a price not stored for that tier, makes the match reported. |
| Index.OnlyRemovalsNotUpdate | index.py:68 | A match that only lost categories is not reported. |
| Index.UpdatesAtPositions | index.py:63-70 | The diff is the ordered subsequence of the incoming list at strictly increasing positions. These are exactly the positions with nothing stored or with a new category. |
| Index.UpdatesNoLonger | index.py:63-70 | The diff is never longer than the incoming list. |
| Index.DiffIdentity | index.py:63-70 | A list diffed against itself reports nothing. |
| Index.EmptyStoredReportsAll | index.py:66-67 | With nothing stored, every incoming match is reported, in order. |
| Index.NoErrorCollectsAll | index.py:36-45 | Without errors, every match is returned in iteration order and nothing is reported. |
| Index.FirstErrorAborts | index.py:42-44 | After the first error, the run reports exactly that error and returns `None`. |
| Index.CollectHead | index.py:39-44 | With one more result in front, a success is collected ahead of what the rest collects. An error ends the run, reporting exactly that error. |
| Index.GetActualMatches | index.py:36-45 | The loop over a new provider returns and reports exactly `ActualMatches` of the full iteration. |
| Index.AsWrittenEveryRunRaises | index.py:39-40 | As written, every run raises, even one in which every page is fetched cleanly. |
| Index.UpdateState | index.py:48-61 | Nothing happens when the switch is off. The diff failure is caught and reported iff the stored list is longer. Otherwise the incoming list is stored and exactly the diff `UpdatedMatches(current, actual)`, no longer than it, is reported. A caught failure reports "failed to update state\n" followed by the `AttributeError` text. |
| Index.Run | index.py:25-33 | Every reported and every stored match is available. A fetch error is reported alone, and then nothing is diffed or stored. After a clean fetch, the outputs are those of `update_state` on the available matches. With the switch off, nothing is reported or stored. A caught failure is reported alone and nothing is stored. Otherwise the diff is reported and the available list is stored. |
| Index.ReportedAreAvailable | index.py:32-33 | Everything the diff reports comes from the available list. |
| Index.FirstRunReportsAllAvailable | index.py:32-33 | With nothing stored, `update_state` reports and stores every available match. |
| Index.SellOutBlocksUpdates | index.py:32-61 | The diff runs on the filtered list, so once a stored match sells out, the filtered list is shorter than the stored one. `update_state` then fails and stores nothing. Every later run with no more available matches than that fails the same way, because the stored list stays the same. |

## Left out

- The HTTP session, its `User-Agent` header and its retry policy are not modelled. The `web` parameter returns the response after retries. `self._session.get(...)` sets no timeout, so a request may never return. `web` always returns, so the model does not capture a run that hangs.
- `BeautifulSoup` parsing and CSS selection are not modelled. A page is the `Document` of texts that `from_html` reads. `select` is assumed to list rows in document order.
- `repository.py`, `reporter.py`, `timestamp.py` and `countries.py` are not part of this model. They cover storage, the Telegram bot, timestamps and flags.
- From `encoding.py`, only the `dataclasses.asdict` conversion is modelled, as `ToDict`. The JSON text written by `json.dumps` and read by `json.loads` is not modelled.
- `Match.as_keyboard` is not modelled: it builds Telegram buttons and parses dates.
- Reading, writing and deserialising the stored snapshot are not modelled. The stored list is an input of `Run`, and `from_dict` is modelled on decoded JSON values.
- `asyncio`, logging, `os.getenv` and `datetime.now()` are not modelled. The `UPDATE_STATE` switch is a boolean input, and the timestamp of a store is not modelled.
- Exception texts are fixed strings rather than Python's messages and tracebacks. Where the source appends `traceback.format_exc()`, the model appends the exception's message instead of the whole traceback. In `_fetch` this is the request's exception text or the `from_html` error. In `update_state` it is the diff's `AttributeError`.
- Text.ParseInt: accepts an optional sign and ASCII digits only. Python's `int()` also takes underscores between digits and non-ASCII decimal digits.
- Strings are sequences of code points. Decoding the response bytes is not modelled.
- Models.FromDict: returns an error on a value of the wrong type, for example a string where an int belongs. The dataclass constructor would accept such a value unchecked.
- A `Match` is modelled as a value. The one update after construction is `from_dict` reassigning `available_categories` right after `Match(**data)`. The model writes it as the datatype update `raw.(availableCategories := cs)`. No other reference to the half-built match exists at that point, so aliasing does not matter.
- Index.UpdateState: reports a caught failure only for the diff's `AttributeError`. The same `try` also covers the repository's read and store, and `bot.report_matches`, which builds each match's buttons with `datetime.strptime` and sends them through Telegram. These are not modelled. If reading or reporting raises, the source reports the error and stores nothing. If storing raises, the diff has already been reported and the error is reported after it. The model instead always reports the diff and stores after a clean diff.

## Findings

| source | as written | input that shows it | evidently intended | confidence | as-written member | corrected member |
|---|---|---|---|---|---|---|
| index.py:40-43 | `m.is_success()` is called, but `GetMatchResult` defines only `is_error`. `m.error` is the `error` classmethod, not the stored message. | Any run: the first result yielded, success or error, raises `AttributeError` | A result is a success when it is not an error. The reported text is the stored `_error` message. | not executed | Index.ActualMatchesAsWritten, Index.AsWrittenEveryRunRaises | Index.GetActualMatches |
