/**
 * The match record, its ticket categories, and how both are read from a seating page and from
 * the stored JSON snapshot. The page's markup tree is replaced by the few values the extraction
 * reads from it; a nested element that `find`/`select_one` does not find is `None`, and using it
 * raises `AttributeError` in the source, which is an `Err` here.
 */
module Models {
  import opened Wrappers
  import opened Text

  /** A seating category on sale. A frozen dataclass: equal iff quality AND price are equal. */
  datatype Category = Category(quality: int, price: int)

  datatype Match = Match(
    matchNumber: int,
    hostTeam: string,
    opposingTeam: string,
    matchDate: string,
    matchTime: string,
    stadium: string,
    availableCategories: seq<Category>)
  {
    predicate IsAvailable()
    {
      |availableCategories| > 0
    }
  }

  // ---------------------------------------------------------------------------------------------
  // Category extraction

  /** The nested `category` element of a seat row: whether it holds a
      `category_unavailable_overlay` element, and its text. */
  datatype CategoryElement = CategoryElement(hasUnavailableOverlay: bool, text: string)

  /** One `seat_category_end` element: its nested `category`, `tariff` and `int_part` elements. */
  datatype SeatElement = SeatElement(
    category: Option<CategoryElement>,
    tariff: Option<string>,
    intPart: Option<string>)

  const TicketPrice: string := "Ticket Price"

  const MissingElement: string := "AttributeError: 'NoneType' object has no attribute"
  const IndexError: string := "IndexError: list index out of range"
  const ValueError: string := "ValueError: invalid literal for int() with base 10"

  /** `int(text.split()[1])`. */
  function SecondTokenInt(text: string): (r: Result<int>)
    ensures |Split(text)| < 2 ==> r == Err(IndexError)
    ensures |Split(text)| >= 2 && ParseInt(Split(text)[1]).None? ==> r == Err(ValueError)
    ensures r.Ok? ==> |Split(text)| >= 2 && ParseInt(Split(text)[1]) == Some(r.value)
  {
    var tokens := Split(text);
    if |tokens| < 2 then Err(IndexError)
    else match ParseInt(tokens[1])
      case None => Err(ValueError)
      case Some(n) => Ok(n)
  }

  /** The number written after a first word is read back. */
  lemma SecondTokenOfWords(first: string, n: int)
    requires IsToken(first)
    ensures SecondTokenInt(first + " " + FormatInt(n)) == Ok(n)
  {
    SplitTwoTokens(first, FormatInt(n));
    ParseFormatInt(n);
  }

  /** For any text made of tokens and whitespace (leading whitespace, whitespace runs of any kind
      between the tokens, trailing whitespace), as element text with indentation and line breaks
      reads: fewer than two tokens is an `IndexError`, a second token that is not an integer
      literal a `ValueError`, and otherwise the value is that of the second token. */
  lemma SecondTokenOfSpaced(lead: string, words: seq<string>, seps: seq<string>)
    requires AllSpace(lead) && |words| == |seps| && Separators(seps)
    requires forall k :: 0 <= k < |words| ==> IsToken(words[k])
    ensures |words| < 2 ==> SecondTokenInt(lead + Spaced(words, seps)) == Err(IndexError)
    ensures |words| >= 2 && ParseInt(words[1]).None? ==> SecondTokenInt(lead + Spaced(words, seps)) == Err(ValueError)
    ensures |words| >= 2 && ParseInt(words[1]).Some? ==>
      SecondTokenInt(lead + Spaced(words, seps)) == Ok(ParseInt(words[1]).value)
  {
    SplitSpaced(lead, words, seps);
  }

  /** An indented round element with a line break after its number reads as that number. */
  lemma SecondTokenOfIndentedText(n: int)
    ensures SecondTokenInt("\n    Match " + FormatInt(n) + "\n  ") == Ok(n)
  {
    var lead, words, seps := "\n    ", ["Match", FormatInt(n)], [" ", "\n  "];
    assert words[1..] == [FormatInt(n)] && seps[1..] == ["\n  "];
    assert Spaced([FormatInt(n)], ["\n  "]) == FormatInt(n) + "\n  " + Spaced([], []);
    assert Spaced(words, seps) == "Match" + " " + (FormatInt(n) + "\n  " + []);
    assert "\n    Match " + FormatInt(n) + "\n  " == lead + Spaced(words, seps);
    ParseFormatInt(n);
    SecondTokenOfSpaced(lead, words, seps);
  }

  /** What one seat element contributes: nothing, a category, or an exception. */
  datatype SeatOutcome = Skip | Emit(c: Category) | Fail(msg: string)

  /** One iteration of the generator loop in `_extract_available_categories`. */
  function ClassifySeat(e: SeatElement): SeatOutcome
  {
    match e.category
    case None => Fail(MissingElement)
    case Some(category) =>
      if category.hasUnavailableOverlay then Skip
      else match e.tariff
        case None => Fail(MissingElement)
        case Some(tariff) =>
          if Strip(tariff) != TicketPrice then Skip
          else match SecondTokenInt(Strip(category.text))
            case Err(m) => Fail(m)
            case Ok(quality) =>
              match e.intPart
              case None => Fail(MissingElement)
              case Some(text) =>
                match ParseInt(text)
                case None => Fail(ValueError)
                case Some(price) => Emit(Category(quality, price))
  }

  /** `list(_extract_available_categories(document))`, element by element in document order;
      the first exception aborts the whole list. */
  function AvailableCategories(seats: seq<SeatElement>): Result<seq<Category>>
    decreases |seats|, 1
  {
    if seats == [] then Ok([]) else FirstRowThenRest(seats)
  }

  /** The first row's contribution in front of the rest's. */
  function FirstRowThenRest(seats: seq<SeatElement>): Result<seq<Category>>
    requires seats != []
    decreases |seats|, 0
  {
    match ClassifySeat(seats[0])
    case Fail(m) => Err(m)
    case Skip => AvailableCategories(seats[1..])
    case Emit(c) => Prepend([c], AvailableCategories(seats[1..]))
  }

  /** `cs` followed by the categories of a successful extraction; an exception passes through. */
  function Prepend(cs: seq<Category>, r: Result<seq<Category>>): Result<seq<Category>>
  {
    match r
    case Ok(rest) => Ok(cs + rest)
    case Err(m) => Err(m)
  }

  lemma PrependPrepend(a: seq<Category>, b: seq<Category>, r: Result<seq<Category>>)
    ensures Prepend(a, Prepend(b, r)) == Prepend(a + b, r)
  {
    if r.Ok? {
      assert a + (b + r.value) == (a + b) + r.value;
    }
  }

  /** The generator loop with its two `continue` filters, collecting into a list. */
  method ExtractAvailableCategories(seats: seq<SeatElement>) returns (r: Result<seq<Category>>)
    ensures r == AvailableCategories(seats)
  {
    var categories: seq<Category> := [];
    var i := 0;
    assert seats[i..] == seats;
    assert Prepend(categories, AvailableCategories(seats)) == AvailableCategories(seats) by {
      if AvailableCategories(seats).Ok? { assert [] + AvailableCategories(seats).value == AvailableCategories(seats).value; }
    }
    while i < |seats|
      invariant 0 <= i <= |seats|
      invariant AvailableCategories(seats) == Prepend(categories, AvailableCategories(seats[i..]))
    {
      var elem := seats[i];
      assert seats[i..][1..] == seats[i + 1..];
      i := i + 1;
      if elem.category.None? {
        return Err(MissingElement);
      }
      var category := elem.category.value;
      if category.hasUnavailableOverlay {
        continue;
      }
      if elem.tariff.None? {
        return Err(MissingElement);
      }
      var tariff := Strip(elem.tariff.value);
      if tariff != TicketPrice {
        continue;
      }
      var quality := SecondTokenInt(Strip(category.text));
      if quality.Err? {
        return Err(quality.msg);
      }
      if elem.intPart.None? {
        return Err(MissingElement);
      }
      var price := ParseInt(elem.intPart.value);
      if price.None? {
        return Err(ValueError);
      }
      var c := Category(quality.value, price.value);
      PrependPrepend(categories, [c], AvailableCategories(seats[i..]));
      categories := categories + [c];
    }
    assert seats[i..] == [];
    assert categories + [] == categories;
    return Ok(categories);
  }

  /** The rows the extraction keeps: not overlaid, and with the tariff text "Ticket Price". */
  predicate Survives(e: SeatElement)
  {
    e.category.Some? && !e.category.value.hasUnavailableOverlay &&
    e.tariff.Some? && Strip(e.tariff.value) == TicketPrice
  }

  predicate Overlaid(e: SeatElement)
  {
    e.category.Some? && e.category.value.hasUnavailableOverlay
  }

  predicate OtherTariff(e: SeatElement)
  {
    e.category.Some? && !e.category.value.hasUnavailableOverlay &&
    e.tariff.Some? && Strip(e.tariff.value) != TicketPrice
  }

  /** The surviving rows, in document order. */
  function Survivors(seats: seq<SeatElement>): (r: seq<SeatElement>)
    ensures |r| <= |seats|
    ensures forall k :: 0 <= k < |r| ==> Survives(r[k])
  {
    if seats == [] then []
    else (if Survives(seats[0]) then [seats[0]] else []) + Survivors(seats[1..])
  }

  function CountOverlaid(seats: seq<SeatElement>): nat
  {
    if seats == [] then 0 else (if Overlaid(seats[0]) then 1 else 0) + CountOverlaid(seats[1..])
  }

  function CountOtherTariff(seats: seq<SeatElement>): nat
  {
    if seats == [] then 0 else (if OtherTariff(seats[0]) then 1 else 0) + CountOtherTariff(seats[1..])
  }

  /** One row in front of a successful extraction: it raises nothing; emitting, it adds its
      category and a survivor and no skipped row; skipped, it adds one skipped row only. */
  lemma SurvivorStep(seats: seq<SeatElement>)
    requires seats != [] && AvailableCategories(seats).Ok?
    ensures AvailableCategories(seats[1..]).Ok? && !ClassifySeat(seats[0]).Fail?
    ensures ClassifySeat(seats[0]).Emit? ==>
      && AvailableCategories(seats).value == [ClassifySeat(seats[0]).c] + AvailableCategories(seats[1..]).value
      && Survivors(seats) == [seats[0]] + Survivors(seats[1..])
      && CountOverlaid(seats) + CountOtherTariff(seats) == CountOverlaid(seats[1..]) + CountOtherTariff(seats[1..])
    ensures ClassifySeat(seats[0]).Skip? ==>
      && AvailableCategories(seats).value == AvailableCategories(seats[1..]).value
      && Survivors(seats) == Survivors(seats[1..])
      && CountOverlaid(seats) + CountOtherTariff(seats) == CountOverlaid(seats[1..]) + CountOtherTariff(seats[1..]) + 1
  {
    ClassifyShapes(seats[0]);
  }

  /** A successful extraction is exactly the surviving rows, each parsed into its category, in
      document order; so it has N - (overlaid) - (other tariff) entries. */
  lemma {:induction false} ExtractedAreSurvivors(seats: seq<SeatElement>)
    requires AvailableCategories(seats).Ok?
    ensures var cs := AvailableCategories(seats).value;
      && |cs| == |Survivors(seats)|
      && (forall k :: 0 <= k < |cs| ==> ClassifySeat(Survivors(seats)[k]) == Emit(cs[k]))
      && |cs| == |seats| - CountOverlaid(seats) - CountOtherTariff(seats)
  {
    if seats != [] {
      var e, tail := seats[0], seats[1..];
      SurvivorStep(seats);
      ExtractedAreSurvivors(tail);
      var cs, ct := AvailableCategories(seats).value, AvailableCategories(tail).value;
      var ss, st := Survivors(seats), Survivors(tail);
      if ClassifySeat(e).Emit? {
        forall k | 0 <= k < |cs| ensures ClassifySeat(ss[k]) == Emit(cs[k]) {
          if k > 0 {
            assert ss[k] == st[k - 1] && cs[k] == ct[k - 1];
          }
        }
      }
    }
  }

  /** How the classification of one row relates to the three kinds of rows. */
  lemma ClassifyShapes(e: SeatElement)
    ensures Overlaid(e) ==> ClassifySeat(e) == Skip
    ensures OtherTariff(e) ==> ClassifySeat(e) == Skip
    ensures ClassifySeat(e).Emit? ==> Survives(e)
    ensures ClassifySeat(e) == Skip ==> !Survives(e) && (Overlaid(e) != OtherTariff(e))
  {
  }

  /** The extraction fails iff some row raises, and then with the first such row's exception. */
  lemma {:induction false} ExtractionFailsAtFirstBadRow(seats: seq<SeatElement>)
    ensures AvailableCategories(seats).Ok? <==> forall i :: 0 <= i < |seats| ==> !ClassifySeat(seats[i]).Fail?
    ensures AvailableCategories(seats).Err? ==>
      exists i :: 0 <= i < |seats| && ClassifySeat(seats[i]) == Fail(AvailableCategories(seats).msg) &&
        forall j :: 0 <= j < i ==> !ClassifySeat(seats[j]).Fail?
  {
    if seats != [] {
      var tail := seats[1..];
      ExtractionFailsAtFirstBadRow(tail);
      assert forall i :: 0 <= i < |tail| ==> tail[i] == seats[i + 1];
      if AvailableCategories(seats).Err? && !ClassifySeat(seats[0]).Fail? {
        var i :| 0 <= i < |tail| && ClassifySeat(tail[i]) == Fail(AvailableCategories(tail).msg) &&
          forall j :: 0 <= j < i ==> !ClassifySeat(tail[j]).Fail?;
        assert ClassifySeat(seats[i + 1]) == Fail(AvailableCategories(seats).msg);
        assert forall j :: 0 <= j < i + 1 ==> !ClassifySeat(seats[j]).Fail? by {
          forall j | 0 <= j < i + 1 ensures !ClassifySeat(seats[j]).Fail? {
            if j > 0 { assert seats[j] == tail[j - 1]; }
          }
        }
      }
    }
  }

  /** The overlay check comes first: an overlaid row is ignored whatever its tariff, its category
      text or its price, so adding one anywhere changes nothing. */
  lemma {:induction false} OverlaidSeatIgnored(pre: seq<SeatElement>, e: SeatElement, post: seq<SeatElement>)
    requires Overlaid(e)
    ensures AvailableCategories(pre + [e] + post) == AvailableCategories(pre + post)
  {
    if pre == [] {
      assert ([e] + post)[1..] == post;
      assert pre + [e] + post == [e] + post;
      assert pre + post == post;
    } else {
      OverlaidSeatIgnored(pre[1..], e, post);
      assert (pre + [e] + post)[1..] == pre[1..] + [e] + post;
      assert (pre + post)[1..] == pre[1..] + post;
    }
  }

  // ---------------------------------------------------------------------------------------------
  // Reading a match page

  /** The text of each element `from_html` looks up; `site` is the `site` element inside the
      `location` element, `None` when either is missing. */
  datatype Document = Document(
    round: Option<string>,
    hostTeam: Option<string>,
    opposingTeam: Option<string>,
    day: Option<string>,
    time: Option<string>,
    site: Option<string>,
    seats: seq<SeatElement>)

  /** `Match.from_html`: every required element present, the round's second token an integer,
      and a clean category extraction, or the first exception raised. */
  function FromHtml(doc: Document): (r: Result<Match>)
    ensures r.Ok? <==>
      && doc.round.Some? && SecondTokenInt(doc.round.value).Ok?
      && doc.hostTeam.Some? && doc.opposingTeam.Some? && doc.day.Some? && doc.time.Some? && doc.site.Some?
      && AvailableCategories(doc.seats).Ok?
  {
    if doc.round.None? then Err(MissingElement) else
    match SecondTokenInt(doc.round.value)
    case Err(m) => Err(m)
    case Ok(matchNumber) =>
      if doc.hostTeam.None? || doc.opposingTeam.None? || doc.day.None? || doc.time.None? || doc.site.None? then
        Err(MissingElement)
      else match AvailableCategories(doc.seats)
        case Err(m) => Err(m)
        case Ok(categories) =>
          Ok(Match(matchNumber, Strip(doc.hostTeam.value), Strip(doc.opposingTeam.value),
                   Strip(doc.day.value), Strip(doc.time.value), Strip(doc.site.value), categories))
  }

  /** A parsed match is available iff some row of its page survives the filters. */
  lemma FromHtmlAvailability(doc: Document)
    requires FromHtml(doc).Ok?
    ensures FromHtml(doc).value.IsAvailable() <==> Survivors(doc.seats) != []
  {
    ExtractedAreSurvivors(doc.seats);
  }

  /** Text with no whitespace at either end, as `strip()` leaves it. */
  predicate Trimmed(s: string)
  {
    s == [] || (!IsSpace(s[0]) && !IsSpace(s[|s| - 1]))
  }

  /** A page that shows every field of `m` plainly: round "Match <n>", one seat row per category
      reading "Category <quality>" with tariff "Ticket Price" and its price. */
  function PageOf(m: Match): Document
  {
    Document(Some("Match " + FormatInt(m.matchNumber)), Some(m.hostTeam), Some(m.opposingTeam),
             Some(m.matchDate), Some(m.matchTime), Some(m.stadium), SeatsOf(m.availableCategories))
  }

  function SeatRow(c: Category): SeatElement
  {
    SeatElement(Some(CategoryElement(false, "Category " + FormatInt(c.quality))), Some(TicketPrice), Some(FormatInt(c.price)))
  }

  function SeatsOf(cs: seq<Category>): (r: seq<SeatElement>)
    ensures |r| == |cs|
  {
    if cs == [] then [] else [SeatRow(cs[0])] + SeatsOf(cs[1..])
  }

  lemma SeatRowParses(c: Category)
    ensures ClassifySeat(SeatRow(c)) == Emit(c)
  {
    TicketPriceTrimmed();
    CategoryTextParses(c.quality);
    ParseFormatInt(c.price);
  }

  lemma TicketPriceTrimmed()
    ensures Strip(TicketPrice) == TicketPrice
  {
    TrimmedStrips(TicketPrice);
  }

  lemma CategoryTextParses(quality: int)
    ensures SecondTokenInt(Strip("Category " + FormatInt(quality))) == Ok(quality)
  {
    var num := FormatInt(quality);
    var text := "Category " + num;
    assert text[|text| - 1] == num[|num| - 1];
    TrimmedStrips(text);
    assert text == "Category" + " " + num;
    SecondTokenOfWords("Category", quality);
  }

  lemma {:induction false} SeatsOfParse(cs: seq<Category>)
    ensures AvailableCategories(SeatsOf(cs)) == Ok(cs)
  {
    if cs != [] {
      assert SeatsOf(cs)[1..] == SeatsOf(cs[1..]);
      SeatsOfParse(cs[1..]);
      SeatRowParses(cs[0]);
      assert [cs[0]] + cs[1..] == cs;
    }
  }

  /** Reading the plain page of a match gives the match back, whenever its text fields are already
      trimmed (the extractor strips them). */
  lemma FromHtmlOfPage(m: Match)
    requires Trimmed(m.hostTeam) && Trimmed(m.opposingTeam) && Trimmed(m.matchDate)
    requires Trimmed(m.matchTime) && Trimmed(m.stadium)
    ensures FromHtml(PageOf(m)) == Ok(m)
  {
    assert "Match " + FormatInt(m.matchNumber) == "Match" + " " + FormatInt(m.matchNumber);
    SecondTokenOfWords("Match", m.matchNumber);
    SeatsOfParse(m.availableCategories);
    TrimmedStrips(m.hostTeam);
    TrimmedStrips(m.opposingTeam);
    TrimmedStrips(m.matchDate);
    TrimmedStrips(m.matchTime);
    TrimmedStrips(m.stadium);
  }

  lemma TrimmedStrips(s: string)
    requires Trimmed(s)
    ensures Strip(s) == s
  {
    assert [] + s + [] == s;
    StripPadded([], s, []);
  }

  // ---------------------------------------------------------------------------------------------
  // The stored snapshot: `dataclasses.asdict` and `Match.from_dict`

  /** A decoded JSON value. */
  datatype Value = Int(i: int) | Str(s: string) | List(items: seq<Value>) | Dict(entries: map<string, Value>)

  const MatchFields: set<string> := {"match_number", "host_team", "opposing_team", "match_date",
                                     "match_time", "stadium", "available_categories"}
  const CategoryFields: set<string> := {"quality", "price"}

  const TypeError: string := "TypeError: unexpected or missing keyword argument"

  function CategoryToDict(c: Category): map<string, Value>
  {
    map["quality" := Int(c.quality), "price" := Int(c.price)]
  }

  function CategoriesToList(cs: seq<Category>): (r: seq<Value>)
    ensures |r| == |cs|
    ensures forall k :: 0 <= k < |cs| ==> r[k] == Dict(CategoryToDict(cs[k]))
  {
    if cs == [] then [] else [Dict(CategoryToDict(cs[0]))] + CategoriesToList(cs[1..])
  }

  /** `dataclasses.asdict(match)`, the field-by-field dictionary that is stored. */
  function ToDict(m: Match): (d: map<string, Value>)
    ensures d.Keys == MatchFields
  {
    map["match_number" := Int(m.matchNumber), "host_team" := Str(m.hostTeam),
        "opposing_team" := Str(m.opposingTeam), "match_date" := Str(m.matchDate),
        "match_time" := Str(m.matchTime), "stadium" := Str(m.stadium),
        "available_categories" := List(CategoriesToList(m.availableCategories))]
  }

  /** `Category(**c)`: exactly the keywords `quality` and `price`. */
  function CategoryFromValue(v: Value): Result<Category>
  {
    if v.Dict? && v.entries.Keys == CategoryFields && v.entries["quality"].Int? && v.entries["price"].Int? then
      Ok(Category(v.entries["quality"].i, v.entries["price"].i))
    else Err(TypeError)
  }

  function CategoriesFromList(items: seq<Value>): (r: Result<seq<Category>>)
    ensures r.Ok? ==> |r.value| == |items|
  {
    if items == [] then Ok([])
    else match CategoryFromValue(items[0])
      case Err(m) => Err(m)
      case Ok(c) =>
        match CategoriesFromList(items[1..])
        case Err(m) => Err(m)
        case Ok(cs) => Ok([c] + cs)
  }

  /** `[Category(**c) for c in value]`: iterating a string or a dictionary yields strings, which
      `**` refuses, so only an empty one gives an empty list. */
  function CategoriesFromValue(v: Value): Result<seq<Category>>
  {
    match v
    case List(items) => CategoriesFromList(items)
    case Str(s) => if s == "" then Ok([]) else Err(TypeError)
    case Dict(entries) => if entries == map[] then Ok([]) else Err(TypeError)
    case Int(_) => Err(TypeError)
  }

  /** `Match.from_dict`: `Match(**data)` needs exactly the seven field names; the category list is
      then replaced by its `Category` objects. */
  function FromDict(data: map<string, Value>): (r: Result<Match>)
    ensures r.Ok? ==> data.Keys == MatchFields
  {
    if data.Keys != MatchFields then Err(TypeError)
    else if !(data["match_number"].Int? && data["host_team"].Str? && data["opposing_team"].Str? &&
              data["match_date"].Str? && data["match_time"].Str? && data["stadium"].Str?) then Err(TypeError)
    else
      var raw := Match(data["match_number"].i, data["host_team"].s, data["opposing_team"].s,
                       data["match_date"].s, data["match_time"].s, data["stadium"].s, []);
      match CategoriesFromValue(data["available_categories"])
      case Err(m) => Err(m)
      case Ok(cs) => Ok(raw.(availableCategories := cs))
  }

  lemma {:induction false} CategoriesRoundTrip(cs: seq<Category>)
    ensures CategoriesFromList(CategoriesToList(cs)) == Ok(cs)
  {
    if cs != [] {
      assert CategoriesToList(cs)[1..] == CategoriesToList(cs[1..]);
      CategoriesRoundTrip(cs[1..]);
      assert [cs[0]] + cs[1..] == cs;
    }
  }

  /** The stored dictionary of a match reads back as the same match. */
  lemma FromDictToDict(m: Match)
    ensures FromDict(ToDict(m)) == Ok(m)
  {
    CategoriesRoundTrip(m.availableCategories);
  }

  lemma {:induction false} CategoriesFromListInverse(items: seq<Value>)
    requires CategoriesFromList(items).Ok?
    ensures CategoriesToList(CategoriesFromList(items).value) == items
  {
    if items != [] {
      CategoriesFromListInverse(items[1..]);
      var v := items[0];
      assert v.entries == CategoryToDict(CategoryFromValue(v).value);
    }
  }

  /** Conversely, a dictionary that reads back as a match, with its categories stored as a list,
      is that match's stored dictionary. */
  lemma ToDictFromDict(data: map<string, Value>)
    requires FromDict(data).Ok? && data["available_categories"].List?
    ensures ToDict(FromDict(data).value) == data
  {
    var m := FromDict(data).value;
    CategoriesFromListInverse(data["available_categories"].items);
    var d := ToDict(m);
    assert forall k :: k in d ==> d[k] == data[k];
  }

  // ---------------------------------------------------------------------------------------------
  // Fetch results

  /** `GetMatchResult`: the fetched match (attribute `match`, a keyword here) and the stored
      error message `_error`. */
  datatype GetMatchResult = GetMatchResult(record: Option<Match>, error: Option<string>)
  {
    static function Success(m: Match): (r: GetMatchResult)
      ensures !r.IsError() && r.IsSuccess() && r.record == Some(m)
    {
      GetMatchResult(Some(m), None)
    }

    static function Error(e: string): (r: GetMatchResult)
      ensures r.IsError() && !r.IsSuccess() && r.ErrorMessage() == e
    {
      GetMatchResult(None, Some(e))
    }

    predicate IsError()
    {
      error.Some?
    }

    /** The caller asks `is_success()`, which the class does not define; its evident meaning. */
    predicate IsSuccess()
    {
      !IsError()
    }

    /** The caller reads `.error`, which on an instance is the `error` classmethod, not the
        message; the message the caller evidently means is the stored `_error`. */
    function ErrorMessage(): string
      requires IsError()
    {
      error.value
    }

    /** Built by `success` or by `error`: exactly one of the two fields is set. */
    predicate Constructed()
    {
      record.Some? != error.Some?
    }
  }
}
