/**
 * `Match.__str__`: the match as a monospaced table of five rows between horizontal lines, the
 * rows centred with tab characters in a column as wide as the widest of the first three.
 */
module MatchLayout {
  import opened Text
  import opened Models
  import opened Performances

  function Header(m: Match): string
  {
    "Game " + FormatInt(m.matchNumber) + " | " + m.hostTeam + " vs " + m.opposingTeam
  }

  function DateRow(m: Match): string
  {
    m.matchDate + " " + m.matchTime
  }

  /** `[f'Cat {c.quality}' for c in categories]`. */
  function CategoryLabels(cs: seq<Category>): (r: seq<string>)
    ensures |r| == |cs|
    ensures forall k :: 0 <= k < |cs| ==> r[k] == "Cat " + FormatInt(cs[k].quality)
  {
    if cs == [] then [] else ["Cat " + FormatInt(cs[0].quality)] + CategoryLabels(cs[1..])
  }

  function CategoriesRow(m: Match): string
  {
    Join(", ", CategoryLabels(m.availableCategories))
  }

  /** The Markdown link to the match's seating page, built with the provider's id formula. */
  function LinkRow(m: Match): string
  {
    "[Open](" + Url(PerformanceId(m.matchNumber)) + ")"
  }

  function Max(a: int, b: int): int
  {
    if a >= b then a else b
  }

  /** `width`: the longest of the header, date and location rows. */
  function Width(m: Match): (w: nat)
    ensures |Header(m)| <= w && |DateRow(m)| <= w && |m.stadium| <= w
    ensures w == |Header(m)| || w == |DateRow(m)| || w == |m.stadium|
  {
    Max(Max(|Header(m)|, |DateRow(m)|), |m.stadium|)
  }

  function NonNeg(n: int): nat
  {
    if n < 0 then 0 else n
  }

  /** `pad(row)`. Python's `//` rounds down, as Dafny's `/` does for a positive divisor. The
      source names are crossed: `ljust` appends the `left_padding` tabs after the row, and `rjust`
      then puts the `right_padding` tabs before it; neither adds anything for a count below one. */
  function Pad(width: int, row: string): (r: string)
    ensures |r| == Max(width + 2, |row|)
  {
    var diff := width - |row|;
    var leftPadding := diff / 2 + 1;
    var rightPadding := diff - diff / 2 + 1;
    Repeat('\t', NonNeg(rightPadding)) + row + Repeat('\t', NonNeg(leftPadding))
  }

  /** A row no wider than the column is centred in `width + 2` characters: at least one tab on
      each side, and the odd tab, if any, before the row. */
  lemma PadCentres(width: int, row: string)
    requires |row| <= width
    ensures var d := width - |row|;
      Pad(width, row) == Repeat('\t', d - d / 2 + 1) + row + Repeat('\t', d / 2 + 1)
    ensures var d := width - |row|;
      && |Pad(width, row)| == width + 2
      && d / 2 + 1 >= 1
      && (d - d / 2 + 1 == d / 2 + 1 || d - d / 2 + 1 == d / 2 + 2)
  {
  }

  /** `'+' + '-' * (width + 2) + '+\n'`. */
  function HorizontalLine(width: nat): (r: string)
    ensures |r| == width + 5
  {
    "+" + Repeat('-', width + 2) + "+\n"
  }

  function Framed(row: string): string
  {
    "|" + row + "|\n"
  }

  /** The returned text down to the rule under the location row: the opening fence, then the
      framed header, date and location rows, each between rules. */
  function TableTop(w: nat, h: string, d: string, loc: string): string
  {
    var line := HorizontalLine(w);
    "```\n" + line + Framed(h) + line + Framed(d) + line + Framed(loc) + line
  }

  /** The framed categories row, the last rule and the closing fence. */
  function TableBottom(w: nat, cats: string): string
  {
    Framed(cats) + HorizontalLine(w) + "```\n"
  }

  /** `str(match)`: the top of the table, its bottom, and the padded link. */
  function Render(m: Match): string
  {
    var w := Width(m);
    TableTop(w, Pad(w, Header(m)), Pad(w, DateRow(m)), Pad(w, m.stadium)) +
    TableBottom(w, Pad(w, CategoriesRow(m))) + Pad(w, LinkRow(m))
  }

  /** The header, date and location rows fill the table exactly: framed, each is as long as the
      horizontal line. The categories row and the link are never shorter. */
  lemma TableAligned(m: Match)
    ensures var w := Width(m);
      && |Framed(Pad(w, Header(m)))| == |HorizontalLine(w)|
      && |Framed(Pad(w, DateRow(m)))| == |HorizontalLine(w)|
      && |Framed(Pad(w, m.stadium))| == |HorizontalLine(w)|
      && |Framed(Pad(w, CategoriesRow(m)))| >= |HorizontalLine(w)|
      && |Pad(w, LinkRow(m))| >= w + 2
  {
  }

  /** Rows as wide as the column: the top of the table, then the rest, then the link last. */
  lemma TopLayout(w: nat, h: string, d: string, loc: string, rest: string, link: string)
    requires |h| == w + 2 && |d| == w + 2 && |loc| == w + 2
    ensures var s := TableTop(w, h, d, loc) + rest + link;
      && TableTop(w, h, d, loc) <= s
      && |TableTop(w, h, d, loc)| == 4 + 7 * (w + 5)
      && |link| <= |s| && s[|s| - |link|..] == link
  {
    var top := TableTop(w, h, d, loc);
    assert top + rest + link == top + (rest + link);
  }

  /** `str(match)` itself: it opens with the fence, the rule, and the framed header, date and
      location rows, each separated by the rule and each exactly as long as it, so every one of
      these lines starts at a fixed offset; the padded link closes the text. */
  lemma RenderLayout(m: Match)
    ensures var w := Width(m);
      && TableTop(w, Pad(w, Header(m)), Pad(w, DateRow(m)), Pad(w, m.stadium)) <= Render(m)
      && |Framed(Pad(w, Header(m)))| == |HorizontalLine(w)|
      && |Framed(Pad(w, DateRow(m)))| == |HorizontalLine(w)|
      && |Framed(Pad(w, m.stadium))| == |HorizontalLine(w)|
      && |TableTop(w, Pad(w, Header(m)), Pad(w, DateRow(m)), Pad(w, m.stadium))| == 4 + 7 * (w + 5)
      && |Pad(w, LinkRow(m))| <= |Render(m)|
      && Render(m)[|Render(m)| - |Pad(w, LinkRow(m))|..] == Pad(w, LinkRow(m))
  {
    var w := Width(m);
    TableAligned(m);
    TopLayout(w, Pad(w, Header(m)), Pad(w, DateRow(m)), Pad(w, m.stadium),
      TableBottom(w, Pad(w, CategoriesRow(m))), Pad(w, LinkRow(m)));
  }
}
