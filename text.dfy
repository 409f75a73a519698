/**
 * The few Python string builtins the checker relies on: `str.strip()`,
 * `str.split()` with no separator, `int(str)` and `str(int)`.
 */
module Text {
  import opened Wrappers

  /** Python's `str.isspace()` for one character (the characters `strip()` and `split()` remove). */
  predicate IsSpace(c: char)
  {
    c == ' ' || ('\t' <= c <= '\r') || ('\U{1C}' <= c <= '\U{1F}') ||
    c == '\U{85}' || c == '\U{A0}' || c == '\U{1680}' || ('\U{2000}' <= c <= '\U{200A}') ||
    c == '\U{2028}' || c == '\U{2029}' || c == '\U{202F}' || c == '\U{205F}' || c == '\U{3000}'
  }

  predicate AllSpace(s: string)
  {
    forall i :: 0 <= i < |s| ==> IsSpace(s[i])
  }

  predicate NoSpace(s: string)
  {
    forall i :: 0 <= i < |s| ==> !IsSpace(s[i])
  }

  /** `s.lstrip()`. */
  function StripLeft(s: string): string
  {
    if |s| > 0 && IsSpace(s[0]) then StripLeft(s[1..]) else s
  }

  /** `s.rstrip()`. */
  function StripRight(s: string): string
  {
    if |s| > 0 && IsSpace(s[|s| - 1]) then StripRight(s[..|s| - 1]) else s
  }

  /** `lstrip()` leaves the suffix after the leading whitespace, starting with a non-space. */
  lemma {:induction false} StripLeftSuffix(s: string)
    ensures var r := StripLeft(s);
      |r| <= |s| && r == s[|s| - |r|..] && AllSpace(s[..|s| - |r|]) && (r == [] || !IsSpace(r[0]))
  {
    if |s| > 0 && IsSpace(s[0]) {
      var q := s[1..];
      StripLeftSuffix(q);
      var r := StripLeft(q);
      assert r == s[|s| - |r|..];
      assert s[..|s| - |r|] == [s[0]] + q[..|q| - |r|];
    }
  }

  /** `rstrip()` leaves the prefix before the trailing whitespace, ending with a non-space. */
  lemma {:induction false} StripRightPrefix(s: string)
    ensures var r := StripRight(s);
      |r| <= |s| && r == s[..|r|] && AllSpace(s[|r|..]) && (r == [] || !IsSpace(r[|r| - 1]))
  {
    if |s| > 0 && IsSpace(s[|s| - 1]) {
      var p := s[..|s| - 1];
      StripRightPrefix(p);
      var r := StripRight(p);
      assert r == s[..|r|];
      assert s[|r|..] == p[|r|..] + [s[|s| - 1]];
    }
  }

  /** Python's `s.strip()`. */
  function Strip(s: string): string
  {
    StripRight(StripLeft(s))
  }

  lemma {:induction false} StripLeftSpaces(ws: string, t: string)
    requires AllSpace(ws) && (t == [] || !IsSpace(t[0]))
    ensures StripLeft(ws + t) == t
  {
    if ws != [] {
      assert (ws + t)[1..] == ws[1..] + t;
      StripLeftSpaces(ws[1..], t);
    }
  }

  lemma {:induction false} StripRightSpaces(t: string, ws: string)
    requires AllSpace(ws) && (t == [] || !IsSpace(t[|t| - 1]))
    ensures StripRight(t + ws) == t
  {
    if ws != [] {
      assert (t + ws)[..|t + ws| - 1] == t + ws[..|ws| - 1];
      StripRightSpaces(t, ws[..|ws| - 1]);
    }
  }

  /** `strip()` removes exactly the surrounding whitespace: it recovers any text whose ends are not
      whitespace from the padding around it. */
  lemma StripPadded(ws1: string, t: string, ws2: string)
    requires AllSpace(ws1) && AllSpace(ws2)
    requires t == [] || (!IsSpace(t[0]) && !IsSpace(t[|t| - 1]))
    ensures Strip(ws1 + t + ws2) == t
  {
    if t == [] {
      assert ws1 + t + ws2 == ws1 + ws2;
      AllSpaceConcat(ws1, ws2);
      StripLeftSpaces(ws1 + ws2, []);
      assert ws1 + ws2 + [] == ws1 + ws2;
    } else {
      assert ws1 + t + ws2 == ws1 + (t + ws2);
      StripLeftSpaces(ws1, t + ws2);
      StripRightSpaces(t, ws2);
    }
  }

  lemma AllSpaceConcat(a: string, b: string)
    requires AllSpace(a) && AllSpace(b)
    ensures AllSpace(a + b)
  {
  }

  /** The longest prefix of `s` without whitespace. */
  function Word(s: string): string
  {
    if s == [] || IsSpace(s[0]) then [] else [s[0]] + Word(s[1..])
  }

  lemma {:induction false} WordPrefix(s: string)
    ensures var w := Word(s); |w| <= |s| && w == s[..|w|] && NoSpace(w) && (|w| < |s| ==> IsSpace(s[|w|]))
  {
    if !(s == [] || IsSpace(s[0])) {
      WordPrefix(s[1..]);
    }
  }

  /** Python's `s.split()`: the maximal runs of non-whitespace characters, in order. */
  function Split(s: string): seq<string>
    decreases |s|
  {
    StripLeftSuffix(s);
    var t := StripLeft(s);
    if t == [] then [] else
      WordPrefix(t);
      var w := Word(t);
      [w] + Split(t[|w|..])
  }

  /** Every piece `split()` returns is a token. */
  lemma {:induction false} SplitTokens(s: string)
    ensures forall k :: 0 <= k < |Split(s)| ==> IsToken(Split(s)[k])
    decreases |s|
  {
    StripLeftSuffix(s);
    var t := StripLeft(s);
    if t != [] {
      WordPrefix(t);
      var w := Word(t);
      SplitTokens(t[|w|..]);
    }
  }

  /** `" ".join(words)`. */
  function JoinSpaced(words: seq<string>): string
  {
    if words == [] then "" else if |words| == 1 then words[0]
    else words[0] + " " + JoinSpaced(words[1..])
  }

  /** A non-empty run of non-whitespace characters, as `split()` returns them. */
  predicate IsToken(w: string)
  {
    w != [] && NoSpace(w)
  }

  lemma {:induction false} WordOfToken(w: string, rest: string)
    requires NoSpace(w) && (rest == [] || IsSpace(rest[0]))
    ensures Word(w + rest) == w
  {
    if w != [] {
      assert (w + rest)[1..] == w[1..] + rest;
      WordOfToken(w[1..], rest);
    } else {
      assert w + rest == rest;
    }
  }

  lemma StripLeftNoSpaceStart(s: string)
    requires s != [] && !IsSpace(s[0])
    ensures StripLeft(s) == s
  {
  }

  /** `split()` never sees the whitespace before the first token. */
  lemma SplitLeadingSpace(tail: string)
    ensures Split(" " + tail) == Split(tail)
  {
    assert (" " + tail)[1..] == tail;
    assert StripLeft(" " + tail) == StripLeft(tail);
  }

  /** A token followed by whitespace (or nothing) is the first thing `split()` returns. */
  lemma SplitToken(w: string, rest: string)
    requires IsToken(w) && (rest == [] || IsSpace(rest[0]))
    ensures Split(w + rest) == [w] + Split(rest)
  {
    var s := w + rest;
    StripLeftNoSpaceStart(s);
    WordOfToken(w, rest);
    assert s[|w|..] == rest;
  }

  lemma SplitEmpty()
    ensures Split([]) == []
  {
  }

  lemma SplitOneToken(w: string)
    requires IsToken(w)
    ensures Split(w) == [w]
  {
    SplitEmpty();
    SplitToken(w, []);
    assert w + [] == w;
  }

  /** The two tokens of `a + " " + b`. */
  lemma SplitTwoTokens(a: string, b: string)
    requires IsToken(a) && IsToken(b)
    ensures Split(a + " " + b) == [a, b]
  {
    assert a + " " + b == a + (" " + b);
    SplitToken(a, " " + b);
    SplitLeadingSpace(b);
    SplitOneToken(b);
  }

  /** `split()` undoes `" ".join()` for every list of tokens. */
  lemma {:induction false} SplitJoinSpaced(words: seq<string>)
    requires forall k :: 0 <= k < |words| ==> IsToken(words[k])
    ensures Split(JoinSpaced(words)) == words
  {
    if words == [] {
    } else if |words| == 1 {
      SplitToken(words[0], []);
      assert words[0] + [] == words[0];
    } else {
      var tail := JoinSpaced(words[1..]);
      assert JoinSpaced(words) == words[0] + (" " + tail);
      SplitToken(words[0], " " + tail);
      SplitLeadingSpace(tail);
      SplitJoinSpaced(words[1..]);
    }
  }

  /** Tokens each followed by its own run of whitespace: `words[0] + seps[0] + words[1] + ...`. */
  function Spaced(words: seq<string>, seps: seq<string>): string
    requires |words| == |seps|
  {
    if words == [] then [] else words[0] + seps[0] + Spaced(words[1..], seps[1..])
  }

  /** Whitespace runs that separate tokens: every one is whitespace, and all but the last are
      non-empty (the last only ends the text). */
  predicate Separators(seps: seq<string>)
  {
    forall k :: 0 <= k < |seps| ==> AllSpace(seps[k]) && (k < |seps| - 1 ==> seps[k] != [])
  }

  lemma {:induction false} StripLeftSkipsSpaces(ws: string, t: string)
    requires AllSpace(ws)
    ensures StripLeft(ws + t) == StripLeft(t)
  {
    if ws != [] {
      assert (ws + t)[0] == ws[0] && (ws + t)[1..] == ws[1..] + t;
      assert AllSpace(ws[1..]) by {
        forall i | 0 <= i < |ws[1..]| ensures IsSpace(ws[1..][i]) { assert ws[1..][i] == ws[i + 1]; }
      }
      StripLeftSkipsSpaces(ws[1..], t);
    } else {
      assert ws + t == t;
    }
  }

  /** `split()` never sees leading whitespace. */
  lemma SplitSkipsSpaces(ws: string, t: string)
    requires AllSpace(ws)
    ensures Split(ws + t) == Split(t)
  {
    StripLeftSkipsSpaces(ws, t);
  }

  /** `split()` gives the tokens back from any text made of leading whitespace and tokens separated
      by non-empty whitespace runs of any kind and length, with any trailing whitespace. */
  lemma {:induction false} SplitSpaced(lead: string, words: seq<string>, seps: seq<string>)
    requires AllSpace(lead) && |words| == |seps| && Separators(seps)
    requires forall k :: 0 <= k < |words| ==> IsToken(words[k])
    ensures Split(lead + Spaced(words, seps)) == words
    decreases |words|
  {
    SplitSkipsSpaces(lead, Spaced(words, seps));
    if words == [] {
      SplitEmpty();
    } else {
      var rest := seps[0] + Spaced(words[1..], seps[1..]);
      assert Spaced(words, seps) == words[0] + rest;
      if seps[0] == [] {
        assert |seps| == 1;
        assert rest == [];
      }
      SplitToken(words[0], rest);
      assert Separators(seps[1..]) by {
        forall k | 0 <= k < |seps[1..]| ensures AllSpace(seps[1..][k]) && (k < |seps[1..]| - 1 ==> seps[1..][k] != []) {
          assert seps[1..][k] == seps[k + 1];
        }
      }
      SplitSpaced(seps[0], words[1..], seps[1..]);
    }
  }

  /** Value of a non-empty run of ASCII decimal digits, most significant first. */
  function DigitsValue(s: string): (r: Option<nat>)
    ensures r.Some? <==> s != [] && forall i :: 0 <= i < |s| ==> '0' <= s[i] <= '9'
  {
    if s == [] then None
    else if !('0' <= s[|s| - 1] <= '9') then None
    else if |s| == 1 then Some((s[0] - '0') as nat)
    else match DigitsValue(s[..|s| - 1])
      case None => None
      case Some(v) => Some(v * 10 + (s[|s| - 1] - '0') as nat)
  }

  /** Python's `int(s)` for base-10 text made of an optional sign and ASCII digits. */
  function ParseInt(s: string): Option<int>
  {
    ParseLiteral(Strip(s))
  }

  /** An optional sign followed by decimal digits, with no surrounding whitespace. */
  function ParseLiteral(t: string): Option<int>
  {
    if |t| > 0 && (t[0] == '-' || t[0] == '+') then
      match DigitsValue(t[1..])
      case None => None
      case Some(v) => Some(if t[0] == '-' then -(v as int) else v as int)
    else match DigitsValue(t)
      case None => None
      case Some(v) => Some(v as int)
  }

  /** Decimal digits of a natural number, as `str(n)` prints it. */
  function FormatNat(n: nat): (r: string)
    ensures r != [] && forall i :: 0 <= i < |r| ==> '0' <= r[i] <= '9'
  {
    if n < 10 then [('0' as int + n) as char]
    else FormatNat(n / 10) + [('0' as int + n % 10) as char]
  }

  /** Python's `str(n)` (and `'{}'.format(n)`) for an integer. */
  function FormatInt(n: int): (r: string)
    ensures IsToken(r)
  {
    if n < 0 then "-" + FormatNat(-n) else FormatNat(n)
  }

  lemma {:induction false} DigitsOfFormatNat(n: nat)
    ensures DigitsValue(FormatNat(n)) == Some(n)
  {
    if n >= 10 {
      var s := FormatNat(n);
      assert s[..|s| - 1] == FormatNat(n / 10);
      DigitsOfFormatNat(n / 10);
    }
  }

  lemma StripToken(w: string)
    requires IsToken(w)
    ensures Strip(w) == w
  {
    StripLeftNoSpaceStart(w);
    assert StripRight(w) == w;
  }

  /** `int(str(n)) == n` for every integer. */
  lemma ParseFormatInt(n: int)
    ensures ParseInt(FormatInt(n)) == Some(n)
  {
    StripToken(FormatInt(n));
    ParseLiteralFormatInt(n);
  }

  lemma ParseLiteralFormatInt(n: int)
    ensures ParseLiteral(FormatInt(n)) == Some(n)
  {
    if n < 0 {
      ParseLiteralNegative(-n);
    } else {
      ParseLiteralNat(n);
    }
  }

  lemma ParseLiteralNat(n: nat)
    ensures ParseLiteral(FormatInt(n)) == Some(n)
  {
    var d := FormatNat(n);
    assert FormatInt(n) == d;
    assert d[0] != '-' && d[0] != '+';
    DigitsOfFormatNat(n);
  }

  lemma ParseLiteralNegative(m: nat)
    requires m > 0
    ensures ParseLiteral(FormatInt(-(m as int))) == Some(-(m as int))
  {
    var d := FormatNat(m);
    assert FormatInt(-(m as int)) == "-" + d;
    assert ("-" + d)[1..] == d;
    DigitsOfFormatNat(m);
  }

  /** `sep.join(parts)`. */
  function Join(sep: string, parts: seq<string>): (r: string)
    ensures parts == [] ==> r == ""
  {
    if parts == [] then "" else if |parts| == 1 then parts[0]
    else parts[0] + sep + Join(sep, parts[1..])
  }

  /** `c * n` for a one-character string `c`. */
  function Repeat(c: char, n: nat): (r: string)
    ensures |r| == n && forall i :: 0 <= i < n ==> r[i] == c
  {
    if n == 0 then "" else [c] + Repeat(c, n - 1)
  }
}
