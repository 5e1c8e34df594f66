/**
  The regular expressions of preprocess_companies.py, each written out as the
  scan Python's `re` performs for it. Every pattern here is built so that its
  greedy parts have exactly one way to succeed: `\s*` is always followed by a
  character that is not whitespace, and `\d+` by one that is not a digit. So
  "take the maximal run" is what the backtracking matcher ends up with, and
  `re.search` is "try every start position from the left, keep the first hit".
 */
module Patterns {
  import opened Wrappers
  import opened Text

  /** `re.match(r"^\d{5}\s", s)`: a five-digit postal code followed by whitespace. */
  predicate HasPostalCode(s: string) {
    && |s| >= 6
    && IsDigit(s[0]) && IsDigit(s[1]) && IsDigit(s[2]) && IsDigit(s[3]) && IsDigit(s[4])
    && IsSpace(s[5])
  }

  /** Index of the first line break at or after `i` (or `|s|`): where a regex `.*` or `.+` stops. */
  function LineEnd(s: string, i: nat): (e: nat)
    requires i <= |s|
    ensures i <= e <= |s|
    ensures '\n' !in s[i..e]
    ensures e == |s| || s[e] == '\n'
  {
    i + IndexOf(s[i..], '\n')
  }

  // ---------------------------------------------------------------------------
  // ^(\d{5}\sBerlin)\s([^,]+),\s(.+)
  // ---------------------------------------------------------------------------

  /** The three groups of the company-prefix pattern. */
  datatype PrefixMatch = PrefixMatch(locality: string, company: string, afterComma: string)

  /**
    `re.match(r"^(\d{5}\sBerlin)\s([^,]+),\s(.+)", s)`. Group 2 runs up to the first comma
    of `s` (it cannot cross one, and the comma must follow it), group 3 up to the first
    line break after the comma's whitespace.
   */
  function MatchCompanyPrefix(s: string): Option<PrefixMatch> {
    if |s| >= 13 && HasPostalCode(s) && s[6..12] == "Berlin" && IsSpace(s[12]) then
      var c := IndexOf(s, ',');
      if 13 < c && c + 2 < |s| && IsSpace(s[c + 1]) && s[c + 2] != '\n' then
        Some(PrefixMatch(s[..12], s[13..c], s[c + 2..LineEnd(s, c + 2)]))
      else None
    else None
  }

  /** `\d{5}\sBerlin`, the text group 1 must be. */
  predicate IsBerlinLocality(loc: string) {
    |loc| == 12 && HasPostalCode(loc) && loc[6..] == "Berlin"
  }

  /**
    The pattern read as a decomposition of `s`: group 1, a whitespace, group 2 (no comma),
    a comma, a whitespace, group 3 (no line break), and a tail that is empty or starts a new line.
   */
  predicate PrefixShape(s: string, loc: string, w1: char, company: string, w2: char,
                        rest: string, tail: string) {
    && IsBerlinLocality(loc)
    && IsSpace(w1) && IsSpace(w2)
    && |company| > 0 && ',' !in company
    && |rest| > 0 && '\n' !in rest
    && (tail == [] || tail[0] == '\n')
    && s == loc + [w1] + company + [','] + [w2] + rest + tail
  }

  /** Whatever the scanner returns is such a decomposition. */
  lemma MatchCompanyPrefixSound(s: string)
    requires MatchCompanyPrefix(s).Some?
    ensures var m := MatchCompanyPrefix(s).value;
            PrefixShape(s, m.locality, s[12], m.company, s[|m.company| + 14],
                        m.afterComma, s[|m.company| + 15 + |m.afterComma|..])
  {
    var m := MatchCompanyPrefix(s).value;
    var c := IndexOf(s, ',');
    var e := LineEnd(s, c + 2);
    assert m.locality[6..] == s[6..12];
    assert s == s[..12] + [s[12]] + s[13..c] + [s[c]] + [s[c + 1]] + s[c + 2..e] + s[e..];
  }

  /** And every such decomposition is the one the scanner finds: the groups are determined by `s`. */
  lemma MatchCompanyPrefixComplete(s: string, loc: string, w1: char, company: string, w2: char,
                                   rest: string, tail: string)
    requires PrefixShape(s, loc, w1, company, w2, rest, tail)
    ensures MatchCompanyPrefix(s) == Some(PrefixMatch(loc, company, rest))
  {
    var c := 13 + |company|;
    assert s[..13] == loc + [w1];
    assert s[13..c] == company;
    assert s[c] == ',' && s[c + 1] == w2;
    assert s[c + 2..] == rest + tail;
    assert s[..c] == loc + [w1] + company;
    assert ',' !in loc;
    IndexOfAt(s, ',', c);
    assert s[6..12] == loc[6..];
    assert HasPostalCode(s);
    assert s[c + 2..][..|rest|] == rest;
    IndexOfAt(s[c + 2..], '\n', |rest|);
    assert LineEnd(s, c + 2) == c + 2 + |rest|;
    assert s[..12] == loc;
    assert s[c + 2] == rest[0];
    assert s[c + 2..c + 2 + |rest|] == rest;
  }

  /** The first occurrence of `c` is at `k` when `s[k] == c` and no earlier character is `c`. */
  lemma IndexOfAt(s: string, c: char, k: nat)
    requires k <= |s| && c !in s[..k] && (k == |s| || s[k] == c)
    ensures IndexOf(s, c) == k
  {
    if k > 0 {
      assert s[0] in s[..k];
      assert s[1..][..k - 1] == s[1..k];
      assert forall x | x in s[1..k] :: x in s[..k];
      IndexOfAt(s[1..], c, k - 1);
    }
  }

  // ---------------------------------------------------------------------------
  // re.sub(r"\s*/\s*Ecke.*", "", s)
  // ---------------------------------------------------------------------------

  // End of a corner-clause match `\s*/\s*Ecke.*` that starts at `i`, if one does.
  function CornerMatchAt(s: string, i: nat): (r: Option<nat>)
    requires i <= |s|
    ensures r.Some? ==> i < r.value <= |s| && (r.value == |s| || s[r.value] == '\n')
  {
    var j := SkipSpaces(s, i);
    if j < |s| && s[j] == '/' then
      var k := SkipSpaces(s, j + 1);
      if StartsWithAt(s, "Ecke", k) then Some(LineEnd(s, k + 4)) else None
    else None
  }

  // The layout of a `\s*/\s*Ecke.*` match starting at `i`: whitespace on `[i, j)`, the slash at `j`,
  // whitespace on `[j + 1, k)`, "Ecke" at `k`, and no line break on `[k + 4, e)`, the `.*`.
  predicate CornerShape(s: string, i: nat, j: nat, k: nat, e: nat) {
    && i <= j < k && k + 4 <= e <= |s|
    && (forall t | i <= t < j :: IsSpace(s[t]))
    && s[j] == '/'
    && (forall t | j + 1 <= t < k :: IsSpace(s[t]))
    && StartsWithAt(s, "Ecke", k)
    && (forall t | k + 4 <= t < e :: s[t] != '\n')
  }

  /** A `.*` from `a` covers every line-free stretch after `a`, and stops exactly where that stretch ends at a line break. */
  lemma LineEndAt(s: string, a: nat, b: nat)
    requires a <= b <= |s| && forall t | a <= t < b :: s[t] != '\n'
    ensures b <= LineEnd(s, a)
    ensures (b == |s| || s[b] == '\n') ==> LineEnd(s, a) == b
  {
    if b == |s| || s[b] == '\n' {
      assert s[a..][..b - a] == s[a..b];
      IndexOfAt(s[a..], '\n', b - a);
    }
  }

  /** Whatever `CornerMatchAt` finds is such a layout, with the `.*` running to the end of the line. */
  lemma CornerMatchAtSound(s: string, i: nat)
    requires i <= |s| && CornerMatchAt(s, i).Some?
    ensures exists j: nat, k: nat, e: nat :: CornerShape(s, i, j, k, e) && (e == |s| || s[e] == '\n')
                              && CornerMatchAt(s, i) == Some(e)
  {
    var j := SkipSpaces(s, i);
    var k := SkipSpaces(s, j + 1);
    assert CornerShape(s, i, j, k, LineEnd(s, k + 4));
  }

  /** And every such layout is matched at `i`, exactly up to `e` when `e` ends the line. */
  lemma CornerMatchAtComplete(s: string, i: nat, j: nat, k: nat, e: nat)
    requires CornerShape(s, i, j, k, e)
    ensures CornerMatchAt(s, i).Some? && e <= CornerMatchAt(s, i).value
    ensures (e == |s| || s[e] == '\n') ==> CornerMatchAt(s, i) == Some(e)
  {
    assert s[k] == "Ecke"[0];
    SkipSpacesAt(s, i, j);
    SkipSpacesAt(s, j + 1, k);
    LineEndAt(s, k + 4, e);
  }

  /** `re.search` for the corner clause from `i` on: the leftmost match's start and end. */
  function FindCorner(s: string, i: nat): (r: Option<(nat, nat)>)
    requires i <= |s|
    ensures r.Some? ==> i <= r.value.0 < r.value.1 <= |s|
                        && CornerMatchAt(s, r.value.0) == Some(r.value.1)
                        && forall p | i <= p < r.value.0 :: CornerMatchAt(s, p).None?
    ensures r.None? ==> forall p | i <= p <= |s| :: CornerMatchAt(s, p).None?
    decreases |s| - i
  {
    var here := CornerMatchAt(s, i);
    if here.Some? then Some((i, here.value))
    else if i == |s| then None
    else FindCorner(s, i + 1)
  }

  /** Wherever a corner clause is laid out, the search finds one there or further left. */
  lemma FindCornerFindsLayout(s: string, p: nat, j: nat, k: nat, e: nat)
    requires CornerShape(s, p, j, k, e)
    ensures FindCorner(s, 0).Some? && FindCorner(s, 0).value.0 <= p
  {
    CornerMatchAtComplete(s, p, j, k, e);
  }

  // `re.sub(r"\s*/\s*Ecke.*", "", s)`: every match, left to right, is deleted.
  function RemoveCornerClauses(s: string): string
    decreases |s|
  {
    match FindCorner(s, 0)
    case None => s
    case Some((i, e)) => s[..i] + RemoveCornerClauses(s[e..])
  }

  /** Deleting matches adds no character. */
  lemma {:induction false} RemoveCornerClausesKeepsCharacters(s: string, c: char)
    ensures c in RemoveCornerClauses(s) ==> c in s
    decreases |s|
  {
    match FindCorner(s, 0)
    case None =>
    case Some((i, e)) =>
      RemoveCornerClausesKeepsCharacters(s[e..], c);
      assert forall x | x in s[..i] :: x in s;
      assert forall x | x in s[e..] :: x in s;
  }

  /** On one line, the first match runs to the end of the string, so only what precedes it is kept. */
  lemma RemoveCornerClausesOneLine(s: string)
    requires '\n' !in s
    ensures FindCorner(s, 0).Some? ==> RemoveCornerClauses(s) == s[..FindCorner(s, 0).value.0]
    ensures FindCorner(s, 0).None? ==> RemoveCornerClauses(s) == s
  {
    match FindCorner(s, 0)
    case None =>
    case Some((i, e)) =>
      assert e == |s|;
      assert s[e..] == [];
      assert FindCorner([], 0).None?;
  }

  // ---------------------------------------------------------------------------
  // (\d+)\s*-\s*(\d+), (\d+)\s*und\s*(\d+), (\d+)\s*/\s*(\d+)
  // ---------------------------------------------------------------------------

  /** A match of `(\d+)\s*SEP\s*(\d+)`: where it starts and its two digit groups. */
  datatype PairMatch = PairMatch(start: nat, first: string, second: string)

  /** The separators of the three pair patterns; none starts with a digit or with whitespace. */
  const RangeSep := "-"
  const AndSep := "und"
  const SlashSep := "/"

  /** A match of `(\d+)\s*SEP\s*(\d+)` that starts at `i`, if any. */
  function MatchPairAt(s: string, sep: string, i: nat): (r: Option<PairMatch>)
    requires i <= |s|
    ensures r.Some? ==> r.value.start == i && i + |r.value.first| <= |s|
                        && |r.value.first| > 0 && AllDigits(r.value.first)
                        && |r.value.second| > 0 && AllDigits(r.value.second)
                        && r.value.first == s[i..i + |r.value.first|]
  {
    var j := DigitRunEnd(s, i);
    var k := SkipSpaces(s, j);
    if j > i && StartsWithAt(s, sep, k) then
      var m := SkipSpaces(s, k + |sep|);
      var e := DigitRunEnd(s, m);
      if e > m then Some(PairMatch(i, s[i..j], s[m..e])) else None
    else None
  }

  /** A pair separator starts with neither a digit nor whitespace, so the `\d+` and `\s*` before it are maximal. */
  predicate PairSeparator(sep: string) {
    |sep| > 0 && !IsDigit(sep[0]) && !IsSpace(sep[0])
  }

  lemma PairSeparators()
    ensures PairSeparator(RangeSep) && PairSeparator(AndSep) && PairSeparator(SlashSep)
  { }

  /**
    The layout of a `(\d+)\s*SEP\s*(\d+)` match starting at `i`: group 1 on `[i, j)`, whitespace
    on `[j, k)`, the separator at `k`, whitespace on `[k + |sep|, c)` and group 2 on `[c, e)`.
   */
  predicate PairShape(s: string, sep: string, i: nat, j: nat, k: nat, c: nat, e: nat) {
    && i < j <= k && k + |sep| <= c < e <= |s|
    && (forall t | i <= t < j :: IsDigit(s[t]))
    && (forall t | j <= t < k :: IsSpace(s[t]))
    && StartsWithAt(s, sep, k)
    && (forall t | k + |sep| <= t < c :: IsSpace(s[t]))
    && (forall t | c <= t < e :: IsDigit(s[t]))
  }

  /** Whatever `MatchPairAt` finds is such a layout, with group 2 the whole digit run. */
  lemma MatchPairAtSound(s: string, sep: string, i: nat)
    requires i <= |s| && MatchPairAt(s, sep, i).Some?
    ensures exists j: nat, k: nat, c: nat, e: nat :: PairShape(s, sep, i, j, k, c, e) && (e == |s| || !IsDigit(s[e]))
                                 && MatchPairAt(s, sep, i) == Some(PairMatch(i, s[i..j], s[c..e]))
  {
    var j := DigitRunEnd(s, i);
    var k := SkipSpaces(s, j);
    var c := SkipSpaces(s, k + |sep|);
    assert PairShape(s, sep, i, j, k, c, DigitRunEnd(s, c));
  }

  /**
    And every such layout is matched at `i`, with the same group 1 and a group 2 that extends
    `[c, e)`; exactly that group 2 when `e` ends the digit run.
   */
  lemma MatchPairAtComplete(s: string, sep: string, i: nat, j: nat, k: nat, c: nat, e: nat)
    requires PairSeparator(sep) && PairShape(s, sep, i, j, k, c, e)
    ensures MatchPairAt(s, sep, i).Some?
    ensures MatchPairAt(s, sep, i).value.first == s[i..j]
    ensures s[c..e] <= MatchPairAt(s, sep, i).value.second
    ensures (e == |s| || !IsDigit(s[e])) ==> MatchPairAt(s, sep, i) == Some(PairMatch(i, s[i..j], s[c..e]))
  {
    PairScanStops(s, sep, i, j, k, c, e);
    assert s[c..e] <= s[c..DigitRunEnd(s, c)];
  }

  /** On such a layout, every run the scan skips stops at the layout's next piece; group 2's run reaches at least `e`. */
  lemma PairScanStops(s: string, sep: string, i: nat, j: nat, k: nat, c: nat, e: nat)
    requires PairSeparator(sep) && PairShape(s, sep, i, j, k, c, e)
    ensures DigitRunEnd(s, i) == j && SkipSpaces(s, j) == k && SkipSpaces(s, k + |sep|) == c
    ensures e <= DigitRunEnd(s, c)
    ensures (e == |s| || !IsDigit(s[e])) ==> DigitRunEnd(s, c) == e
  {
    assert s[k] == sep[0];
    DigitRunEndAt(s, i, j);
    SkipSpacesAt(s, j, k);
    SkipSpacesAt(s, k + |sep|, c);
    DigitRunEndAt(s, c, e);
  }

  /** `re.search` for a pair pattern from `i` on. */
  function SearchPair(s: string, sep: string, i: nat): (r: Option<PairMatch>)
    requires i <= |s|
    ensures r.Some? ==> i <= r.value.start <= |s|
    ensures r.Some? ==> MatchPairAt(s, sep, r.value.start) == r
    ensures r.Some? ==> forall p | i <= p < r.value.start :: MatchPairAt(s, sep, p).None?
    ensures r.None? ==> forall p | i <= p <= |s| :: MatchPairAt(s, sep, p).None?
    decreases |s| - i
  {
    var here := MatchPairAt(s, sep, i);
    if here.Some? then here
    else if i == |s| then None
    else SearchPair(s, sep, i + 1)
  }

  /** Wherever a number pair is laid out, the search finds one there or further left. */
  lemma SearchPairFindsLayout(s: string, sep: string, p: nat, j: nat, k: nat, c: nat, e: nat)
    requires PairSeparator(sep) && PairShape(s, sep, p, j, k, c, e)
    ensures SearchPair(s, sep, 0).Some? && SearchPair(s, sep, 0).value.start <= p
  {
    MatchPairAtComplete(s, sep, p, j, k, c, e);
  }

  /** A match found by a search from the left begins a digit run: group 1 is a whole number. */
  lemma SearchPairStartsRun(s: string, sep: string)
    requires SearchPair(s, sep, 0).Some?
    ensures var p := SearchPair(s, sep, 0).value.start;
            p == 0 || !IsDigit(s[p - 1])
  {
    var p := SearchPair(s, sep, 0).value.start;
    if p > 0 && IsDigit(s[p - 1]) {
      MatchPairInsideRun(s, sep, p);
      assert false;
    }
  }

  /** A pair match that starts inside a digit run also starts one character earlier. */
  lemma MatchPairInsideRun(s: string, sep: string, i: nat)
    requires 0 < i <= |s| && IsDigit(s[i - 1]) && MatchPairAt(s, sep, i).Some?
    ensures MatchPairAt(s, sep, i - 1).Some?
  {
    assert DigitRunEnd(s, i - 1) == DigitRunEnd(s, i);
  }

  // ---------------------------------------------------------------------------
  // (\d+)\s*([A-Z])\s*-\s*([A-Z])
  // ---------------------------------------------------------------------------

  /** A match of the letter-range pattern: its start, the house number and the two letters. */
  datatype LetterMatch = LetterMatch(start: nat, number: string, from: char, to: char)

  /** A match of `(\d+)\s*([A-Z])\s*-\s*([A-Z])` that starts at `i`, if any. */
  function MatchLettersAt(s: string, i: nat): (r: Option<LetterMatch>)
    requires i <= |s|
    ensures r.Some? ==> r.value.start == i && i + |r.value.number| <= |s|
                        && |r.value.number| > 0 && AllDigits(r.value.number)
                        && r.value.number == s[i..i + |r.value.number|]
                        && IsUpper(r.value.from) && IsUpper(r.value.to)
  {
    var j := DigitRunEnd(s, i);
    var k := SkipSpaces(s, j);
    if j > i && k < |s| && IsUpper(s[k]) then
      var m := SkipSpaces(s, k + 1);
      if m < |s| && s[m] == '-' then
        var p := SkipSpaces(s, m + 1);
        if p < |s| && IsUpper(s[p]) then Some(LetterMatch(i, s[i..j], s[k], s[p])) else None
      else None
    else None
  }

  /**
    The layout of a `(\d+)\s*([A-Z])\s*-\s*([A-Z])` match starting at `i`: the number on `[i, j)`,
    whitespace on `[j, k)`, the first letter at `k`, whitespace on `[k + 1, m)`, the dash at `m`,
    whitespace on `[m + 1, p)` and the last letter at `p`.
   */
  predicate LetterShape(s: string, i: nat, j: nat, k: nat, m: nat, p: nat) {
    && i < j <= k < m < p < |s|
    && (forall t | i <= t < j :: IsDigit(s[t]))
    && (forall t | j <= t < k :: IsSpace(s[t]))
    && IsUpper(s[k])
    && (forall t | k + 1 <= t < m :: IsSpace(s[t]))
    && s[m] == '-'
    && (forall t | m + 1 <= t < p :: IsSpace(s[t]))
    && IsUpper(s[p])
  }

  /** Whatever `MatchLettersAt` finds is such a layout. */
  lemma MatchLettersAtSound(s: string, i: nat)
    requires i <= |s| && MatchLettersAt(s, i).Some?
    ensures exists j: nat, k: nat, m: nat, p: nat :: LetterShape(s, i, j, k, m, p)
                                 && MatchLettersAt(s, i) == Some(LetterMatch(i, s[i..j], s[k], s[p]))
  {
    var j := DigitRunEnd(s, i);
    var k := SkipSpaces(s, j);
    var m := SkipSpaces(s, k + 1);
    assert LetterShape(s, i, j, k, m, SkipSpaces(s, m + 1));
  }

  /** And every such layout is matched at `i`, with exactly its number and letters. */
  lemma MatchLettersAtComplete(s: string, i: nat, j: nat, k: nat, m: nat, p: nat)
    requires LetterShape(s, i, j, k, m, p)
    ensures MatchLettersAt(s, i) == Some(LetterMatch(i, s[i..j], s[k], s[p]))
  {
    LetterScanStops(s, i, j, k, m, p);
  }

  /** On such a layout, every run the scan skips stops at the layout's next piece. */
  lemma LetterScanStops(s: string, i: nat, j: nat, k: nat, m: nat, p: nat)
    requires LetterShape(s, i, j, k, m, p)
    ensures DigitRunEnd(s, i) == j && SkipSpaces(s, j) == k
    ensures SkipSpaces(s, k + 1) == m && SkipSpaces(s, m + 1) == p
  {
    DigitRunEndAt(s, i, j);
    SkipSpacesAt(s, j, k);
    SkipSpacesAt(s, k + 1, m);
    SkipSpacesAt(s, m + 1, p);
  }

  /** `re.search` for the letter-range pattern from `i` on. */
  function SearchLetters(s: string, i: nat): (r: Option<LetterMatch>)
    requires i <= |s|
    ensures r.Some? ==> i <= r.value.start <= |s|
    ensures r.Some? ==> MatchLettersAt(s, r.value.start) == r
    ensures r.Some? ==> forall p | i <= p < r.value.start :: MatchLettersAt(s, p).None?
    ensures r.None? ==> forall p | i <= p <= |s| :: MatchLettersAt(s, p).None?
    decreases |s| - i
  {
    var here := MatchLettersAt(s, i);
    if here.Some? then here
    else if i == |s| then None
    else SearchLetters(s, i + 1)
  }

  /** Wherever a letter range is laid out, the search finds one there or further left. */
  lemma SearchLettersFindsLayout(s: string, p: nat, j: nat, k: nat, m: nat, q: nat)
    requires LetterShape(s, p, j, k, m, q)
    ensures SearchLetters(s, 0).Some? && SearchLetters(s, 0).value.start <= p
  {
    MatchLettersAtComplete(s, p, j, k, m, q);
  }

  /** Like the pair patterns, a letter-range match found from the left begins a digit run. */
  lemma SearchLettersStartsRun(s: string)
    requires SearchLetters(s, 0).Some?
    ensures var p := SearchLetters(s, 0).value.start;
            p == 0 || !IsDigit(s[p - 1])
  {
    var p := SearchLetters(s, 0).value.start;
    if p > 0 && IsDigit(s[p - 1]) {
      MatchLettersInsideRun(s, p);
      assert false;
    }
  }

  /** A letter-range match that starts inside a digit run also starts one character earlier. */
  lemma MatchLettersInsideRun(s: string, i: nat)
    requires 0 < i <= |s| && IsDigit(s[i - 1]) && MatchLettersAt(s, i).Some?
    ensures MatchLettersAt(s, i - 1).Some?
  {
    assert DigitRunEnd(s, i - 1) == DigitRunEnd(s, i);
  }
}
