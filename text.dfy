/**
  Python string primitives the two scripts rely on: character classes, `str.strip()`,
  `in` on strings, `str.split(sep)`, `str.replace(old, new)`, `int(digits)` and the
  decimal rendering of an `int` inside an f-string.
 */
module Text {

  /** Python's `str.isspace()`; a `str` regex's `\s` matches exactly these characters too. */
  predicate IsSpace(c: char) {
    || ('\t' <= c <= '\r')
    || ('\U{1C}' <= c <= '\U{1F}')
    || c == ' ' || c == '\U{85}' || c == '\U{A0}' || c == '\U{1680}'
    || ('\U{2000}' <= c <= '\U{200A}')
    || c == '\U{2028}' || c == '\U{2029}' || c == '\U{202F}' || c == '\U{205F}' || c == '\U{3000}'
  }

  /** `\d`, restricted to the ASCII digits. */
  predicate IsDigit(c: char) {
    '0' <= c <= '9'
  }

  /** `[A-Z]`. */
  predicate IsUpper(c: char) {
    'A' <= c <= 'Z'
  }

  predicate AllDigits(s: string) {
    forall i | 0 <= i < |s| :: IsDigit(s[i])
  }

  predicate AllSpace(s: string) {
    forall i | 0 <= i < |s| :: IsSpace(s[i])
  }

  // ---------------------------------------------------------------------------
  // str.strip()
  // ---------------------------------------------------------------------------

  /** Index where `s.strip()` starts: the first non-whitespace character (or `|s|`). */
  function StripStart(s: string): (a: nat)
    ensures a <= |s| && AllSpace(s[..a])
    ensures a < |s| ==> !IsSpace(s[a])
  {
    SkipSpaces(s, 0)
  }

  /** End of the run kept by `s.strip()`: trailing whitespace down to `lo` is dropped. */
  function SpanEnd(s: string, lo: nat, j: nat): (i: nat)
    requires lo <= j <= |s|
    ensures lo <= i <= j
    ensures AllSpace(s[i..j])
    ensures i == lo || !IsSpace(s[i - 1])
    decreases j
  {
    if j > lo && IsSpace(s[j - 1]) then
      var i := SpanEnd(s, lo, j - 1);
      assert s[i..j] == s[i..j - 1] + [s[j - 1]];
      i
    else j
  }

  /** `s.strip()`. */
  function Strip(s: string): string
  {
    s[StripStart(s)..SpanEnd(s, StripStart(s), |s|)]
  }

  /** What `Strip` leaves: a slice of `s` with only whitespace around it, neither end whitespace. */
  lemma StripIsTrimmedSlice(s: string)
    ensures exists a, b :: 0 <= a <= b <= |s| && Strip(s) == s[a..b]
                        && AllSpace(s[..a]) && AllSpace(s[b..])
    ensures Strip(s) == [] || (!IsSpace(Strip(s)[0]) && !IsSpace(Strip(s)[|Strip(s)| - 1]))
  {
    var a := StripStart(s);
    var b := SpanEnd(s, a, |s|);
    assert s[b..] == s[b..|s|];
    assert Strip(s) == s[a..b];
  }

  lemma StripKeepsCharacters(s: string, c: char)
    ensures c in Strip(s) ==> c in s
  {
    StripIsTrimmedSlice(s);
  }

  lemma StripIdempotent(s: string)
    ensures Strip(Strip(s)) == Strip(s)
  {
    StripIsTrimmedSlice(s);
    StripOfTrimmed(Strip(s));
  }

  /** A string that neither starts nor ends with whitespace is left alone. */
  lemma StripOfTrimmed(s: string)
    requires s == [] || (!IsSpace(s[0]) && !IsSpace(s[|s| - 1]))
    ensures Strip(s) == s
  {
    assert s[0..|s|] == s;
  }

  /** Stripping a string whose first `n` characters are not whitespace keeps them, and cuts only at the end. */
  lemma StripKeepsLeadingNonSpace(s: string, n: nat)
    requires n <= |s| && forall i | 0 <= i < n :: !IsSpace(s[i])
    ensures |Strip(s)| >= n && Strip(s)[..n] == s[..n]
    ensures n > 0 ==> Strip(s) <= s
  {
    if n > 0 {
      assert StripStart(s) == 0;
      var b := SpanEnd(s, 0, |s|);
      assert !IsSpace(s[n - 1]);
      assert b >= n;
      assert Strip(s) == s[..b];
      assert s[..b][..n] == s[..n];
    }
  }

  // ---------------------------------------------------------------------------
  // substring test, `sub in text`
  // ---------------------------------------------------------------------------

  predicate OccursAt(text: string, sub: string, i: nat) {
    i + |sub| <= |text| && text[i..i + |sub|] == sub
  }

  /** `text` continues with `sub` from index `i` on (`text.startswith(sub, i)`), compared character by character. */
  predicate StartsWithAt(text: string, sub: string, i: nat) {
    i + |sub| <= |text| && forall j | 0 <= j < |sub| :: text[i + j] == sub[j]
  }

  /** Python's `sub in text`. */
  predicate Contains(text: string, sub: string) {
    exists i: nat | i <= |text| :: OccursAt(text, sub, i)
  }

  lemma ContainsTransitive(text: string, mid: string, sub: string)
    requires Contains(text, mid) && Contains(mid, sub)
    ensures Contains(text, sub)
  {
    var i: nat :| i <= |text| && OccursAt(text, mid, i);
    var j: nat :| j <= |mid| && OccursAt(mid, sub, j);
    forall k | 0 <= k < |sub| ensures text[i + j + k] == sub[k] {
      assert text[i..i + |mid|][j + k] == mid[j + k];
      assert mid[j..j + |sub|][k] == sub[k];
    }
    assert text[i + j..i + j + |sub|] == sub;
    assert OccursAt(text, sub, i + j);
  }

  lemma NothingNonEmptyInEmpty(sub: string)
    requires |sub| > 0
    ensures !Contains("", sub)
  {
  }

  // ---------------------------------------------------------------------------
  // first occurrence of a character; str.split(sep) for a one-character sep
  // ---------------------------------------------------------------------------

  /** Index of the first `c` in `s`, or `|s|` when there is none. */
  function IndexOf(s: string, c: char): (r: nat)
    ensures r <= |s|
    ensures c !in s[..r]
    ensures r < |s| ==> s[r] == c
  {
    if |s| == 0 then 0
    else if s[0] == c then 0
    else 1 + IndexOf(s[1..], c)
  }

  lemma IndexOfAbsent(s: string, c: char)
    ensures c !in s <==> IndexOf(s, c) == |s|
  {
    if IndexOf(s, c) == |s| {
      assert s[..|s|] == s;
    }
  }

  /** `s.split(sep)[0]`: everything before the first `sep`. */
  function Before(s: string, sep: char): (r: string)
    ensures sep !in r
    ensures r <= s
    ensures sep !in s ==> r == s
    ensures sep in s ==> |r| < |s| && s[|r|] == sep
  {
    IndexOfAbsent(s, sep);
    s[..IndexOf(s, sep)]
  }

  /** `s.split(sep)`: the pieces between the occurrences of `sep`. */
  function Split(s: string, sep: char): (parts: seq<string>)
    ensures |parts| >= 1
    ensures forall k | 0 <= k < |parts| :: sep !in parts[k]
    decreases |s|
  {
    var i := IndexOf(s, sep);
    if i == |s| then [s] else [s[..i]] + Split(s[i + 1..], sep)
  }

  /** `sep.join(parts)`, the inverse of `Split`. */
  function Join(parts: seq<string>, sep: char): string
    requires |parts| >= 1
  {
    if |parts| == 1 then parts[0] else parts[0] + [sep] + Join(parts[1..], sep)
  }

  function Count(s: string, c: char): nat {
    if |s| == 0 then 0 else (if s[0] == c then 1 else 0) + Count(s[1..], c)
  }

  lemma CountAppend(a: string, b: string, c: char)
    ensures Count(a + b, c) == Count(a, c) + Count(b, c)
  {
    if |a| > 0 {
      assert (a + b)[1..] == a[1..] + b;
      CountAppend(a[1..], b, c);
    } else {
      assert a + b == b;
    }
  }

  lemma CountAbsent(s: string, c: char)
    requires c !in s
    ensures Count(s, c) == 0
  {
    if |s| > 0 {
      CountAbsent(s[1..], c);
    }
  }

  /** Splitting then joining gives the string back. */
  lemma {:induction false} SplitJoin(s: string, sep: char)
    ensures Join(Split(s, sep), sep) == s
    decreases |s|
  {
    var i := IndexOf(s, sep);
    if i < |s| {
      var rest := s[i + 1..];
      SplitJoin(rest, sep);
      JoinCons(s[..i], Split(rest, sep), sep);
      assert s == s[..i] + [sep] + rest;
    }
  }

  lemma JoinCons(first: string, parts: seq<string>, sep: char)
    requires |parts| >= 1
    ensures Join([first] + parts, sep) == first + [sep] + Join(parts, sep)
  {
    assert ([first] + parts)[1..] == parts;
  }

  /** There is one more piece than there are separators. */
  lemma {:induction false} SplitCount(s: string, sep: char)
    ensures |Split(s, sep)| == Count(s, sep) + 1
    decreases |s|
  {
    var i := IndexOf(s, sep);
    IndexOfAbsent(s, sep);
    if i == |s| {
      CountAbsent(s, sep);
    } else {
      SplitCount(s[i + 1..], sep);
      SplitCountStep(s, sep, i);
    }
  }

  lemma SplitCountStep(s: string, sep: char, i: nat)
    requires i < |s| && s[i] == sep && sep !in s[..i]
    ensures Count(s, sep) == Count(s[i + 1..], sep) + 1
  {
    assert s == s[..i] + [sep] + s[i + 1..];
    CountAppend(s[..i] + [sep], s[i + 1..], sep);
    CountAppend(s[..i], [sep], sep);
    CountAbsent(s[..i], sep);
  }

  /** Every character of a piece comes from the split string. */
  lemma {:induction false} SplitKeepsCharacters(s: string, sep: char, k: nat, c: char)
    requires k < |Split(s, sep)| && c in Split(s, sep)[k]
    ensures c in s
    decreases |s|
  {
    var i := IndexOf(s, sep);
    if i < |s| && k > 0 {
      assert Split(s, sep)[k] == Split(s[i + 1..], sep)[k - 1];
      SplitKeepsCharacters(s[i + 1..], sep, k - 1, c);
    }
  }

  // ---------------------------------------------------------------------------
  // str.replace(old, new)
  // ---------------------------------------------------------------------------

  /** `s.replace(pat, rep)` for a non-empty `pat`: leftmost non-overlapping occurrences. */
  function ReplaceAll(s: string, pat: string, rep: string): string
    requires |pat| > 0
    decreases |s|
  {
    if |s| == 0 then ""
    else if pat <= s then rep + ReplaceAll(s[|pat|..], pat, rep)
    else [s[0]] + ReplaceAll(s[1..], pat, rep)
  }

  /** Replacing keeps every character that is in neither pattern. */
  lemma {:induction false} ReplaceAllKeepsCharacters(s: string, pat: string, rep: string, c: char)
    requires |pat| > 0 && c !in rep
    ensures c in ReplaceAll(s, pat, rep) ==> c in s
    decreases |s|
  {
    if |s| > 0 {
      if pat <= s {
        ReplaceAllKeepsCharacters(s[|pat|..], pat, rep, c);
      } else {
        ReplaceAllKeepsCharacters(s[1..], pat, rep, c);
      }
    }
  }

  /**
    A prefix of the replacement result that avoids the replacement's first character was
    already a prefix of the input: the scan copies characters until it meets the pattern.
   */
  lemma {:induction false} ReplaceAllKeepsPrefix(x: string, pat: string, rep: string, w: string)
    requires |pat| > 0 && |rep| > 0 && rep[0] !in w
    ensures w <= ReplaceAll(x, pat, rep) ==> w <= x
    decreases |x|
  {
    if |w| > 0 && |x| > 0 && !(pat <= x) {
      assert forall c | c in w[1..] :: c in w;
      ReplaceAllKeepsPrefix(x[1..], pat, rep, w[1..]);
    }
    if |w| > 0 && |x| > 0 && pat <= x {
      assert ReplaceAll(x, pat, rep)[0] == rep[0];
      assert w[0] in w;
    }
  }

  /** Replacement leaves a string without occurrences unchanged. */
  lemma {:induction false} ReplaceAllAbsent(s: string, pat: string, rep: string)
    requires |pat| > 0 && !Contains(s, pat)
    ensures ReplaceAll(s, pat, rep) == s
    decreases |s|
  {
    if |s| > 0 {
      assert !OccursAt(s, pat, 0);
      forall i: nat | i <= |s[1..]| ensures !OccursAt(s[1..], pat, i) {
        if OccursAt(s[1..], pat, i) {
          assert s[i + 1..i + 1 + |pat|] == s[1..][i..i + |pat|];
          assert OccursAt(s, pat, i + 1);
        }
      }
      ReplaceAllAbsent(s[1..], pat, rep);
    }
  }

  // ---------------------------------------------------------------------------
  // digits, int(...) and f"{n}"
  // ---------------------------------------------------------------------------

  function DigitValue(c: char): nat
    requires IsDigit(c)
  {
    c as int - '0' as int
  }

  function DigitChar(d: nat): (c: char)
    requires d < 10
    ensures IsDigit(c) && DigitValue(c) == d
  {
    ('0' as int + d) as char
  }

  /** `int(digits)` for a run of ASCII digits (leading zeros allowed). */
  function ParseNat(digits: string): nat
    requires AllDigits(digits)
  {
    if |digits| == 0 then 0
    else 10 * ParseNat(digits[..|digits| - 1]) + DigitValue(digits[|digits| - 1])
  }

  /** `f"{n}"` for a non-negative `n`: decimal, no leading zero. */
  function NatToString(n: nat): (s: string)
    ensures |s| > 0 && AllDigits(s)
    ensures |s| > 1 ==> s[0] != '0'
  {
    if n < 10 then [DigitChar(n)] else NatToString(n / 10) + [DigitChar(n % 10)]
  }

  /** `int(f"{n}") == n`. */
  lemma {:induction false} ParseNatToString(n: nat)
    ensures ParseNat(NatToString(n)) == n
  {
    if n >= 10 {
      ParseNatToString(n / 10);
      var s := NatToString(n);
      assert s[..|s| - 1] == NatToString(n / 10);
    }
  }

  /** Maximal end of the run of digits that starts at `i`: where a greedy `\d+` or `\d*` stops. */
  function DigitRunEnd(s: string, i: nat): (j: nat)
    requires i <= |s|
    ensures i <= j <= |s|
    ensures AllDigits(s[i..j])
    ensures j == |s| || !IsDigit(s[j])
    decreases |s| - i
  {
    if i < |s| && IsDigit(s[i]) then DigitRunEnd(s, i + 1) else i
  }

  /** A digit run from `i` that reaches `j` makes `DigitRunEnd` stop at `j` or later, and exactly at `j` when `s[j]` is no digit. */
  lemma {:induction false} DigitRunEndAt(s: string, i: nat, j: nat)
    requires i <= j <= |s|
    requires forall t | i <= t < j :: IsDigit(s[t])
    ensures j <= DigitRunEnd(s, i)
    ensures (j == |s| || !IsDigit(s[j])) ==> DigitRunEnd(s, i) == j
    decreases j - i
  {
    if i < j {
      DigitRunEndAt(s, i + 1, j);
    }
  }

  /** First index at or after `i` that is not whitespace (or `|s|`). */
  function SkipSpaces(s: string, i: nat): (j: nat)
    requires i <= |s|
    ensures i <= j <= |s|
    ensures AllSpace(s[i..j])
    ensures j == |s| || !IsSpace(s[j])
    decreases |s| - i
  {
    if i < |s| && IsSpace(s[i]) then SkipSpaces(s, i + 1) else i
  }

  /** A whitespace run from `i` to `j` followed by a non-whitespace character makes `SkipSpaces` stop at `j`. */
  lemma {:induction false} SkipSpacesAt(s: string, i: nat, j: nat)
    requires i <= j < |s|
    requires forall t | i <= t < j :: IsSpace(s[t])
    requires !IsSpace(s[j])
    ensures SkipSpaces(s, i) == j
    decreases j - i
  {
    if i < j {
      SkipSpacesAt(s, i + 1, j);
    }
  }
}
