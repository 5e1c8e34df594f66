/**
  What the address engine of preprocess_companies.py guarantees: the guard of every cleaning
  step, the characters that cannot survive cleaning, the rows each fan-out rule emits, and
  how the driver loop's output relates to its input frame.
 */
module PreprocessProperties {
  import opened Wrappers
  import opened Text
  import opened Patterns
  import opened Frames
  import opened Preprocess

  // ---------------------------------------------------------------------------
  // Locality injection
  // ---------------------------------------------------------------------------

  /** The correction never starts a misspelling, so putting it in front of a clean text keeps the text clean. */
  lemma CorrectionThenClean(rest: string)
    requires !Contains(rest, Misspelling)
    ensures !Contains(Correction + rest, Misspelling)
  {
    var r := Correction + rest;
    forall i: nat | i <= |r| ensures !OccursAt(r, Misspelling, i) {
      if i == 0 {
        // "Chaussee" and "Chausee" part at their sixth character.
        assert r[5] == Correction[5] != Misspelling[5];
      } else if i < 8 {
        assert r[i] == Correction[i] != Misspelling[0];
        if i + 7 <= |r| {
          assert r[i..i + 7][0] == r[i];
        }
      } else {
        if i + 7 <= |r| {
          assert r[i..i + 7] == rest[i - 8..i - 1];
        }
        assert !OccursAt(rest, Misspelling, i - 8);
      }
    }
  }

  /** One character in front of a clean text starts a misspelling only if it is the 'C' of "Chausee". */
  lemma CharThenClean(c: char, rest: string)
    requires !Contains(rest, Misspelling)
    requires c == 'C' ==> !("hausee" <= rest)
    ensures !Contains([c] + rest, Misspelling)
  {
    var r := [c] + rest;
    forall i: nat | i <= |r| ensures !OccursAt(r, Misspelling, i) {
      if i == 0 {
        if 7 <= |r| {
          assert r[0..7][0] == c && r[0..7][1..] == rest[..6];
          assert Misspelling[0] == 'C' && Misspelling[1..] == "hausee";
        }
      } else {
        if i + 7 <= |r| {
          assert r[i..i + 7] == rest[i - 1..i + 6];
        }
        assert !OccursAt(rest, Misspelling, i - 1);
      }
    }
  }

  /** A text opens with "Chausee" as soon as it opens with 'C' followed by "hausee". */
  lemma OpensWithMisspelling(s: string)
    ensures |s| > 0 && s[0] == 'C' && "hausee" <= s[1..] ==> Misspelling <= s
  {
    if |s| >= 7 {
      assert s[..7] == [s[0]] + s[1..7];
    }
  }

  /** After the typo fix no misspelling is left: the correction itself holds none, and no new one forms at its edges. */
  lemma {:induction false} FixTypoLeavesNoMisspelling(s: string)
    ensures !Contains(FixTypo(s), Misspelling)
    decreases |s|
  {
    if |s| == 0 {
      NothingNonEmptyInEmpty(Misspelling);
    } else if Misspelling <= s {
      FixTypoLeavesNoMisspelling(s[|Misspelling|..]);
      CorrectionThenClean(FixTypo(s[|Misspelling|..]));
    } else {
      FixTypoLeavesNoMisspelling(s[1..]);
      ReplaceAllKeepsPrefix(s[1..], Misspelling, Correction, "hausee");
      OpensWithMisspelling(s);
      CharThenClean(s[0], FixTypo(s[1..]));
    }
  }

  /** So fixing the typo a second time changes nothing. */
  lemma FixTypoIdempotent(s: string)
    ensures FixTypo(FixTypo(s)) == FixTypo(s)
  {
    FixTypoLeavesNoMisspelling(s);
    ReplaceAllAbsent(FixTypo(s), Misspelling, Correction);
  }

  /** Injecting twice is injecting once. */
  lemma AddLocalityIdempotent(s: string)
    ensures AddLocality(AddLocality(s)) == AddLocality(s)
  {
  }

  /** Injection adds only the characters of "12489 Berlin ". */
  lemma AddLocalityKeepsOut(s: string, c: char)
    requires c !in s && c !in DefaultLocality && c != ' '
    ensures c !in AddLocality(s)
  {
    if !HasPostalCode(s) {
      assert AddLocality(s) == DefaultLocality + [' '] + s;
    }
  }

  // ---------------------------------------------------------------------------
  // Company-prefix stripping
  // ---------------------------------------------------------------------------

  /** The three guards of the prefix strip: no "Haus", no "OG", a digit after the comma. */
  predicate PrefixGuard(s: string, rest: string) {
    !Contains(s, "Haus") && !Contains(s, "OG") && HasDigit(rest)
  }

  /** On a string of the pattern's shape the strip keeps group 1 and group 3 exactly when the guards hold. */
  lemma StripCompanyPrefixOnShape(s: string, loc: string, w1: char, company: string, w2: char,
                                  rest: string, tail: string)
    requires PrefixShape(s, loc, w1, company, w2, rest, tail)
    ensures PrefixGuard(s, rest) ==> StripCompanyPrefix(s) == loc + " " + rest
    ensures !PrefixGuard(s, rest) ==> StripCompanyPrefix(s) == s
  {
    MatchCompanyPrefixComplete(s, loc, w1, company, w2, rest, tail);
  }

  /** The strip changes the string if and only if it has the pattern's shape and the guards hold. */
  lemma StripCompanyPrefixFires(s: string)
    ensures StripCompanyPrefix(s) != s <==>
            exists loc, w1, company, w2, rest, tail ::
              PrefixShape(s, loc, w1, company, w2, rest, tail) && PrefixGuard(s, rest)
  {
    if StripCompanyPrefix(s) != s {
      MatchCompanyPrefixSound(s);
      var m := MatchCompanyPrefix(s).value;
      var w2 := s[|m.company| + 14];
      var tail := s[|m.company| + 15 + |m.afterComma|..];
      assert PrefixShape(s, m.locality, s[12], m.company, w2, m.afterComma, tail);
      assert PrefixGuard(s, m.afterComma);
    }
    if exists loc, w1, company, w2, rest, tail ::
         PrefixShape(s, loc, w1, company, w2, rest, tail) && PrefixGuard(s, rest) {
      var loc, w1, company, w2, rest, tail :|
        PrefixShape(s, loc, w1, company, w2, rest, tail) && PrefixGuard(s, rest);
      StripCompanyPrefixOnShape(s, loc, w1, company, w2, rest, tail);
      assert |StripCompanyPrefix(s)| < |s|;
    }
  }

  // ---------------------------------------------------------------------------
  // Truncation
  // ---------------------------------------------------------------------------

  /** After cutting at `sep` the separator is gone and no character was added. */
  lemma CutAtCharacters(s: string, sep: char, c: char)
    ensures sep !in CutAt(s, sep)
    ensures c in CutAt(s, sep) ==> c in s
  {
    var before := Before(s, sep);
    StripKeepsCharacters(before, c);
    StripKeepsCharacters(before, sep);
    if c in before {
      var i :| 0 <= i < |before| && before[i] == c;
      assert s[i] == c;
    }
  }

  /** Truncation leaves a postal-coded string without a comma or a parenthesis, whatever it is given. */
  lemma TruncateShape(s: string)
    ensures HasPostalCode(Truncate(s))
    ensures ',' !in Truncate(s) && '(' !in Truncate(s)
  {
    var beforeComma := CutAt(s, ',');
    var beforeParen := CutAt(beforeComma, '(');
    var cornerless := RemoveCorner(beforeParen);
    CutAtCharacters(s, ',', ',');
    CutAtCharacters(beforeComma, '(', ',');
    CutAtCharacters(beforeComma, '(', '(');
    RemoveCornerClausesKeepsCharacters(beforeParen, ',');
    RemoveCornerClausesKeepsCharacters(beforeParen, '(');
    StripKeepsCharacters(RemoveCornerClauses(beforeParen), ',');
    StripKeepsCharacters(RemoveCornerClauses(beforeParen), '(');
    AddLocalityKeepsOut(cornerless, ',');
    AddLocalityKeepsOut(cornerless, '(');
  }

  /** The cleaned address starts with a postal code and contains no comma and no parenthesis. */
  lemma CleanAddressShape(raw: string)
    ensures HasPostalCode(CleanAddress(raw))
    ensures ',' !in CleanAddress(raw) && '(' !in CleanAddress(raw)
  {
    TruncateShape(Prepare(raw));
  }

  /** A character no fan-out rule can introduce into an address cut from `s`. */
  predicate Foreign(s: string, c: char) {
    c !in s && c !in DefaultLocality && c != ' ' && !IsDigit(c) && !IsUpper(c)
  }

  lemma DigitsAvoid(digits: string, c: char)
    requires AllDigits(digits) && !IsDigit(c)
    ensures c !in digits
  {
  }

  lemma PrefixAvoids(s: string, start: nat, c: char)
    requires start <= |s| && c !in s
    ensures c !in PrefixBefore(s, start)
  {
    StripKeepsCharacters(s[..start], c);
  }

  lemma SemicolonAddressesAvoid(s: string, c: char)
    requires Foreign(s, c)
    ensures forall a | a in SemicolonAddresses(s) :: c !in a
  {
    var parts := Split(s, ';');
    forall k | 0 <= k < |parts|
      ensures c !in SemicolonAddresses(s)[k]
    {
      if c in parts[k] {
        SplitKeepsCharacters(s, ';', k, c);
      }
      StripKeepsCharacters(parts[k], c);
      AddLocalityKeepsOut(Strip(parts[k]), c);
    }
  }

  lemma RangeAddressesAvoid(prefix: string, first: nat, last: nat, c: char)
    requires c !in prefix && c != ' ' && !IsDigit(c)
    ensures forall a | a in RangeAddresses(prefix, first, last) :: c !in a
  {
    var addresses := RangeAddresses(prefix, first, last);
    forall k | 0 <= k < |addresses|
      ensures c !in addresses[k]
    {
      DigitsAvoid(NatToString(first + k), c);
    }
  }

  lemma PairAddressesAvoid(prefix: string, m: PairMatch, c: char)
    requires c !in prefix && c != ' ' && AllDigits(m.first) && AllDigits(m.second) && !IsDigit(c)
    ensures forall a | a in PairAddresses(prefix, m) :: c !in a
  {
    DigitsAvoid(m.first, c);
    DigitsAvoid(m.second, c);
  }

  lemma LetterAddressesAvoid(prefix: string, m: LetterMatch, c: char)
    requires IsUpper(m.from) && IsUpper(m.to) && AllDigits(m.number)
    requires c !in prefix && c != ' ' && !IsDigit(c) && !IsUpper(c)
    ensures forall a | a in LetterAddresses(prefix, m) :: c !in a
  {
    var addresses := LetterAddresses(prefix, m);
    DigitsAvoid(m.number, c);
    forall k | 0 <= k < |addresses|
      ensures c !in addresses[k]
    {
      assert addresses[k] == prefix + " " + m.number + " " + [LetterAfter(m.from, k)];
    }
  }

  /** No emitted address holds a character that is foreign to the cleaned address. */
  lemma AddressesAvoid(s: string, c: char)
    requires Foreign(s, c)
    ensures forall a | a in Addresses(s) :: c !in a
  {
    var f := ChooseFanOut(s);
    if f.BySemicolon? {
      assert Addresses(s) == SemicolonAddresses(s);
      SemicolonAddressesAvoid(s, c);
    } else if f.ByRange? {
      var prefix := PrefixBefore(s, f.pair.start);
      PrefixAvoids(s, f.pair.start, c);
      assert Addresses(s) == RangeAddresses(prefix, ParseNat(f.pair.first), ParseNat(f.pair.second));
      RangeAddressesAvoid(prefix, ParseNat(f.pair.first), ParseNat(f.pair.second), c);
    } else if f.ByAnd? || f.BySlash? {
      var prefix := PrefixBefore(s, f.pair.start);
      PrefixAvoids(s, f.pair.start, c);
      assert Addresses(s) == PairAddresses(prefix, f.pair);
      PairAddressesAvoid(prefix, f.pair, c);
    } else if f.ByLetters? {
      var prefix := PrefixBefore(s, f.letters.start);
      PrefixAvoids(s, f.letters.start, c);
      assert Addresses(s) == LetterAddresses(prefix, f.letters);
      LetterAddressesAvoid(prefix, f.letters, c);
    } else {
      assert Addresses(s) == [s];
    }
  }

  /** Consequently no address that `clean_and_expand_adresse` emits contains a comma or a parenthesis. */
  lemma EmittedAddressesClean(raw: string)
    ensures forall a | a in Addresses(CleanAddress(raw)) :: ',' !in a && '(' !in a
  {
    CleanAddressShape(raw);
    AddressesWithoutCommaOrParen(CleanAddress(raw));
  }

  lemma AddressesWithoutCommaOrParen(s: string)
    requires ',' !in s && '(' !in s
    ensures forall a | a in Addresses(s) :: ',' !in a && '(' !in a
  {
    AddressesAvoid(s, ',');
    AddressesAvoid(s, '(');
  }

  // ---------------------------------------------------------------------------
  // The fan-out decision
  // ---------------------------------------------------------------------------

  /** `re.search(r"(\d+)\s*SEP\s*(\d+)", s)` finds something. */
  predicate HasPairMatch(s: string, sep: string) {
    exists p | 0 <= p <= |s| :: MatchPairAt(s, sep, p).Some?
  }

  /** `re.search(r"(\d+)\s*([A-Z])\s*-\s*([A-Z])", s)` finds something. */
  predicate HasLetterMatch(s: string) {
    exists p | 0 <= p <= |s| :: MatchLettersAt(s, p).Some?
  }

  /** Each rule is taken exactly when it applies and no earlier rule does. */
  lemma FanOutPriority(s: string)
    ensures ChooseFanOut(s).BySemicolon? <==> ';' in s
    ensures ChooseFanOut(s).ByRange? <==> ';' !in s && HasPairMatch(s, RangeSep)
    ensures ChooseFanOut(s).ByAnd? <==>
              ';' !in s && !HasPairMatch(s, RangeSep) && HasPairMatch(s, AndSep)
    ensures ChooseFanOut(s).BySlash? <==>
              ';' !in s && !HasPairMatch(s, RangeSep) && !HasPairMatch(s, AndSep)
              && HasPairMatch(s, SlashSep)
    ensures ChooseFanOut(s).ByLetters? <==>
              ';' !in s && !HasPairMatch(s, RangeSep) && !HasPairMatch(s, AndSep)
              && !HasPairMatch(s, SlashSep) && HasLetterMatch(s)
    ensures ChooseFanOut(s).Unsplit? <==>
              ';' !in s && !HasPairMatch(s, RangeSep) && !HasPairMatch(s, AndSep)
              && !HasPairMatch(s, SlashSep) && !HasLetterMatch(s)
  {
    var range := SearchPair(s, RangeSep, 0);
    var und := SearchPair(s, AndSep, 0);
    var slash := SearchPair(s, SlashSep, 0);
    var letters := SearchLetters(s, 0);
    if range.Some? {
      assert MatchPairAt(s, RangeSep, range.value.start).Some?;
    }
    if und.Some? {
      assert MatchPairAt(s, AndSep, und.value.start).Some?;
    }
    if slash.Some? {
      assert MatchPairAt(s, SlashSep, slash.value.start).Some?;
    }
    if letters.Some? {
      assert MatchLettersAt(s, letters.value.start).Some?;
    }
  }

  /** Case 1: one address per `;`-separated segment, in order, each with a postal code. */
  lemma SemicolonCase(s: string)
    requires ';' in s
    ensures ChooseFanOut(s) == BySemicolon
    ensures |Addresses(s)| == Count(s, ';') + 1
    ensures forall k | 0 <= k < |Addresses(s)| ::
              Addresses(s)[k] == AddLocality(Strip(Split(s, ';')[k])) && HasPostalCode(Addresses(s)[k])
  {
    SplitCount(s, ';');
  }

  /** The numbers of a range, read back: one address per number, in increasing order. */
  lemma RangeAddressesNumbers(prefix: string, first: nat, last: nat)
    ensures |RangeAddresses(prefix, first, last)| == if first <= last then last - first + 1 else 0
    ensures forall k | 0 <= k < |RangeAddresses(prefix, first, last)| ::
              var a := RangeAddresses(prefix, first, last)[k];
              && a == prefix + " " + NatToString(first + k)
              && |prefix| + 1 <= |a|
              && a[..|prefix| + 1] == prefix + " "
              && a[|prefix| + 1..] == NatToString(first + k)
              && ParseNat(a[|prefix| + 1..]) == first + k
  {
    var addresses := RangeAddresses(prefix, first, last);
    forall k | 0 <= k < |addresses|
      ensures && addresses[k] == prefix + " " + NatToString(first + k)
              && |prefix| + 1 <= |addresses[k]|
              && addresses[k][..|prefix| + 1] == prefix + " "
              && addresses[k][|prefix| + 1..] == NatToString(first + k)
              && ParseNat(addresses[k][|prefix| + 1..]) == first + k
    {
      assert addresses[k] == prefix + " " + NatToString(first + k);
      ParseNatToString(first + k);
    }
  }

  /**
    Case 2: from the first number to the second, one address per number in increasing order,
    each the prefix, a space and the number written without leading zeros; none when reversed.
   */
  lemma RangeCase(s: string, m: PairMatch)
    requires ChooseFanOut(s) == ByRange(m)
    ensures ';' !in s
    ensures Addresses(s) == RangeAddresses(PrefixBefore(s, m.start), ParseNat(m.first), ParseNat(m.second))
    ensures var first, last := ParseNat(m.first), ParseNat(m.second);
            |Addresses(s)| == if first <= last then last - first + 1 else 0
    ensures forall k | 0 <= k < |Addresses(s)| ::
              var prefix := PrefixBefore(s, m.start);
              var a := Addresses(s)[k];
              && a == prefix + " " + NatToString(ParseNat(m.first) + k)
              && ParseNat(a[|prefix| + 1..]) == ParseNat(m.first) + k
  {
    var prefix, first, last := PrefixBefore(s, m.start), ParseNat(m.first), ParseNat(m.second);
    assert Addresses(s) == RangeAddresses(prefix, first, last);
    RangeAddressesNumbers(prefix, first, last);
  }

  /** Cases 3 and 4: exactly two addresses, built from the two numbers of the leftmost match. */
  lemma PairCase(s: string)
    requires ChooseFanOut(s).ByAnd? || ChooseFanOut(s).BySlash?
    ensures ';' !in s && !HasPairMatch(s, RangeSep)
    ensures ChooseFanOut(s).BySlash? ==> !HasPairMatch(s, AndSep)
    ensures var m := ChooseFanOut(s).pair;
            var sep := if ChooseFanOut(s).ByAnd? then AndSep else SlashSep;
            && MatchPairAt(s, sep, m.start) == Some(m)
            && (forall p | 0 <= p < m.start :: MatchPairAt(s, sep, p).None?)
            && Addresses(s) == [PrefixBefore(s, m.start) + " " + m.first, PrefixBefore(s, m.start) + " " + m.second]
  {
    FanOutPriority(s);
  }

  /** Case 5: one address per letter from the first to the second, in alphabetical order; none when reversed. */
  lemma LetterCase(s: string, m: LetterMatch)
    requires ChooseFanOut(s) == ByLetters(m)
    ensures |Addresses(s)| == if m.from <= m.to then m.to as int - m.from as int + 1 else 0
    ensures forall k | 0 <= k < |Addresses(s)| ::
              var a := Addresses(s)[k];
              && a == PrefixBefore(s, m.start) + " " + m.number + " " + [a[|a| - 1]]
              && m.from <= a[|a| - 1] <= m.to
              && a[|a| - 1] as int == m.from as int + k
  {
  }

  /** The default case: exactly one row, carrying the fully cleaned address. */
  lemma DefaultCase(row: Row)
    requires ChooseFanOut(CleanAddress(AddressText(row))).Unsplit?
    ensures ExpandedRows(row) == [row[AddressColumn := CleanAddress(AddressText(row))]]
  {
    UnsplitRows(row, CleanAddress(AddressText(row)));
  }

  lemma UnsplitRows(row: Row, s: string)
    requires ChooseFanOut(s).Unsplit?
    ensures RowsFor(row, Addresses(s)) == [row[AddressColumn := s]]
  {
    assert Addresses(s) == [s];
  }

  // ---------------------------------------------------------------------------
  // Postal codes of the emitted addresses
  // ---------------------------------------------------------------------------

  /** The chosen pattern match begins at the very first character. */
  predicate StartsAtZero(f: FanOut) {
    || ((f.ByRange? || f.ByAnd? || f.BySlash?) && f.pair.start == 0)
    || (f.ByLetters? && f.letters.start == 0)
  }

  /** A prefix cut from a postal-coded string after its code still carries it once a space follows. */
  lemma PrefixKeepsPostalCode(s: string, start: nat, x: string)
    requires HasPostalCode(s) && 6 <= start <= |s|
    ensures HasPostalCode(PrefixBefore(s, start) + " " + x)
  {
    var t := s[..start];
    StripKeepsLeadingNonSpace(t, 5);
    var prefix := Strip(t);
    if |prefix| > 5 {
      assert prefix[5] == t[5] == s[5];
    }
  }

  /** A match found by the search is at 0 or past the postal code. */
  lemma MatchStartPastPostalCode(s: string, start: nat)
    requires HasPostalCode(s) && start < |s| && IsDigit(s[start])
    requires start == 0 || !IsDigit(s[start - 1])
    ensures start == 0 || start >= 6
  {
  }

  lemma RangeAddressesPostalCode(s: string, start: nat, first: nat, last: nat)
    requires HasPostalCode(s) && start <= |s| && (start == 0 || start >= 6)
    ensures forall a | a in RangeAddresses(PrefixBefore(s, start), first, last) ::
              HasPostalCode(a) <==> start != 0
  {
    var prefix := PrefixBefore(s, start);
    var addresses := RangeAddresses(prefix, first, last);
    forall k | 0 <= k < |addresses|
      ensures HasPostalCode(addresses[k]) <==> start != 0
    {
      var number := NatToString(first + k);
      assert addresses[k] == prefix + " " + number;
      if start != 0 {
        PrefixKeepsPostalCode(s, start, number);
      } else {
        assert prefix == [];
      }
    }
  }

  lemma LetterAddressesPostalCode(s: string, m: LetterMatch)
    requires IsUpper(m.from) && IsUpper(m.to)
    requires HasPostalCode(s) && m.start <= |s| && (m.start == 0 || m.start >= 6)
    ensures forall a | a in LetterAddresses(PrefixBefore(s, m.start), m) ::
              HasPostalCode(a) <==> m.start != 0
  {
    var prefix := PrefixBefore(s, m.start);
    var addresses := LetterAddresses(prefix, m);
    forall k | 0 <= k < |addresses|
      ensures HasPostalCode(addresses[k]) <==> m.start != 0
    {
      var x := m.number + " " + [LetterAfter(m.from, k)];
      assert addresses[k] == prefix + " " + x;
      if m.start != 0 {
        PrefixKeepsPostalCode(s, m.start, x);
      } else {
        assert prefix == [];
      }
    }
  }

  /**
    Every emitted address of a postal-coded string has a postal code, unless the chosen match
    starts at the first character: the prefix is then empty and every address starts with a space.
   */
  lemma AddressesPostalCode(s: string)
    requires HasPostalCode(s)
    ensures forall a | a in Addresses(s) :: HasPostalCode(a) <==> !StartsAtZero(ChooseFanOut(s))
  {
    var f := ChooseFanOut(s);
    if f.BySemicolon? {
      SemicolonCase(s);
    } else if f.ByRange? {
      PairStartPastPostalCode(s, RangeSep, f.pair);
      assert Addresses(s) == RangeAddresses(PrefixBefore(s, f.pair.start), ParseNat(f.pair.first), ParseNat(f.pair.second));
      RangeAddressesPostalCode(s, f.pair.start, ParseNat(f.pair.first), ParseNat(f.pair.second));
    } else if f.ByAnd? {
      PairStartPastPostalCode(s, AndSep, f.pair);
      assert Addresses(s) == PairAddresses(PrefixBefore(s, f.pair.start), f.pair);
      PairAddressesPostalCode(s, f.pair);
    } else if f.BySlash? {
      PairStartPastPostalCode(s, SlashSep, f.pair);
      assert Addresses(s) == PairAddresses(PrefixBefore(s, f.pair.start), f.pair);
      PairAddressesPostalCode(s, f.pair);
    } else if f.ByLetters? {
      SearchLettersStartsRun(s);
      MatchStartPastPostalCode(s, f.letters.start);
      assert Addresses(s) == LetterAddresses(PrefixBefore(s, f.letters.start), f.letters);
      LetterAddressesPostalCode(s, f.letters);
    } else {
      assert Addresses(s) == [s];
    }
  }

  lemma PairStartPastPostalCode(s: string, sep: string, m: PairMatch)
    requires HasPostalCode(s) && SearchPair(s, sep, 0) == Some(m)
    ensures m.start == 0 || m.start >= 6
  {
    SearchPairStartsRun(s, sep);
    MatchStartPastPostalCode(s, m.start);
  }

  lemma PairAddressesPostalCode(s: string, m: PairMatch)
    requires HasPostalCode(s) && m.start <= |s| && (m.start == 0 || m.start >= 6)
    ensures forall a | a in PairAddresses(PrefixBefore(s, m.start), m) :: HasPostalCode(a) <==> m.start != 0
  {
    if m.start != 0 {
      PrefixKeepsPostalCode(s, m.start, m.first);
      PrefixKeepsPostalCode(s, m.start, m.second);
    } else {
      assert PrefixBefore(s, m.start) == [];
    }
  }

  // ---------------------------------------------------------------------------
  // Rows
  // ---------------------------------------------------------------------------

  /** The rule leaves no row at all: a reversed number range or a reversed letter range. */
  predicate DropsRow(s: string) {
    var f := ChooseFanOut(s);
    || (f.ByRange? && ParseNat(f.pair.first) > ParseNat(f.pair.second))
    || (f.ByLetters? && f.letters.from > f.letters.to)
  }

  /** A cleaned address yields no address exactly when its rule is a reversed range. */
  lemma AddressesEmpty(s: string)
    ensures Addresses(s) == [] <==> DropsRow(s)
  {
    if ChooseFanOut(s).BySemicolon? {
      assert |SemicolonAddresses(s)| == |Split(s, ';')|;
    }
  }

  /** Every expanded row is the input row with only its address replaced by one of the emitted addresses. */
  lemma ExpandedRowsColumns(row: Row)
    ensures |ExpandedRows(row)| == |Addresses(CleanAddress(AddressText(row)))|
    ensures forall k | 0 <= k < |ExpandedRows(row)| ::
              && ExpandedRows(row)[k].Keys == row.Keys + {AddressColumn}
              && ExpandedRows(row)[k][AddressColumn] == Addresses(CleanAddress(AddressText(row)))[k]
              && forall col | col in row && col != AddressColumn :: ExpandedRows(row)[k][col] == row[col]
  {
    var addresses := Addresses(CleanAddress(AddressText(row)));
    forall k | 0 <= k < |addresses| {
      CreateRowChangesOnlyAddress(row, addresses[k]);
    }
  }

  lemma {:induction false} FlattenOrigin(g: seq<seq<Row>>, r: Row)
    requires r in Flatten(g)
    ensures exists i | 0 <= i < |g| :: r in g[i]
    decreases |g|
  {
    var front := g[..|g| - 1];
    if r !in g[|g| - 1] {
      FlattenOrigin(front, r);
      var i :| 0 <= i < |front| && r in front[i];
      assert g[i] == front[i];
    }
  }

  lemma {:induction false} FlattenLength(g: seq<seq<Row>>)
    requires forall i | 0 <= i < |g| :: g[i] != []
    ensures |Flatten(g)| >= |g|
    decreases |g|
  {
    if g != [] {
      var front := g[..|g| - 1];
      assert forall i | 0 <= i < |front| :: front[i] == g[i];
      FlattenLength(front);
    }
  }

  /** Every output row is one of the rows expanded from some input row. */
  lemma ProcessedRowsOrigin(frame: seq<Row>)
    ensures forall r | r in ProcessedRows(frame) :: exists i | 0 <= i < |frame| :: r in ExpandedRows(frame[i])
  {
    forall r | r in ProcessedRows(frame)
      ensures exists i | 0 <= i < |frame| :: r in ExpandedRows(frame[i])
    {
      FlattenOrigin(Expansions(frame), r);
    }
  }

  /** Rows disappear only through reversed ranges: without one there are at least as many rows out as in. */
  lemma ProcessedRowsKeepCount(frame: seq<Row>)
    requires forall i | 0 <= i < |frame| :: !DropsRow(CleanAddress(AddressText(frame[i])))
    ensures |ProcessedRows(frame)| >= |frame|
  {
    forall i | 0 <= i < |frame|
      ensures Expansions(frame)[i] != []
    {
      AddressesEmpty(CleanAddress(AddressText(frame[i])));
    }
    FlattenLength(Expansions(frame));
  }
}
