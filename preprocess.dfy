/**
  The address clean-and-expand engine of preprocess_companies.py: `clean_and_expand_adresse`
  (the cleaning pipeline, then one fan-out decision), `create_row`, and the loop that expands
  every row of the frame.
 */
module Preprocess {
  import opened Wrappers
  import opened Text
  import opened Patterns
  import opened Frames

  const AddressColumn := "Adresse"

  /** The locality put in front of an address that has no postal code. */
  const DefaultLocality := "12489 Berlin"

  /** The one typo the pipeline corrects, and its correction. */
  const Misspelling := "Chausee"
  const Correction := "Chaussee"

  /** `str(row["Adresse"])`: a missing cell prints as `nan`. */
  function AddressText(row: Row): string {
    if AddressColumn in row then row[AddressColumn] else "nan"
  }

  // ---------------------------------------------------------------------------
  // The cleaning pipeline
  // ---------------------------------------------------------------------------

  /** `adresse.replace("Chausee", "Chaussee")`. */
  function FixTypo(s: string): string {
    ReplaceAll(s, Misspelling, Correction)
  }

  /** `if not re.match(r"^\d{5}\s", s): s = f"12489 Berlin {s}"`. */
  function AddLocality(s: string): (r: string)
    ensures HasPostalCode(r)
    ensures HasPostalCode(s) ==> r == s
    ensures !HasPostalCode(s) ==> r == DefaultLocality + " " + s
  {
    if HasPostalCode(s) then s else DefaultLocality + " " + s
  }

  /** `re.search(r"\d", s)`. */
  predicate HasDigit(s: string) {
    exists i | 0 <= i < |s| :: IsDigit(s[i])
  }

  /**
    Removes a company name between the locality and the first comma, provided the whole
    string mentions neither "Haus" nor "OG" and what follows the comma has a digit.
   */
  function StripCompanyPrefix(s: string): string {
    match MatchCompanyPrefix(s)
    case Some(m) =>
      if !Contains(s, "Haus") && !Contains(s, "OG") && HasDigit(m.afterComma)
      then m.locality + " " + m.afterComma
      else s
    case None => s
  }

  /** `s.split(sep)[0].strip()`. */
  function CutAt(s: string, sep: char): string {
    Strip(Before(s, sep))
  }

  // `re.sub(r"\s*/\s*Ecke.*", "", s).strip()`.
  function RemoveCorner(s: string): string {
    Strip(RemoveCornerClauses(s))
  }

  /** Lines 35-61: strip, correct the typo, inject the locality, remove a company prefix. */
  function Prepare(raw: string): string {
    var stripped := Strip(raw);
    var corrected := FixTypo(stripped);
    var located := AddLocality(corrected);
    StripCompanyPrefix(located)
  }

  /** Lines 67-83: cut at the first comma, then at the first parenthesis, drop corner clauses, inject again. */
  function Truncate(s: string): string {
    var beforeComma := CutAt(s, ',');
    var beforeParen := CutAt(beforeComma, '(');
    var cornerless := RemoveCorner(beforeParen);
    AddLocality(cornerless)
  }

  /** The cleaned address, before any fan-out. */
  function CleanAddress(raw: string): string {
    Truncate(Prepare(raw))
  }

  // ---------------------------------------------------------------------------
  // The fan-out decision
  // ---------------------------------------------------------------------------

  /** The rule that decides how one cleaned address becomes several, with its regex match. */
  datatype FanOut =
    | BySemicolon
    | ByRange(pair: PairMatch)
    | ByAnd(pair: PairMatch)
    | BySlash(pair: PairMatch)
    | ByLetters(letters: LetterMatch)
    | Unsplit

  /** The rules in the order the source tries them; the first that applies wins. */
  function ChooseFanOut(s: string): (f: FanOut)
    ensures (f.ByRange? || f.ByAnd? || f.BySlash?) ==>
              f.pair.start <= |s| && AllDigits(f.pair.first) && AllDigits(f.pair.second)
    ensures f.ByLetters? ==>
              f.letters.start <= |s| && AllDigits(f.letters.number)
              && IsUpper(f.letters.from) && IsUpper(f.letters.to)
  {
    if ';' in s then BySemicolon
    else
      var range := SearchPair(s, RangeSep, 0);
      if range.Some? then ByRange(range.value)
      else
        var und := SearchPair(s, AndSep, 0);
        if und.Some? then ByAnd(und.value)
        else
          var slash := SearchPair(s, SlashSep, 0);
          if slash.Some? then BySlash(slash.value)
          else
            var letters := SearchLetters(s, 0);
            if letters.Some? then ByLetters(letters.value)
            else Unsplit
  }

  /** `adresse[:match.start()].strip()`. */
  function PrefixBefore(s: string, start: nat): string
    requires start <= |s|
  {
    Strip(s[..start])
  }

  /** `[part.strip() for part in s.split(";")]`. */
  function SemicolonParts(s: string): seq<string> {
    var pieces := Split(s, ';');
    seq(|pieces|, k requires 0 <= k < |pieces| => Strip(pieces[k]))
  }

  /** Case 1: every `;`-separated piece, stripped, with the locality added where missing. */
  function SemicolonAddresses(s: string): seq<string> {
    var parts := SemicolonParts(s);
    seq(|parts|, k requires 0 <= k < |parts| => AddLocality(parts[k]))
  }

  /** Case 2: `[f"{prefix} {n}" for n in range(start, end + 1)]`. */
  function RangeAddresses(prefix: string, start: nat, end: nat): seq<string> {
    var n := if start <= end then end - start + 1 else 0;
    seq(n, k requires 0 <= k < n => prefix + " " + NatToString(start + k))
  }

  /** Cases 3 and 4: `[f"{prefix} {num1}", f"{prefix} {num2}"]`. */
  function PairAddresses(prefix: string, m: PairMatch): seq<string> {
    [prefix + " " + m.first, prefix + " " + m.second]
  }

  /** The `k`-th capital letter after `from`. */
  function LetterAfter(from: char, k: nat): char
    requires IsUpper(from) && from as int + k <= 'Z' as int
  {
    (from as int + k) as char
  }

  /** Case 5: `[f"{prefix} {number} {letter}" for letter in letters[start_index:end_index + 1]]`. */
  function LetterAddresses(prefix: string, m: LetterMatch): seq<string>
    requires IsUpper(m.from) && IsUpper(m.to)
  {
    var n := if m.from <= m.to then m.to as int - m.from as int + 1 else 0;
    seq(n, k requires 0 <= k < n => prefix + " " + m.number + " " + [LetterAfter(m.from, k)])
  }

  /** The addresses the chosen rule emits for the cleaned address `s`. */
  function Addresses(s: string): seq<string> {
    match ChooseFanOut(s)
    case BySemicolon => SemicolonAddresses(s)
    case ByRange(m) =>
      RangeAddresses(PrefixBefore(s, m.start), ParseNat(m.first), ParseNat(m.second))
    case ByAnd(m) => PairAddresses(PrefixBefore(s, m.start), m)
    case BySlash(m) => PairAddresses(PrefixBefore(s, m.start), m)
    case ByLetters(m) => LetterAddresses(PrefixBefore(s, m.start), m)
    case Unsplit => [s]
  }

  // ---------------------------------------------------------------------------
  // Rows
  // ---------------------------------------------------------------------------

  /** `create_row`: a copy of the row whose address is replaced. */
  function CreateRow(row: Row, address: string): Row {
    row[AddressColumn := address]
  }

  /** The copy has the original's columns (plus the address) and differs from it only in the address. */
  lemma CreateRowChangesOnlyAddress(row: Row, address: string)
    ensures CreateRow(row, address).Keys == row.Keys + {AddressColumn}
    ensures CreateRow(row, address)[AddressColumn] == address
    ensures forall col | col in row && col != AddressColumn :: CreateRow(row, address)[col] == row[col]
  {
  }

  /** `[create_row(row, a) for a in addresses]`. */
  function RowsFor(row: Row, addresses: seq<string>): seq<Row> {
    seq(|addresses|, k requires 0 <= k < |addresses| => CreateRow(row, addresses[k]))
  }

  /** The rows `clean_and_expand_adresse(row)` returns. */
  function ExpandedRows(row: Row): seq<Row> {
    RowsFor(row, Addresses(CleanAddress(AddressText(row))))
  }

  /** The groups of rows, one after the other: what a sequence of `list.extend` calls collects. */
  function Flatten(groups: seq<seq<Row>>): seq<Row> {
    if groups == [] then [] else Flatten(groups[..|groups| - 1]) + groups[|groups| - 1]
  }

  /** The expansion of every row of the frame, in frame order. */
  function Expansions(frame: seq<Row>): seq<seq<Row>> {
    seq(|frame|, i requires 0 <= i < |frame| => ExpandedRows(frame[i]))
  }

  /** The rows the driver loop collects in `processed_rows`. */
  function ProcessedRows(frame: seq<Row>): seq<Row> {
    Flatten(Expansions(frame))
  }

  lemma ProcessedRowsStep(frame: seq<Row>, i: nat)
    requires i < |frame|
    ensures ProcessedRows(frame[..i + 1]) == ProcessedRows(frame[..i]) + ExpandedRows(frame[i])
  {
    var groups := Expansions(frame[..i + 1]);
    assert groups[..i] == Expansions(frame[..i]);
  }

  lemma RowsForSnoc(row: Row, addresses: seq<string>, a: string)
    ensures RowsFor(row, addresses + [a]) == RowsFor(row, addresses) + [CreateRow(row, a)]
  {
  }

  /** Case 1 of `clean_and_expand_adresse`: the loop over the `;`-separated pieces. */
  method SemicolonRows(row: Row, adresse: string) returns (newRows: seq<Row>)
    ensures newRows == RowsFor(row, SemicolonAddresses(adresse))
  {
    var parts := SemicolonParts(adresse);
    ghost var expected := SemicolonAddresses(adresse);
    newRows := [];
    var i := 0;
    while i < |parts|
      invariant 0 <= i <= |parts| == |expected|
      invariant newRows == RowsFor(row, expected[..i])
    {
      var part := parts[i];
      if !HasPostalCode(part) {
        part := DefaultLocality + " " + part;
      }
      var newRow := row[AddressColumn := part];
      SemicolonAddressAt(adresse, i);
      RowsForPrefix(row, expected, i);
      newRows := newRows + [newRow];
      i := i + 1;
    }
    assert expected[..i] == expected;
  }

  /** Address `k` of case 1 is piece `k` with the locality added where missing. */
  lemma SemicolonAddressAt(s: string, k: nat)
    requires k < |SemicolonParts(s)|
    ensures |SemicolonAddresses(s)| == |SemicolonParts(s)|
    ensures SemicolonAddresses(s)[k] == AddLocality(SemicolonParts(s)[k])
  {
  }

  /** One more address, one more row. */
  lemma RowsForPrefix(row: Row, addresses: seq<string>, i: nat)
    requires i < |addresses|
    ensures RowsFor(row, addresses[..i + 1]) == RowsFor(row, addresses[..i]) + [CreateRow(row, addresses[i])]
  {
    assert addresses[..i + 1] == addresses[..i] + [addresses[i]];
    RowsForSnoc(row, addresses[..i], addresses[i]);
  }

  /** `clean_and_expand_adresse(row)`. */
  method CleanAndExpandAddress(row: Row) returns (rows: seq<Row>)
    ensures rows == ExpandedRows(row)
  {
    var adresse := CleanAddress(AddressText(row));
    rows := ExpandCleaned(row, adresse);
  }

  /** The splitting cases of `clean_and_expand_adresse`, on the cleaned address. */
  method ExpandCleaned(row: Row, adresse: string) returns (rows: seq<Row>)
    ensures rows == RowsFor(row, Addresses(adresse))
  {
    if ';' in adresse {
      rows := SemicolonRows(row, adresse);
      return;
    }
    var rangeMatch := SearchPair(adresse, RangeSep, 0);
    if rangeMatch.Some? {
      var start := ParseNat(rangeMatch.value.first);
      var end := ParseNat(rangeMatch.value.second);
      var prefix := PrefixBefore(adresse, rangeMatch.value.start);
      rows := RowsFor(row, RangeAddresses(prefix, start, end));
      assert ChooseFanOut(adresse) == ByRange(rangeMatch.value);
      return;
    }
    var undMatch := SearchPair(adresse, AndSep, 0);
    if undMatch.Some? {
      var prefix := PrefixBefore(adresse, undMatch.value.start);
      rows := RowsFor(row, [prefix + " " + undMatch.value.first, prefix + " " + undMatch.value.second]);
      assert ChooseFanOut(adresse) == ByAnd(undMatch.value);
      return;
    }
    var slashMatch := SearchPair(adresse, SlashSep, 0);
    if slashMatch.Some? {
      var prefix := PrefixBefore(adresse, slashMatch.value.start);
      rows := RowsFor(row, [prefix + " " + slashMatch.value.first, prefix + " " + slashMatch.value.second]);
      assert ChooseFanOut(adresse) == BySlash(slashMatch.value);
      return;
    }
    var letterMatch := SearchLetters(adresse, 0);
    if letterMatch.Some? {
      var prefix := PrefixBefore(adresse, letterMatch.value.start);
      rows := RowsFor(row, LetterAddresses(prefix, letterMatch.value));
      assert ChooseFanOut(adresse) == ByLetters(letterMatch.value);
      return;
    }
    rows := [row[AddressColumn := adresse]];
    assert ChooseFanOut(adresse) == Unsplit;
    assert rows == RowsFor(row, [adresse]);
  }

  /** The driver: `processed_rows.extend(clean_and_expand_adresse(row))` for every row, in order. */
  method ProcessFrame(frame: seq<Row>) returns (processed: seq<Row>)
    ensures processed == ProcessedRows(frame)
  {
    processed := [];
    var i := 0;
    while i < |frame|
      invariant 0 <= i <= |frame|
      invariant processed == ProcessedRows(frame[..i])
    {
      var expanded := CleanAndExpandAddress(frame[i]);
      ProcessedRowsStep(frame, i);
      processed := processed + expanded;
      i := i + 1;
    }
    assert frame[..|frame|] == frame;
  }
}
