# Company address preprocessing and cluster assignment, modelled in Dafny

This project models the two data-processing steps of the Adlershof company data pipeline.

**Address preprocessing.** `clean_and_expand_adresse` in preprocess_companies.py takes one company row. It cleans the raw `Adresse` text in these steps:
- strip surrounding whitespace;
- fix the "Chausee" typo;
- put the default locality "12489 Berlin" in front when the text does not start with a five-digit postal code and a whitespace;
- drop a company name between "Berlin" and a comma;
- cut at the first comma and at the first parenthesis;
- remove "/ Ecke ..." corner clauses;
- add the default locality again when the postal code was lost.

The cleaned address is then fanned out into one row per address. The cases are tried in this order:
1. a `;`-separated list;
2. a house-number range `2 - 4`;
3. a pair `16 und 18`;
4. a pair `14/16`;
5. a letter range `73 A-E`.

When none of them applies, the row is kept with the cleaned address. The driver loop concatenates the expanded rows of every input row.

**Cluster assignment.** assign_company_to_cluster.py works in five steps:
1. It reads the companies from a CSV file.
2. It lower-cases the `Branchenzweig` (sector) column into a helper column.
3. It gives every company the first cluster, in table order, one of whose keywords occurs in that text, or "Sonstiges".
4. It overrides the cluster of two named companies by hand.
5. It drops the helper column.

Modules:
- `Wrappers`: the `Option` type.
- `Frames`: a row as a map from column name to cell text. A pandas NaN cell is a missing key.
- `Text`: the string primitives the scripts use, in Python's semantics: `str.strip` with Python's whitespace set, `in`, `split`/`join`, `replace`, `int(...)` of a digit run, and `str(n)`.
- `Patterns`: the regular expressions of the cleaning and fan-out steps, written as scanners. For each scanner, a predicate spells out the layout its regular expression accepts, as character positions. A Sound lemma shows that every match the scanner returns has that layout. A Complete lemma shows that every such layout is matched, and that the search finds the leftmost match.
- `Preprocess`: the cleaning steps, the fan-out, `create_row` and the driver loop. The loops are methods proved against the functions that specify them.
- `PreprocessProperties`: lemmas about the cleaned addresses, the order in which the cases are tried, each case's rows, and the row count.
- `ClusterAssignment`: `assign_cluster` over any ordered keyword table. There is a loop method and a specifying function, and lemmas on the first-match rule.
- `ClusterTable`: the script's 22-entry keyword table and the facts that follow from its order.
- `CompanyClusters`: the data-frame steps as a `CompanyFrame` class whose `rows` field each step updates, together with the functions that specify those updates.
- `ClusterScript`: the whole script on the concrete table.

## Model

| member | source | states |
|---|---|---|
| Text.StripIsTrimmedSlice | preprocess_companies.py:35 | `strip()` returns a contiguous slice of its input that neither begins nor ends with whitespace |
| Text.StripIdempotent | preprocess_companies.py:35 | stripping twice is the same as stripping once |
| Text.SplitJoin | preprocess_companies.py:93 | joining the pieces of `split(sep)` with `sep` gives back the original string |
| Text.SplitCount | preprocess_companies.py:93 | `split(sep)` yields one piece more than there are separators |
| Text.ReplaceAllAbsent | preprocess_companies.py:40 | `replace` leaves a text that does not contain the pattern unchanged |
| Text.ReplaceAllKeepsPrefix | preprocess_companies.py:40 | when the replacement starts with a character not in a word, the word starts the replaced text only if it starts the original |
| Text.ReplaceAllKeepsCharacters | preprocess_companies.py:40 | `replace` introduces no character that is in neither the text nor the replacement |
| Text.ParseNatToString | preprocess_companies.py:111-117 | `int(str(n)) == n`, so the house numbers written into a range survive a round trip |
| Text.NatToString | preprocess_companies.py:117 | `str(n)` is a non-empty digit string without a leading zero |
| Text.IndexOf | preprocess_companies.py:67 | the index found is that of the first occurrence of the character, or the length when it is absent |
| Text.Before | preprocess_companies.py:67 | `split(sep)[0]` is the longest prefix without `sep`, and it is followed by `sep` when `sep` occurs |
| Patterns.LineEnd | preprocess_companies.py:55 | a regex `.*`/`.+` ends at the first line break or at the end of the text |
| Patterns.MatchCompanyPrefixSound | preprocess_companies.py:55 | every match of `^(\d{5}\sBerlin)\s([^,]+),\s(.+)` decomposes the text into groups 1-3 around the whitespaces and the comma |
| Patterns.MatchCompanyPrefixComplete | preprocess_companies.py:55 | every such decomposition is found, with exactly those groups |
| Patterns.CornerMatchAt | preprocess_companies.py:77 | a corner-clause match ends after its start, at a line break or at the end of the text |
| Patterns.LineEndAt | preprocess_companies.py:77 | a run without line breaks reaches no further than `.*`, and `.*` ends exactly where that run meets a line break or the end of the text |
| Patterns.CornerMatchAtSound | preprocess_companies.py:77 | every corner-clause match has the layout of `\s*/\s*Ecke.*`: whitespace, a slash, whitespace, "Ecke", then the rest of the line |
| Patterns.CornerMatchAtComplete | preprocess_companies.py:77 | every such layout is matched, the greedy `.*` reaches at least as far, and the match ends exactly where the layout ends at a line break |
| Patterns.FindCorner | preprocess_companies.py:77 | the search for `\s*/\s*Ecke.*` returns the leftmost match and its end; when it returns nothing, no position matches |
| Patterns.FindCornerFindsLayout | preprocess_companies.py:77 | wherever a corner clause is laid out, the search finds a match there or further left |
| Patterns.RemoveCornerClausesOneLine | preprocess_companies.py:77 | on one line, `re.sub` of the corner clause keeps exactly the text before the leftmost match |
| Patterns.RemoveCornerClausesKeepsCharacters | preprocess_companies.py:77 | removing corner clauses introduces no character |
| Patterns.MatchPairAt | preprocess_companies.py:109-144 | a match of `(\d+)\s*SEP\s*(\d+)` at a position has two non-empty digit groups, and the first starts there |
| Patterns.PairSeparators | preprocess_companies.py:109-144 | the separators "-", "und" and "/" each start with a character that is neither a digit nor whitespace |
| Patterns.MatchPairAtSound | preprocess_companies.py:109-144 | every number-pair match has the layout digits, whitespace, the separator, whitespace, digits; both digit groups are maximal, and they are the match's groups |
| Patterns.MatchPairAtComplete | preprocess_companies.py:109-144 | every such layout is matched: group 1 is the layout's first number, and the greedy group 2 extends the layout's second number, equal to it when that number is maximal |
| Patterns.PairScanStops | preprocess_companies.py:109-144 | on such a layout, each greedy `\d+` and `\s*` of the pattern stops exactly at the layout's boundaries |
| Patterns.SearchPair | preprocess_companies.py:109-144 | `re.search` for a number pair returns the leftmost match; when it returns nothing, no position matches |
| Patterns.SearchPairFindsLayout | preprocess_companies.py:109-144 | wherever a number pair is laid out, the search finds a match there or further left |
| Patterns.SearchPairStartsRun | preprocess_companies.py:109 | a number-pair match starts at the beginning of a run of digits |
| Patterns.MatchLettersAt | preprocess_companies.py:149 | a match of `(\d+)\s*([A-Z])\s*-\s*([A-Z])` has a non-empty digit group and two capital letters |
| Patterns.MatchLettersAtSound | preprocess_companies.py:149 | every letter-range match has the layout digits, whitespace, a capital, whitespace, a dash, whitespace, a capital, and carries exactly those groups |
| Patterns.MatchLettersAtComplete | preprocess_companies.py:149 | every such layout is matched, with the layout's number and letters as the groups |
| Patterns.LetterScanStops | preprocess_companies.py:149 | on such a layout, each greedy `\d+` and `\s*` of the pattern stops exactly at the layout's boundaries |
| Patterns.SearchLetters | preprocess_companies.py:149 | `re.search` for a letter range returns the leftmost match; when it returns nothing, no position matches |
| Patterns.SearchLettersFindsLayout | preprocess_companies.py:149 | wherever a letter range is laid out, the search finds a match there or further left |
| Patterns.SearchLettersStartsRun | preprocess_companies.py:149 | a letter-range match starts at the beginning of a run of digits |
| Preprocess.AddLocality | preprocess_companies.py:46-47 | the result starts with a postal code; a text that already starts with one is kept; otherwise "12489 Berlin " is put in front |
| Preprocess.ChooseFanOut | preprocess_companies.py:92-167 | the match a range, pair or letter case carries lies within the address, with digit groups and, for letters, two capitals |
| Preprocess.CreateRowChangesOnlyAddress | preprocess_companies.py:170-173 | `create_row` sets `Adresse` to the new address and leaves every other column as it was |
| Preprocess.SemicolonRows | preprocess_companies.py:92-104 | the loop over the `;` parts yields one row per stripped part, with the default locality put in front where the part lacks a postal code |
| Preprocess.CleanAndExpandAddress | preprocess_companies.py:34-167 | the rows returned for one input row are the expansion of its cleaned address |
| Preprocess.ExpandCleaned | preprocess_companies.py:92-167 | the fan-out of a cleaned address yields the rows of the address list its case defines |
| Preprocess.ProcessFrame | preprocess_companies.py:180-186 | the driver loop yields the concatenation, in input order, of every row's expansion |
| Preprocess.ProcessedRowsStep | preprocess_companies.py:182-184 | handling one more input row appends exactly that row's expansion |
| PreprocessProperties.CorrectionThenClean | preprocess_companies.py:40 | "Chaussee" put in front of a text without "Chausee" forms no "Chausee" |
| PreprocessProperties.CharThenClean | preprocess_companies.py:40 | one character put in front of a text without "Chausee" forms one only as the 'C' before "hausee" |
| PreprocessProperties.FixTypoLeavesNoMisspelling | preprocess_companies.py:40 | no "Chausee" is left after the typo fix |
| PreprocessProperties.FixTypoIdempotent | preprocess_companies.py:40 | fixing the typo a second time changes nothing |
| PreprocessProperties.AddLocalityIdempotent | preprocess_companies.py:82-83 | the second locality injection changes nothing on text the first one produced |
| PreprocessProperties.StripCompanyPrefixOnShape | preprocess_companies.py:55-61 | on a prefix match, the company name is dropped exactly when "Haus" and "OG" are absent and group 3 has a digit; otherwise the text is kept |
| PreprocessProperties.StripCompanyPrefixFires | preprocess_companies.py:55-61 | the company prefix step changes the text if and only if the text has the pattern's shape and "Haus", "OG" are absent and group 3 has a digit |
| PreprocessProperties.CutAtCharacters | preprocess_companies.py:67-72 | after cutting at a separator, the separator is gone and no character is introduced |
| PreprocessProperties.TruncateShape | preprocess_companies.py:67-83 | after the cuts and the second injection, the address starts with a postal code and contains no comma and no parenthesis |
| PreprocessProperties.CleanAddressShape | preprocess_companies.py:35-83 | every cleaned address starts with a postal code and contains no comma and no parenthesis |
| PreprocessProperties.AddressesAvoid | preprocess_companies.py:92-167 | the fan-out introduces no character that is not in the address, in the default locality, a space, a digit or a capital letter |
| PreprocessProperties.EmittedAddressesClean | preprocess_companies.py:35-167 | no emitted address contains a comma or a parenthesis |
| PreprocessProperties.FanOutPriority | preprocess_companies.py:92-167 | each case applies if and only if its pattern matches and every earlier case's pattern does not |
| PreprocessProperties.SemicolonCase | preprocess_companies.py:92-104 | with a `;` there is one address per part, each the stripped part with the default locality added when it lacks a postal code |
| PreprocessProperties.RangeAddressesNumbers | preprocess_companies.py:115-118 | a range yields `end - start + 1` addresses, numbered `start`, `start + 1`, … after the prefix, and none when `end < start` |
| PreprocessProperties.RangeCase | preprocess_companies.py:109-118 | the range case applies only without a `;`; it emits one address per number from the first matched number to the second, the k-th being the text before the match, a space and the first number plus k, which reads back as that number; none when the range is reversed |
| PreprocessProperties.PairCase | preprocess_companies.py:123-144 | the `und` and `/` cases emit exactly two addresses, prefix plus the first number and prefix plus the second, and apply only when no earlier case does |
| PreprocessProperties.LetterCase | preprocess_companies.py:149-161 | a letter range yields one address per letter from the first to the last, in alphabet order, and none when the letters are reversed |
| PreprocessProperties.DefaultCase | preprocess_companies.py:166-167 | when no case applies, the row comes back once with the cleaned address |
| PreprocessProperties.AddressesPostalCode | preprocess_companies.py:109-161 | every emitted address keeps the postal code exactly when the fan-out match does not start at the beginning of the address |
| PreprocessProperties.AddressesEmpty | preprocess_companies.py:109-161 | a row is dropped if and only if its address holds a reversed range or reversed letters as the first applicable case |
| PreprocessProperties.ExpandedRowsColumns | preprocess_companies.py:170-173 | every expanded row is the input row with only `Adresse` changed, to the matching emitted address |
| PreprocessProperties.ProcessedRowsOrigin | preprocess_companies.py:180-186 | every output row comes from the expansion of some input row |
| PreprocessProperties.ProcessedRowsKeepCount | preprocess_companies.py:180-186 | when no row is dropped, there are at least as many output rows as input rows |
| ClusterAssignment.FirstHit | assign_company_to_cluster.py:188-193 | the index found is of the first cluster one of whose keywords occurs in the text, or the table length |
| ClusterAssignment.Classify | assign_company_to_cluster.py:188-193 | the cluster assigned is a table entry's name or "Sonstiges" |
| ClusterAssignment.AssignCluster | assign_company_to_cluster.py:188-193 | the nested loop with early return computes the first-match cluster |
| ClusterAssignment.ClassifyIsFirstMatch | assign_company_to_cluster.py:188-193 | the first entry with a keyword in the text wins, whatever later entries match |
| ClusterAssignment.ClassifyFallback | assign_company_to_cluster.py:193 | "Sonstiges" is returned if and only if no keyword of any entry occurs in the text |
| ClusterAssignment.ClassifyEmpty | assign_company_to_cluster.py:188-193 | the empty text (a missing sector) matches no entry |
| ClusterTable.ClusterKeywords | assign_company_to_cluster.py:26-182 | the keyword table has one entry for each of the 22 clusters |
| ClusterTable.ClusterNameFacts | assign_company_to_cluster.py:26-182 | no entry is named "Sonstiges", and "Sporthalle" and "Einzelhandel" each name only one entry |
| ClusterTable.AssignedFallback | assign_company_to_cluster.py:188-193 | on the script's table, "Sonstiges" exactly when no keyword occurs, and always for an empty sector |
| ClusterTable.SporthalleImpliesFitness | assign_company_to_cluster.py:100-110 | every "Sporthalle" keyword contains "sport", the earlier "Fitnesscenter" keyword |
| ClusterTable.NeverSporthalle | assign_company_to_cluster.py:100-110 | keyword matching never yields "Sporthalle"; only the manual override does |
| ClusterTable.EinkaufszentrumBeforeEinzelhandel | assign_company_to_cluster.py:83-127 | a sector containing "einkaufszentrum" never gets "Einzelhandel", and gets "Einkaufszentrum" when no earlier entry matches |
| CompanyClusters.LowerIsLowerCase | assign_company_to_cluster.py:20 | lower-casing keeps the length, leaves no capital letter, keeps every other character and is idempotent |
| CompanyClusters.WithNormalizedSector | assign_company_to_cluster.py:20 | every row gets the helper column holding its lower-cased sector, "" for a missing sector, and keeps every other column |
| CompanyClusters.WithClusters | assign_company_to_cluster.py:199 | every row gets a `Cluster` cell holding the first-match cluster of its helper column, and keeps every other column |
| CompanyClusters.Overridden | assign_company_to_cluster.py:202-203 | rows with the given name get the given cluster with nothing else changed; the other rows are untouched |
| CompanyClusters.WithoutNormalizedSector | assign_company_to_cluster.py:206 | no row has the helper column afterwards, and every other column keeps its name and its value |
| CompanyClusters.CompanyFrame.constructor | assign_company_to_cluster.py:17 | the frame holds the rows it was read from |
| CompanyClusters.CompanyFrame.AddNormalizedSector | assign_company_to_cluster.py:20 | the frame's rows become the rows with the lower-cased helper column |
| CompanyClusters.CompanyFrame.AssignClusters | assign_company_to_cluster.py:199 | the loop sets every row's `Cluster` to the first-match cluster of its helper column |
| CompanyClusters.CompanyFrame.OverrideCluster | assign_company_to_cluster.py:202-203 | the frame's rows become the rows with the named company's cluster overridden |
| CompanyClusters.CompanyFrame.DropNormalizedSector | assign_company_to_cluster.py:206 | the frame's rows lose the helper column |
| CompanyClusters.ClusteredCompaniesRows | assign_company_to_cluster.py:20-206 | the script keeps the row count and every original column, adds `Cluster` and no helper column, and sets each `Cluster` to the company's cluster (overrides first, then first match) |
| ClusterScript.ClusterCompanies | assign_company_to_cluster.py:17-206 | running the five steps on a frame yields the clustered companies for the script's table |
| ClusterScript.SporthalleOnlyByHand | assign_company_to_cluster.py:199-203 | a company ends up in "Sporthalle" if and only if it is "Hochschulsport Adlershof" |

## Behaviour worth knowing

- **Missing address.** A missing address is not treated as blank. The code calls `str()` on the NaN cell, so the address is the text "nan", which becomes "12489 Berlin nan". `Preprocess.AddressText` models this.
- **Postal code.** An emitted address does not always start with a postal code and a whitespace. This fails when the range, pair or letter match starts at the very beginning of the address. One input that shows it is "12489 - 12491": the prefix is empty, so the addresses are " 12489", " 12490" and " 12491". `PreprocessProperties.AddressesPostalCode` states exactly when the postal code survives.
- **Row count.** Preprocessing can yield fewer rows than it was given. A reversed house-number range (`4 - 2`) or reversed letters (`C-A`) yields no row at all, so that input row vanishes. `PreprocessProperties.AddressesEmpty` characterises these rows, and `PreprocessProperties.ProcessedRowsKeepCount` proves the lower bound for the other rows.
- **Constants.** The default locality, the typo fix, the column names and the keyword table are hard-coded in the scripts, and the model has them as constants. The one exception is the keyword table, which `ClusterAssignment` takes as a parameter.

## Left out

- Reading and writing CSV files, the pandas data-frame machinery (index reset, dtypes) and the scripts' `print` output are not modelled. A frame is a sequence of rows, and a row maps column names to cell text.
- Cells that hold a non-string value other than NaN are not modelled. NaN is a key absent from the row.
- `\d` matches only the ASCII digits 0-9 here. Python's `\d` also matches other Unicode decimal digits.
- `str.lower` is modelled for ASCII and Latin-1 capitals only (U+00C0 to U+00DE, without U+00D7). Other Unicode case mappings, and mappings that change the length, are not.
- The default case at preprocess_companies.py:166-167 assigns into the row copy that `iterrows` hands out. The model returns that row with the cleaned address. The mutation cannot be observed outside the function.
- Idempotence of the whole cleaning pipeline is not proved. It is proved for the typo fix (`PreprocessProperties.FixTypoIdempotent`), for stripping (`Text.StripIdempotent`) and for the locality injection (`PreprocessProperties.AddLocalityIdempotent`).
- Python 3.11 and later make `int()` and `str()` raise `ValueError` on a digit string longer than 4300 characters (preprocess_companies.py:111-112 and preprocess_companies.py:116). Numbers are unbounded here, so such a range is expanded instead of failing.
- The other scripts of the repository are not part of this model: geocoding, crawling, and the area per type of use. They call web services and read other data sets.
- ClusterTable.EinkaufszentrumBeforeEinzelhandel: states "Einkaufszentrum" only for a sector in which no earlier entry's keyword occurs. A sector containing "einkaufszentrum" that also contains an earlier keyword, such as "lager" or "supermarkt", gets that earlier cluster. The unconditional claim is false for the code.
