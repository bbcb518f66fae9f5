# City search box: a verified model

This project models the city lookup behind the "Type to locate" box of a Qt map
viewer (class `CitySearchWidget`, files `citysearch.h` and `citysearch.cpp`).
It covers four parts of that class:

- Loading the city table from a CSV file. After the header line, each line is trimmed. A blank line is skipped. Otherwise the line is split into fields by a character loop that a double quote toggles. A record is kept when it has at least four fields, a non-empty name, and a latitude and longitude that convert. Every kept record is appended to `cities` and stored in `cityMap` under its search string "name, country". The search strings also go to the completer in record order.
- `findCity`, applied to the trimmed text:
  - an exact key of `cityMap` returns its record;
  - otherwise, the first key in `QMap` order that equals the text ignoring case;
  - otherwise, the first record whose name equals the text ignoring case;
  - otherwise, an empty `CityData`.
- The decision `onSearchActivated` takes. Blank text does nothing. Otherwise the box either emits `citySelected` with the city `findCity` returns, or marks itself red when that city has no name. `onLocateClicked` calls `onSearchActivated` and is covered by the same member.
- `getCityCount`, and the search string of a record.

Modules:

- `QtText` (`qttext.dfy`) models the `QString` operations the code relies on:
  - `trimmed`, with the full `QChar::isSpace` set;
  - `remove(QChar)`;
  - case-insensitive equality;
  - the key order of `QMap<QString, T>`.
- `QtArg` (`qtarg.dfy`) models `QString::arg(const QString &)`: the escapes `%n` and `%Ln` with the lowest number are replaced.
- `CityRecord` (`cityrecord.dfy`) models the `CityData` record and its search string: both as the code writes it and as intended.
- `CsvLine` (`csvline.dfy`) models the field splitter:
  - the loop itself is the method `SplitFields`;
  - it is proved equal to the function `SplitLine`;
  - `SplitLine` is built on `Scan`, the loop's state after each character.
- `CitySearch` (`citysearch.dfy`) models the parsing of one line (`ParseLine`), the records of a file (`Records`) and the key index (`KeyIndex`). It also holds the class `CitySearchWidget`. That class keeps `cities`, `cityMap` and the completer's string list as fields, and maintains the invariant `Valid()`:
  - `cityMap` is the records stored one after another under their search strings;
  - the completer list is their search strings;
  - every loaded city has a name.

The file is given to `LoadCitiesFromCsv` as its lines, or `None` when it cannot be opened. `QString::toDouble` is given as a parameter `toDouble: string -> Option<real>`, where `None` means the conversion failed. Every property holds for every such parser.

## Model

| member | source | states |
|---|---|---|
| QtText.Trim | citysearch.cpp:130 | the trimmed line starts and ends with a character that is not whitespace, and holds only characters of the original |
| QtText.TrimCut | citysearch.cpp:130 | trimming cuts a run of whitespace from each end of the string and keeps the middle untouched |
| QtText.TrimmedFixed | citysearch.cpp:155-156 | trimming a string that is already trimmed changes nothing, so re-trimming the split fields is a no-op |
| QtText.TrimIdempotent | citysearch.cpp:189 | trimming twice equals trimming once, so findCity re-trimming the text that onSearchActivated trimmed changes nothing |
| QtText.RemoveChar | citysearch.cpp:155-156 | the result of remove('"') holds no double quote and is no longer than its input; with RemoveCharOne and RemoveCharAppend, every other character is kept in order |
| QtText.RemoveCharOne | citysearch.cpp:155-156 | removing c from a single character deletes it when it is c and keeps it otherwise |
| QtText.RemoveCharAppend | citysearch.cpp:155-156 | removal works piecewise: removing c from a + b is removing it from a, then from b, so every character other than c stays, in order |
| QtText.RemoveAbsent | citysearch.cpp:155-156 | removing a character that does not occur returns the string unchanged |
| QtText.KeyLessTotal | citysearch.h:55 | any two distinct map keys are ordered one way or the other |
| QtText.KeyLessTransitive | citysearch.h:55 | the map's key order is transitive |
| QtText.KeyLessAsymmetric | citysearch.h:55 | no two keys each come before the other |
| QtArg.Arg | citysearch.h:22 | a string with no '%' holds no escape and comes back unchanged; what the replacement of the lowest-numbered escape gives for the search-string template is stated by ArgPair and ArgPairEscapedName |
| QtArg.ArgPair | citysearch.h:21-23 | substituting a name with no '%' and then a country into "%1, %2" gives name + ", " + country |
| QtArg.ArgPairEscapedName | citysearch.h:21-23 | for a name p + "%1" with no '%' in p, the two substitutions give p + country + ", %2" |
| CityRecord.ArgSearchString | citysearch.h:21-23 | getSearchString as written equals the intended "name, country" whenever the name holds no '%' |
| CityRecord.EscapeInNameMisplacesCountry | citysearch.h:21-23 | for every name p + "%1" with no '%' in p, and every country, getSearchString as written gives p + country + ", %2", which differs from "name, country" |
| CityRecord.CityData.SearchString | citysearch.h:21-23 | the intended getSearchString: the name, the separator ", " and the country, so its length is theirs plus two; it is the key of every loader and lookup contract |
| CityRecord.SearchStringParts | citysearch.h:21-23 | the search string is the name, then ", ", then the country, and its length is the sum of theirs plus two |
| CityRecord.FirstCommaAfterName | citysearch.h:21-23 | for a comma-free name, the first comma of the search string is the one right after the name |
| CityRecord.KeyDeterminesNameAndCountry | citysearch.cpp:164-165 | two records with comma-free names share a search string only if they have the same name and the same country |
| CsvLine.ScanParity | citysearch.cpp:137-143 | the inQuotes flag is on exactly when an odd number of double quotes has been read |
| CsvLine.ScanCount | citysearch.cpp:144-146 | one field is finished for each comma outside quotes |
| CsvLine.ScanQuoteFree | citysearch.cpp:142-149 | neither a finished field nor the field being built ever holds a double quote |
| CsvLine.ScanJoin | citysearch.cpp:140-151 | joining the untrimmed fields with commas gives back the line without its quote characters, so the loop drops nothing else |
| CsvLine.RawFields | citysearch.cpp:136-151 | the untrimmed fields number one more than the commas outside quotes, hold no quote, and join back to the quote-free line |
| CsvLine.SplitLine | citysearch.cpp:136-151 | the split gives one field more than the commas outside quotes, and every field is trimmed and free of quotes |
| CsvLine.SplitFields | citysearch.cpp:136-151 | the character loop computes exactly SplitLine of the line: the field count and the trimmed, quote-free fields |
| CitySearch.ParseFields | citysearch.cpp:153-162 | an accepted record has a non-empty name, and its name and country are trimmed |
| CitySearch.ParseLine | citysearch.cpp:130-162 | a line yields a record only with a non-empty name |
| CitySearch.LineAccepted | citysearch.cpp:130-162 | a line is accepted iff, after trimming, it has at least three commas outside quotes, a non-empty first field, and third and fourth fields that convert; the record is made of the first four split fields, and later fields are ignored |
| CitySearch.CollectAppend | citysearch.cpp:129-175 | the records kept from two stretches of lines are those of the first followed by those of the second |
| CitySearch.RecordsStep | citysearch.cpp:129-169 | reading one more line appends exactly the record that line describes, or nothing |
| CitySearch.RecordsAppend | citysearch.cpp:129-175 | the records of a file are those of its first part followed by those of the rest |
| CitySearch.BlankLineIgnored | citysearch.cpp:130-133 | a line that is blank once trimmed adds nothing wherever it stands |
| CitySearch.HeaderIgnored | citysearch.cpp:120-124 | the first line never contributes a record, whatever it holds |
| CitySearch.RecordsFromLines | citysearch.cpp:153-168 | a record is loaded exactly when some accepted line after the header describes it: every loaded record comes from a line, and every accepted line's record is loaded |
| CitySearch.RecordsNamed | citysearch.cpp:162 | every loaded record has a non-empty name |
| CitySearch.KeyIndexKeys | citysearch.cpp:163-165 | a string is a key of cityMap exactly when some loaded record has it as search string |
| CitySearch.KeyIndexLast | citysearch.cpp:165 | each key maps to the last loaded record with that search string, since later records overwrite earlier ones |
| CitySearch.KeyIndexSound | citysearch.cpp:163-165 | every key maps to a loaded record whose search string is that key |
| CitySearch.KeyIndexSize | citysearch.cpp:163-165 | cityMap never holds more entries than there are loaded records |
| CitySearch.LeastFoldedKey | citysearch.cpp:196-201 | the position found holds a search string equal to the text ignoring case, and that string is least in key order among all such; none is found exactly when no record matches |
| CitySearch.FoldedKeyInIndex | citysearch.cpp:196-201 | the least matching search string is the least key of cityMap that equals the text ignoring case; none is found exactly when cityMap has no such key |
| CitySearch.FirstNameMatch | citysearch.cpp:203-208 | the position found is the first record whose name equals the text ignoring case; none is found exactly when no name matches |
| CitySearch.LookupFolded | citysearch.cpp:196-201 | with no exact key, a key equal to the text ignoring case gives the record under the least such key |
| CitySearch.LookupName | citysearch.cpp:203-208 | with no key equal to the text ignoring case, a matching name gives the first record with that name |
| CitySearch.LookupNone | citysearch.cpp:210-211 | with neither a matching key nor a matching name, the result is the empty city |
| CitySearch.Lookup | citysearch.cpp:187-212 | the lookup returns a loaded record or the empty city; LookupFolded, LookupName and LookupNone state what each later stage returns, and FindCity states all four |
| CitySearch.CitySearchWidget.CityCount | citysearch.h:36 | the city count equals the length of the completer list and bounds the number of entries of cityMap |
| CitySearch.CitySearchWidget.ReadRecord | citysearch.cpp:130-169 | one pass of the line loop produces exactly ParseLine of the line, whose name is never empty |
| CitySearch.CitySearchWidget.AddCity | citysearch.cpp:163-165 | an accepted record is appended to cities and stored under its search string, and cityMap stays the index of cities |
| CitySearch.CitySearchWidget.ReadLines | citysearch.cpp:114-182 | after the line loop, cities is Records of the data lines, the invariant holds, and the success count is the number of records |
| CitySearch.CitySearchWidget.LoadCitiesFromCsv | citysearch.cpp:104-185 | a file that cannot be opened returns false and changes nothing; otherwise the table is exactly the records of the lines after the header, cityMap and the completer list are rebuilt from them, and the result is true iff some record was loaded |
| CitySearch.CitySearchWidget.FindCity | citysearch.cpp:187-212 | an exact key returns its record; otherwise the record under the least key equal to the text ignoring case; otherwise the first record whose name matches; otherwise the empty city; the result is always a loaded record or the empty city |
| CitySearch.CitySearchWidget.OnSearchActivated | citysearch.cpp:214-234 | blank text does nothing; otherwise a city is selected iff some key or some name equals the trimmed text ignoring case, the city selected is the loaded one findCity returns, and the box is marked otherwise |

## Left out

- File access is replaced by a parameter. QFile/QTextStream reading, with its line splitting and the handling of line ends, becomes the file given as its lines, with `None` for a file that fails to open. `file.close()` has no counterpart.
- All qDebug output is left out, including the progress message every 10000 lines (`lineNumber`). None of it affects the result.
- `QString::toDouble` is a parameter. Its number syntax and locale rules are not modelled, so the properties hold for every parser.
- Latitude and longitude are `real`: IEEE double rounding is not modelled.
- `QtText.FoldEq` folds only ASCII letters. `QString::compare` with `Qt::CaseInsensitive` folds all of Unicode.
- `QtText.KeyLess` orders strings by code point. `QString::operator<` compares UTF-16 code units, which differs for strings that mix characters above U+FFFF with characters in U+E000..U+FFFF.
- `QtArg.EscapeAt` accepts ASCII digits only. Some Qt versions also accept other Unicode decimal digits in an escape. `QString::arg`'s field width and fill character are not used by the code and are not modelled. Neither is the warning it prints when no escape is left.
- The rest of the model uses the intended `CityRecord.CityData.SearchString`, "name, country". The written `%1, %2` substitution is modelled separately; see Findings.
- `CitySearch.CitySearchWidget.FindCity` does not walk `cityMap` in key order. It scans `cities` for the least matching search string. Under `Valid()` this gives the same record, and the contract is stated on the keys of `cityMap`.
- `CitySearch.CitySearchWidget.OnSearchActivated` returns which of the three outcomes happens. Other effects are left out: emitting the signal, the red style sheet, and the one-second QTimer that restores the style. The text of the search box is a parameter.
- Other parts of the code are left out as presentation or Qt plumbing: `setupUI` with its widgets, layout, style sheets, completer configuration and signal connections, and the metatype registration.

## Findings

| source | as written | input that shows it | evidently intended | confidence | as-written member | corrected member |
|---|---|---|---|---|---|---|
| citysearch.h:21-23 | `getSearchString` substitutes the name into "%1, %2", then substitutes the country into that result. So an escape such as `%1` inside the name is replaced by the country, and the template's `%2` stays in the key. | name "a%1", country "X": the key is "aX, %2" | "a%1, X": the name, ", ", the country | not executed; medium (a name holding `%` followed by a digit is rare in city tables) | CityRecord.EscapeInNameMisplacesCountry | CityRecord.SearchStringParts |

The corrected definition is `CityRecord.CityData.SearchString`. `CityRecord.SearchStringParts` and `CityRecord.KeyDeterminesNameAndCountry` prove it splits back into the name and the country. `CityRecord.ArgSearchString` proves the written code agrees with it whenever the name holds no `%`.
