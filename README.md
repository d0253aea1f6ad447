# Stays listing browser: CSV codec and record store in Dafny

This project models the logic inside the browser script of the stays listing
page (`script.js`). The page reads property listings from CSV text, keeps
them in two global arrays, filters them, adds new ones from a form and
exports them back to CSV. The model covers:

- **The CSV decoder.** `parseCSV` keeps the non-blank lines. It trims and
  lower-cases the header names and demands `name`, `url` and `type`. Then
  one record is built per data row of the right width whose trimmed name and
  url are non-empty. `parseCSVLine` is the quote-flag tokenizer: every `"`
  flips the flag, and only commas read with the flag off split fields. The
  tokenizer never turns a doubled quote back into one quote, so it departs
  from section 2, rule 7 of RFC 4180. The model keeps that departure.
- **The CSV encoder.** This is the text built by `downloadCSV`: a fixed
  nine-name header, then one line per record. A cell is wrapped in quotes,
  with inner quotes doubled, exactly when it holds a comma or a quote. A
  missing field becomes an empty cell. With no records nothing is exported.
- **The round trip.** Decoding an export gives back every record trimmed
  and stripped of its quote characters, in order. Records whose name or url
  becomes empty that way are dropped. Records that are already clean come
  back unchanged.
- **The record store.** `properties` and `filteredProperties` are the
  fields of the class `Store.Store`. Its methods are:
  - the filter (`applyFilters`);
  - adding a listing (`handleAddProperty`);
  - the three load paths, which replace the whole set;
  - the export.

  Every method keeps the invariant that every stored listing has a name and
  a url, and that the view is the full list filtered by some criteria. After
  `applyFilters` those are the criteria it read. After a load or an add they
  are the blank criteria, so the view is the whole list, whatever the
  controls still show.
- **The location drop-down.** It offers the distinct non-blank locations,
  sorted, each under its lower-cased text.
- **The marker colour and icon tables**, with their defaults.

The loops of the source are methods proved against specification functions:
- `ParseCSVLine` computes `Tokenize`;
- `ParseCSV` with `ParseDataRows` and `BuildProperty` computes `Decode`.

The expression-only parts are functions with lemmas: the filter predicate,
the location chain, the encoder's map/join, and the type tables. JavaScript
string operations are spelled out in `Text`: `trim` with the ECMAScript
white-space set, `toLowerCase`, `includes`, `split` and `join`.

Where the code and the written description of the page disagree, the model
follows the code:
- **Type filter.** It compares the lower-cased record type with the selected
  value as given, not case-insensitively on both sides.
- **Amenity and location filters.** They lower-case only the record's side.
- **Adding a listing.** It also requires a non-empty type. It resets the
  view to the full list instead of re-applying the filter.
- **Start-up and `loadFromUrl`.** They refuse a text that parses to no
  listings. File upload accepts such a text and empties the store.

## Model

| member | source | states |
|---|---|---|
| CsvLine.ParseCSVLine | script.js:195-215 | the loop returns `Tokenize(line)`: after each character the pushed fields, `current` and `inQuotes` are the tokenizer state for the prefix read |
| CsvLine.Step | script.js:203-210 | one loop iteration: a quote flips the flag, a comma read with the flag off closes the current field, any other character is appended to it; its effect over a line is what RunFromStart and TokenizeShape state |
| CsvLine.Tokenize | script.js:195-215 | the fields of a row: those closed by the scan plus the one open at the end; TokenizeShape gives their number, their quote-freedom and their concatenation |
| CsvLine.TokenizeShape | script.js:195-215 | a line yields one field more than it has splitting commas (so at least one field); no field holds a quote; the fields together are the line minus its quotes and splitting commas |
| CsvLine.RunFromStart | script.js:200-211 | after any prefix the flag is on iff an odd number of quotes was read, one field was pushed per splitting comma, and no field or pending text holds a quote |
| CsvLine.StepSummarizes | script.js:203-210 | each of the three branches of the loop body keeps that summary true for the prefix one character longer |
| CsvLine.RunAppend | script.js:200-211 | reading `a + b` is reading `a` and then `b` |
| CsvLine.RunPlain | script.js:208-209 | text without quotes, read inside quotes or without commas, is appended to the pending field |
| CsvDecode.ParseCSV | script.js:159-192 | returns `Decode(text)`: `TooFewLines` under two non-blank lines, `MissingHeaders` when a required header is absent, else the decoded rows |
| CsvDecode.Decode | script.js:159-192 | the result of `parseCSV`: `TooFewLines` under two non-blank lines, `MissingHeaders` listing the absent required names, else the records of the data rows; its cases are stated by DecodeFailsIff, DecodeRowsSubseq and DecodedRecordsWellFormed |
| CsvDecode.ParseDataRows | script.js:174-191 | the row loop returns `DecodeRows(headers, lines[1..])`, keeping the records decoded so far as its invariant |
| CsvDecode.BuildProperty | script.js:180-183 | the `forEach` loop builds `BuildRecord(headers, values)` |
| CsvDecode.BuildRecord | script.js:180-183 | the built object's keys are exactly the header names |
| CsvDecode.BuildRecordValues | script.js:182 | every value of a built record is the trimmed text of one of the row's columns |
| CsvDecode.BuildRecordLastWins | script.js:181-183 | a header named twice takes the value of its last column |
| CsvDecode.KeepNonBlank | script.js:160 | the kept lines are no more than the input lines and none of them is blank |
| CsvDecode.KeepNonBlankKeeps | script.js:160 | the kept lines are an order-preserving subsequence of the input, and a line is kept iff it is in the input and not blank |
| CsvDecode.KeepNonBlankAppend | script.js:160 | each line is kept or dropped on its own: filtering `a + b` is filtering `a`, then `b` |
| CsvDecode.DecodeFailsIff | script.js:160-172 | decoding fails with `TooFewLines` exactly under two non-blank lines; otherwise it fails iff one of `name`, `url`, `type` is absent from the normalised header, and the error lists exactly the absent ones |
| CsvDecode.MissingRequiredIff | script.js:166-169 | a header is in the missing list iff it is required and not in the header row |
| CsvDecode.DecodeRowsAppend | script.js:176-189 | rows decode independently and in order: decoding `a + b` is decoding `a`, then `b` |
| CsvDecode.DecodeRowsSubseq | script.js:176-189 | the decoded records are an order-preserving subsequence of the records of the right-width rows, and a record is kept iff it has a name and a url |
| CsvDecode.SkipWrongWidth | script.js:178 | a row whose field count differs from the header's is dropped without changing what the other rows give |
| CsvDecode.RowKeptIff | script.js:177-188 | a row gives at most one record, and gives one iff it has exactly one unquoted comma fewer than the header has names and the record built from it has a name and a url |
| CsvDecode.DecodedRecordsWellFormed | script.js:176-189 | there are no more records than rows, and each has a name and a url, exactly the header names as keys, and trimmed values without quotes |
| CsvDecode.RowWellFormed | script.js:177-188 | the record one row contributes, if any, is well formed |
| CsvDecode.DecodeOk | script.js:174-191 | a successful decode returns only listed records, fewer than the non-blank lines |
| CsvEncode.UnescapeEscape | script.js:671 | the escaped value is a well-formed quoted body that an RFC 4180 reader, which rejects a quote not doubled, reads back as the value |
| CsvEncode.UnescapeOnlyEscape | script.js:671 | the escaped value is the only body such a reader reads back as the value, so every quote of the value is doubled and nothing else changes |
| CsvEncode.EncodeFieldQuoting | script.js:670-671 | a cell is quote-wrapped iff its value holds a comma or a quote; the inside of a wrapped cell is the one well-formed RFC 4180 body that reads back as the value; an unquoted cell is the value itself |
| CsvEncode.MissingFieldIsEmpty | script.js:664 | an export field the record lacks becomes an empty cell |
| CsvEncode.EncodeRecordAvoids | script.js:663-672 | a character other than comma and quote that no export field holds does not occur in the record's line |
| CsvEncode.ExportHeadersShape | script.js:655 | the nine export names are non-empty lower-case words, with no comma, line break or outer white space |
| CsvEncode.Escape | script.js:671 | `value.replace(/"/g, '""')`; UnescapeEscape and UnescapeOnlyEscape state that it doubles every quote and changes nothing else |
| CsvEncode.EncodeField | script.js:670-671 | one exported cell; EncodeFieldQuoting states when it is wrapped and what it holds |
| CsvEncode.Encode | script.js:649-674 | the text `downloadCSV` builds, or nothing for an empty store; EncodeLines and DecodeEncode state its lines and its read-back |
| CsvEncode.HeaderLineShape | script.js:661 | the header line has no line break and splits on commas into the nine export names, in order |
| CsvEncode.EncodeLines | script.js:649-674 | nothing is exported iff there are no records; otherwise, for values without line breaks, the text splits into the header line followed by one line per record, in order |
| CsvRoundTrip.RunEscaped | script.js:203-209 | reading a quote-doubled body inside quotes appends the value with every quote removed |
| CsvRoundTrip.RunEncodedField | script.js:670-671 | reading one exported cell outside quotes appends the value without its quotes and leaves the flag off |
| CsvRoundTrip.RunJoinCells | script.js:663-672 | the tokenizer reads back, from a line of exported cells, one field per cell: the value without its quotes |
| CsvRoundTrip.TokenizeEncodedRecord | script.js:663-672 | tokenizing an exported record line gives its nine field values without their quotes; commas inside quoted cells do not split |
| CsvRoundTrip.RowOfEncoded | script.js:176-188 | the decoder turns one exported line into the record cleaned of quotes and outer white space, or into nothing when its name or url became empty |
| CsvRoundTrip.ExportHeaderRead | script.js:165 | the decoder reads the export header as the nine export names |
| CsvRoundTrip.ExportHeadersComplete | script.js:166-169 | the export header names every required header |
| CsvRoundTrip.ExportLinesKept | script.js:160 | no line of an export is blank, so the decoder drops none |
| CsvRoundTrip.DecodeEncode | script.js:648-674 | decoding the export of a non-empty list whose fields hold no line break gives, in order, every record cleaned of quotes and outer white space, minus those left without a name or url |
| CsvRoundTrip.RoundTrip | script.js:648-674 | records with exactly the nine export fields, none holding a quote, a line break or outer white space, and with a name and a url, decode from their export unchanged and in order |
| CsvRoundTrip.CleanedClean | script.js:182 | cleaning leaves a clean record unchanged |
| CsvRoundTrip.DoubledQuoteExported | script.js:670-671 | the value `a"b` is exported as `"a""b"` |
| CsvRoundTrip.DoubledQuoteDropped | script.js:203-204 | the cell `"a""b"` is read back as the single field `ab`: the doubled quote is dropped, not undoubled |
| Listings.FilterIsSubseq | script.js:224 | the filtered view is an order-preserving subsequence of the stored list |
| Listings.FilterKeepsIff | script.js:224-240 | a record is in the view iff it is stored and meets all four criteria |
| Listings.FilterBlank | script.js:219-240 | with all four controls empty the view is the whole list |
| Listings.FilterTwice | script.js:224-240 | filtering by one set of criteria and then another equals filtering once by criteria that hold exactly when both do |
| Listings.FilterIdempotent | script.js:224-240 | re-applying the same criteria changes nothing |
| Listings.SearchThenDropDowns | script.js:225-239 | the search box and the three drop-downs act independently: search first, then the drop-downs, gives the combined view |
| Listings.UpperCaseTypeMatchesNothing | script.js:230-231 | a selected type holding an upper-case letter matches no record, since only the record's type is lower-cased |
| Listings.TypeMatchIgnoresRecordCase | script.js:230-231 | a lower-case selected type matches every record whose type lower-cases to it |
| Listings.AmenityPrefixMatches | script.js:233-234 | the amenity test is a substring test: a choice that begins an amenity's name (such as `wi` in `wifi`) matches it |
| Listings.MatchesSearch | script.js:225-228 | the lower-cased search term is empty or occurs in the lower-cased name, or in the description or location when those are present |
| Listings.MatchesType | script.js:230-231 | no type is selected, or the lower-cased record type equals the selected value as given |
| Listings.MatchesAmenity | script.js:233-234 | no amenity is selected, or the record has amenities whose lower-cased text contains the selected value |
| Listings.MatchesLocation | script.js:236-237 | no location is selected, or the record has a location whose lower-cased text contains the selected value |
| Listings.Matches | script.js:224-240 | the filter callback: all four tests hold; FilterKeepsIff ties it to the view |
| Locations.LessTransitive | script.js:251 | the string order of `sort` is transitive |
| Locations.LessTotal | script.js:251 | any two distinct strings are ordered one way or the other |
| Locations.InsertFacts | script.js:248-251 | inserting into an ascending list keeps it ascending and adds exactly the new value, once |
| Locations.Locations | script.js:246-251 | the drop-down's locations, built by inserting each non-blank location into a sorted duplicate-free list; LocationsFacts states what they are |
| Locations.LocationsFacts | script.js:248-251 | the listed locations are strictly sorted, hold no duplicate (by exact, case-sensitive string), and are exactly the non-blank locations of the stored records |
| Locations.ChoiceKeepsItsRecords | script.js:256-259 | choosing a drop-down entry keeps every record whose location lower-cases to the entry's value |
| PropertyTypes.TypeColor | script.js:855-865 | the fallback colour is returned exactly for types outside the table, and distinct known types get distinct colours |
| PropertyTypes.TypeIcon | script.js:867-876 | the fallback icon is returned exactly for types outside the table and for `house`; other known types have icons of their own |
| PropertyTypes.SameTypes | script.js:855-876 | both tables cover the same five types |
| Store.NewPropertyListed | script.js:611-626 | the built record has a name and a url exactly when the trimmed name and url inputs are non-empty |
| Store.Store.constructor | script.js:2-3 | the page starts with both lists empty |
| Store.Store.Replace | script.js:76-77 | a load replaces the stored list and resets the view to a copy of it |
| Store.Store.ApplyFilters | script.js:218-240 | the view becomes the stored listings matching the criteria; the stored list is unchanged |
| Store.Store.AddProperty | script.js:608-631 | a form with blank name, blank url or no type changes nothing; otherwise its record is appended after the untouched earlier ones and the view becomes the full list |
| Store.Store.LoadFile | script.js:72-82 | an upload replaces the store with the decoded listings, even with none; a parse error leaves it as it was |
| Store.Store.LoadSample | script.js:116-131 | blank text is refused; otherwise the upload behaviour, replacing the store only on success |
| Store.Store.LoadFromUrl | script.js:1013-1021 | blank text, a parse error and a parse with no listings are all refused and leave the store unchanged; otherwise the store is replaced (start-up, script.js lines 1045-1048, behaves the same) |
| Store.Store.DownloadCSV | script.js:648-674 | nothing is exported for an empty store; otherwise the export decodes back to the same listings when they are clean |
| Text.TrimFacts | script.js:160 | `trim` leaves no white space at either end, gives the empty string exactly for blank text, leaves trimmed text alone and only removes characters |

## Left out

- DOM work is not modelled: rendering (`updateDisplay`, rows, details, modals), `showMessage` and its timers. The load methods return the outcome a message would report.
- `fetch`, `FileReader`, drag and drop and the HTTP status checks are I/O. The arrived text is a parameter. A failed request leaves the store unchanged, like the refused cases that are modelled.
- URL syntax validation before fetching is not modelled; it happens before any text exists.
- The MIME and extension check of `processFile` (script.js:65) is not modelled: it inspects browser `File` objects.
- `escapeHtml`, QR generation, the Leaflet map, markers and the coordinate picker are not modelled. They are foreign libraries and floating-point code.
- `loadEmbeddedSampleData` (script.js:135-156) is not modelled: nothing in the script calls it. It parses a fixed ten-row CSV text and replaces both lists, which is what Store.Store.LoadFile does with that text.
- Concurrent loads are not modelled. Two async loads can finish in either order, and the last one to finish wins. The model runs one operation at a time.
- Text.Lower: `toLowerCase` is modelled on ASCII letters only. Full Unicode case mapping, including mappings that change a string's length, is not modelled.
- Locations.Less: JavaScript's `sort` compares UTF-16 code units, while the model compares whole characters. The two orders differ only between characters above U+FFFF and characters from U+E000 to U+FFFF.
- Lookups that hit JavaScript's object prototype are not modelled, for example a type named `constructor` in the colour table, or a CSV header named `__proto__`. The model treats records and tables as plain maps.
- Records.Field: reading a missing field gives the empty string. In the source, `property.name.toLowerCase()` would throw for a record without `name`. Stored records always have `name` and `type`, because the decoder requires those headers and the form sets them.
- CsvRoundTrip.DecodeEncode: values holding a line break are excluded. Such a value splits the exported line, and what the decoder then returns is not characterised.
- Store.NewProperty: no lemma states the form record's nine keys and trimmed values. Only its name/url check (Store.NewPropertyListed) is proved.
- The type drop-down's option values live in the page's HTML, which is not part of this model. The filter is modelled for any selected value.
