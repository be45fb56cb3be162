# UPS drop-off report extraction, modelled in Dafny

This project models the extraction core of `extract_to_excel.py`, the
converter that turns a UPS drop-off report (a PDF) into a
workbook. Here the report's text is given as strings. The model covers:

- **Service vocabulary** (`vocabulary.dfy`). The builder scans the first
  30 pages for package lines: a line with a clock time and a "1Z" code.
  From each it takes the tokens between the pickup-date window and the
  tracking token, keeping them when they start with a known service prefix.
  It then cleans the collected labels (drops a trailing weight or "1Z"
  code, then strips) and sorts them longest first.
- **Package lines** (`line_entry.dfy`, `tracking.dfy`). A line of a
  package section is split into tokens, and the model reads off the time
  (through the first AM/PM token), up to three pickup-date tokens, the
  tracking number (the first pattern in order, the first token in order),
  the customer field, split into customer and service by the vocabulary,
  and the weight (the last token, or a value before a "ManWt"/"Com"
  marker).
- **Package sections** (`sections.dfy`). The three section kinds (drop-off,
  enhanced drop-off, mobile) and their tracking formats. The section
  bodies are walked line by line, keeping the records of the lines that
  parse.
- **Summary tables** (`summary.dfy`). The reconstructor walks the table
  lines with an index. It skips blank, "Total:", version and terminal-code
  lines, glues a stray weight on the next line back onto its row, and
  reads seven columns with the row pattern. A comma-only next line stops
  the walk with the conversion error.
- **Date range and file name** (`dates.dfy`, `naming.dfy`). A header
  range "DD Mon YYYY - DD Mon YYYY" becomes "DD-MM-YYYY to DD-MM-YYYY",
  and the workbook is named after the report with that range inserted.

`text.dfy` holds the Python string operations the core relies on
(`split()`, `split(sep)`, `strip()`, `replace`, `join`), and `wrappers.dfy`
holds `Option` and `Result`.

The loops of the source are methods. Most are proved against a recursive
specification function:

- the page and line loops of the vocabulary builder;
- the date-token loop;
- the section loops;
- the `while` loop of the table reconstructor.

The sort by length has no such function. It is proved against what the
sorted list must be: it holds exactly the set's labels
(membership both ways), each once (`Distinct`), longest first
(`LongestFirst`). The source's other promises are lemmas about the
specification functions.

Points of the code's behaviour worth noting:

- A table line is skipped when it *starts with* "Total:". Being only a
  total footer is not required.
- A next line made only of commas is a bare number by the pattern, and
  `float('')` raises. The walk then ends with that error instead of
  treating the line as unrelated.
- The vocabulary builder counts up to three non-"1Z" tokens after the
  AM/PM token, without stopping at a "1Z" token. The line parser's date
  run does stop there (and at "HR"). `Vocabulary.WindowCoversDateRun`
  relates the two.
- The builder treats an AM/PM token at index 0 as missing (`not
  time_idx`). The line parser does not.

## Model

| member | source | states |
|---|---|---|
| Tracking.MatchStartsWithPrefix | extract_to_excel.py:25-30 | every identifier either tracking format accepts starts with "1Z" or "HR" |
| Tracking.FirstMatchFrom | extract_to_excel.py:155-157 | the index found holds the first token from i on that the pattern matches; none means no token from i on matches |
| Tracking.ExtractTracking | extract_to_excel.py:153-158 | the result is a token of the line, the one picked by trying patterns in order and tokens in order; None exactly when no pattern matches any token |
| Tracking.SelectionUnique | extract_to_excel.py:154-157 | the (pattern, token) pair the search selects is unique |
| LineEntry.FirstMeridiemFrom | extract_to_excel.py:185 | the index found is the first "AM"/"PM" token from i on; none means there is no such token |
| LineEntry.IndexOf | extract_to_excel.py:199 | `parts.index(x)`: a position holding x with no earlier one |
| LineEntry.DateRun | extract_to_excel.py:164-168 | the date run never takes more tokens than the budget and never runs past the end of the line |
| LineEntry.DateRunMeaning | extract_to_excel.py:164-168 | the date tokens are at most the budget, none carries a "1Z"/"HR" prefix, and a short run ends at such a token or at the end of the line |
| LineEntry.ExtractDateParts | extract_to_excel.py:161-169 | the loop returns exactly the tokens after the time index that DateRun counts, in order |
| LineEntry.ExtractWeight | extract_to_excel.py:172-177 | the last token when it is no marker; the value and the marker joined when the token before the marker is a weight value ("lb", "kg" or "N/A"); "N/A" otherwise |
| LineEntry.WeightOfPlainLine | extract_to_excel.py:177 | an unmarked weight splits back into the line's last token |
| LineEntry.WeightOfMarkedLine | extract_to_excel.py:173-176 | a marked weight is "N/A" or splits back into the line's last two tokens, and ends with the marker |
| LineEntry.FirstSuffixFrom | extract_to_excel.py:145-146 | the index found is the first vocabulary entry the field ends with; none means it ends with none of them |
| LineEntry.SplitCustomerService | extract_to_excel.py:141-150 | an empty field gives two empty strings; a field ending in no entry is all customer; otherwise the service is the first entry it ends with and the customer is the stripped rest |
| LineEntry.LongestServiceWins | extract_to_excel.py:145-148 | with the vocabulary sorted longest first, the chosen service is a suffix of the field at least as long as any matching entry, and equal to any matching entry of its length |
| LineEntry.ServiceFromVocabulary | extract_to_excel.py:148-150 | the service is empty or a vocabulary entry |
| LineEntry.RecordService | extract_to_excel.py:197-208 | a fitting record's service is empty or a vocabulary entry; with the vocabulary sorted longest first it is the longest entry the customer field ends with |
| LineEntry.TimeAndDateOfLine | extract_to_excel.py:193-195 | the time is the tokens through the first AM/PM token, joined by spaces, and the pickup date is the date run after it, joined by spaces; splitting either gives those tokens back |
| LineEntry.CustomerFieldTokens | extract_to_excel.py:198-200 | the customer field is the tokens from the end of the date run up to the first occurrence of the tracking token, joined by spaces, and empty when the tracking token is not after the date run |
| LineEntry.BuildRecord | extract_to_excel.py:193-211 | the record built fits its line: the joined time and date tokens, customer and service as the vocabulary splits the customer field, the selected tracking token, the weight `extract_weight` gives |
| LineEntry.ParseLineEntry | extract_to_excel.py:180-211 | no record exactly when the line has fewer than four tokens, no AM/PM token, or no token any pattern matches; otherwise the record fits its line: time, date, customer, service, tracking number and weight as `BuildRecord` states |
| Sections.Lines | extract_to_excel.py:219 | splitting a section body at newlines gives at least one piece, no piece holds a newline, and the pieces joined with newlines give the body back |
| Sections.AppendLineRecords | extract_to_excel.py:219-222 | the inner loop appends the records of the body's lines, in order, to those found so far |
| Sections.CollectRecords | extract_to_excel.py:218-222 | the outer loop returns the records of every body's lines, in order |
| Sections.ParseSection | extract_to_excel.py:214-224 | `parse_section` returns the section records of the bodies under that section's line parser |
| Sections.LineRecordsSound | extract_to_excel.py:220-222 | every record kept comes from a line that parses to it |
| Sections.LineRecordsComplete | extract_to_excel.py:220-222 | every line that parses contributes its record |
| Sections.LineRecordsBound | extract_to_excel.py:219-222 | a body gives at most one record per line |
| Sections.LineRecordsAppend | extract_to_excel.py:219-222 | the records of two line runs joined are the records of each, joined |
| Sections.SectionRecordsSound | extract_to_excel.py:218-222 | every record of a section comes from some line of some body |
| Sections.ParsedTrackingMatches | extract_to_excel.py:189-191 | a parsed record's tracking number matches one of the patterns |
| Sections.SectionTrackingMatches | extract_to_excel.py:214-222 | every record of a section carries a tracking number of that section's formats |
| Sections.SectionFormats | extract_to_excel.py:21-36 | drop-off and mobile records carry "1Z" numbers; enhanced records carry "1Z" or "HR" numbers |
| Dates.DaysInMonth | extract_to_excel.py:83 | a month has 28 to 31 days |
| Dates.Lower | extract_to_excel.py:83 | lower-casing keeps the length and maps each character |
| Dates.MonthNumber | extract_to_excel.py:83 | `%b`: a number from 1 to 12 whose key the lower-cased token is; none when the token is no month |
| Dates.DayField | extract_to_excel.py:83 | `%d`: a day exactly when the field is one or two digits with a value from 1 to 31, and the day is that value |
| Dates.YearField | extract_to_excel.py:83 | `%Y`: a year exactly when the field is four digits, and the year is their value |
| Dates.ParseDate | extract_to_excel.py:83 | a date exactly when the text is three fields, a day, a month name and a year, that make a valid calendar date; the date holds the day's value, the month whose key is the lower-cased name, and the year's value |
| Dates.PadDigits | extract_to_excel.py:84 | zero-padding gives exactly `width` digits |
| Dates.PadDigitsValue | extract_to_excel.py:84 | the padded digits read back as the number |
| Dates.FormatDate | extract_to_excel.py:84 | `%d-%m-%Y` gives ten characters with dashes at positions 2 and 5 |
| Dates.FormatDateReadBack | extract_to_excel.py:84 | `%d-%m-%Y` gives ten characters with dashes at 2 and 5 whose fields read back as day, month and year |
| Dates.MonthNameKey | extract_to_excel.py:83 | the report's month names read back as their own months |
| Dates.ParseRenderDate | extract_to_excel.py:83 | parsing a date as the report writes it gives the same date |
| Dates.FormatDateRange | extract_to_excel.py:74-87 | a text with exactly one " - " whose two sides parse as dates becomes the two formatted dates joined by " to "; every other text is returned as it was |
| Dates.FormatDateRangeOfRendered | extract_to_excel.py:74-85 | a range of two report dates becomes the two reformatted dates joined by " to " |
| Dates.FormatDateRangeWithoutSeparator | extract_to_excel.py:76-78 | a text without " - " is returned unchanged |
| Dates.FormatDateRangeChanges | extract_to_excel.py:76-87 | the text changes exactly when it has one separator and both sides parse |
| Dates.FormattedRangeNoSeparator | extract_to_excel.py:85 | a reformatted range has no " - ", so it is not reformatted again |
| Naming.ReplacePdfSuffix | extract_to_excel.py:92-96 | replacing ".pdf" in a name that ends with it, and has it nowhere else, changes only the extension |
| Naming.FilenameWithoutDate | extract_to_excel.py:95-96 | without a range the workbook is the report's name with ".xlsx" for ".pdf" |
| Naming.FilenameWithDateEndsInXlsx | extract_to_excel.py:91-94 | with a range the name always ends in ".xlsx" |
| Naming.FilenameWithDate | extract_to_excel.py:91-94 | with a range and no double space to collapse, the name is stem, space, formatted range, ".xlsx" |
| Naming.FormattedRangeNoDoubleSpace | extract_to_excel.py:94 | a reformatted range, with its space and extension, has no double space |
| Naming.FilenameForReportRange | extract_to_excel.py:74-96 | a report stem.pdf whose header gives two report dates is named stem, a space, "DD-MM-YYYY to DD-MM-YYYY" and ".xlsx" |
| Vocabulary.FirstUpsLikeFrom | extract_to_excel.py:116 | the first token from i on that starts with "1Z" and has 18 characters; none means no such token |
| Vocabulary.WindowCountMeaning | extract_to_excel.py:122-123 | the window count is the number of positions among the three after the AM/PM token, within the line, whose tokens do not start with "1Z"; a "1Z" token there is passed over |
| Vocabulary.IndexOfFirstUpsLike | extract_to_excel.py:126 | `parts.index(tracking)` is the position where the tracking token was found |
| Vocabulary.SpanOf | extract_to_excel.py:114-131 | a span kept starts with one of the service prefixes |
| Vocabulary.SpanOfSound | extract_to_excel.py:114-131 | a span kept lies between the date window and the tracking token, is non-empty and starts with a service prefix |
| Vocabulary.SpanOfComplete | extract_to_excel.py:114-131 | every such span is the one kept |
| Vocabulary.ServiceCandidate | extract_to_excel.py:109-131 | a line yields a label only if it has a clock time and a "1Z" code, and the label starts with a service prefix |
| Vocabulary.CandidateSound | extract_to_excel.py:109-131 | a line yields a label only if it has a clock time and a "1Z" code, and the label is the line's service span |
| Vocabulary.CandidateComplete | extract_to_excel.py:109-131 | a line with both and a service span yields that span |
| Vocabulary.MarkerFirstRejected | extract_to_excel.py:118 | a line whose first token is "AM" or "PM" yields nothing (time index 0 counts as missing) |
| Vocabulary.WindowCoversDateRun | extract_to_excel.py:122-123 | the builder's date window is never shorter than the date run the line parser takes |
| Vocabulary.AddLineCandidates | extract_to_excel.py:109-131 | the line loop adds exactly the lines' labels to the set |
| Vocabulary.CollectServiceTypes | extract_to_excel.py:100-131 | the page loop gathers the labels of the first 30 pages at most |
| Vocabulary.LineCandidatesSound | extract_to_excel.py:109-131 | every gathered label comes from some line |
| Vocabulary.LineCandidatesComplete | extract_to_excel.py:109-131 | every line's label is gathered |
| Vocabulary.PageCandidatesSound | extract_to_excel.py:104-131 | every gathered label comes from a line of a non-empty page |
| Vocabulary.CaptureFrom | extract_to_excel.py:133 | the first position from p on where a weight or "1Z" tail starts, or the end |
| Vocabulary.StripCaptured | extract_to_excel.py:133 | the substitution keeps a prefix of the label, cut at the leftmost position where a weight or "1Z" tail begins |
| Vocabulary.Clean | extract_to_excel.py:133 | a cleaned label is no longer than the span and neither starts nor ends with whitespace |
| Vocabulary.SortByLength | extract_to_excel.py:135 | the sorted list holds exactly the set's labels, each once, longest first |
| Vocabulary.BuildVocabulary | extract_to_excel.py:99-135 | the vocabulary holds exactly the cleaned labels of length 4 to 50, each once, longest first |
| Vocabulary.EntryOrigin | extract_to_excel.py:104-134 | every entry is the cleaned form of a prefixed label of length 4 to 50 found on a line of the first 30 pages |
| Summary.RunEndIn | extract_to_excel.py:262 | a greedy run of a class: every character up to the end is in the class and the next is not |
| Summary.CommasRemoved | extract_to_excel.py:254 | a bare number without a dot is digits once its commas are removed, and nothing is left exactly when it was all commas |
| Summary.ContinuationOf | extract_to_excel.py:252-254 | the next line fails to convert exactly when it is a bare number made only of commas; it merges exactly when it is a bare number with a dot, or without a dot and with a value below 100000 |
| Summary.StepAt | extract_to_excel.py:241-260 | a step moves the index forward by one or two lines, never past the end |
| Summary.StepMerges | extract_to_excel.py:252-260 | the step takes two lines exactly when the next line is a bare number with a dot or below 100000, and the merged line is the row, a space, the number and "lb" |
| Summary.StepFails | extract_to_excel.py:252-254 | the step fails exactly when the line is no skip line and the next line is all commas |
| Summary.SkipLinesGiveNothing | extract_to_excel.py:244-250 | blank, "Total:", version and terminal-code lines add no rows |
| Summary.ColumnsLayout | extract_to_excel.py:262 | the count columns follow one another, each after a run of whitespace that starts where the previous column ends, and each is the longest run of its class |
| Summary.FirstHit | extract_to_excel.py:262 | the lazy search returns a position where the rest matches |
| Summary.FirstHitLeast | extract_to_excel.py:262 | no earlier position has the rest match |
| Summary.FirstHitNone | extract_to_excel.py:262 | with no position found, the rest fails everywhere the first group can reach |
| Summary.MatchEnd | extract_to_excel.py:262 | the end of the lazy first group is a position from which the other groups match |
| Summary.MatchEndLeast | extract_to_excel.py:262 | the first group ends at the first position from which the other groups match |
| Summary.MatchEndNone | extract_to_excel.py:262 | no match means the other groups match at no position before the first newline |
| Summary.MatchRow | extract_to_excel.py:262 | the pattern matches exactly when the lazy first group has an end from which the other groups match, and the type group is the text before that end |
| Summary.GroupsShape | extract_to_excel.py:262-274 | the type is the text before the lazy end, the five counts are runs of \d or [\d,], and a weight starts with [\d.,] |
| Summary.WeightShape | extract_to_excel.py:262-274 | the optional weight group is empty or starts with [\d.,] |
| Summary.RowOfFields | extract_to_excel.py:262-275 | a line gives no row exactly when the pattern fails or the stripped type is empty or "Total:"; otherwise the row holds the stripped type, the matched groups with the commas of Ground and Total Packages removed, and digits only in every count |
| Summary.WalkRows | extract_to_excel.py:238-277 | the `while` loop returns the rows of the walk from the first line, or its error |
| Summary.ParseTabularSection | extract_to_excel.py:227-277 | no table body gives no rows; a body gives the walk of its stripped lines |
| Summary.RowOfWellFormed | extract_to_excel.py:264-275 | a row has a type that is neither empty nor "Total:", and ground and total counts without commas |
| Summary.RowsWellFormed | extract_to_excel.py:238-277 | every row the walk returns is well formed |
| Summary.RowsBound | extract_to_excel.py:238-277 | the walk returns at most one row per line |

## Left out

- Reading the PDF (`pdfplumber`) is left out. The builder takes the page
  texts, with a page without text given as "". The section parser and the
  table reconstructor take the section and table bodies.
- The section regexes of the section configurations and of
  `parse_tabular_section` are left out. `Sections.ParseSection` takes the
  bodies `re.findall` would return. `Summary.ParseTabularSection` takes the
  captured table body, or None when the search fails.
- `extract_report_info` (header fields), the worksheet styling and
  writing (`openpyxl`, `pandas`), `main` and the command line are not part
  of this model.
- `gui_settings.py` (the settings window) is not part of this model.
- The error wrapper of the vocabulary builder (`raise Exception(...)`
  around any failure) is left out, because the modelled builder cannot fail.
- Dates.MonthNumber: `strptime` matches `%b` with a case-insensitive
  regular expression, which the model reduces to ASCII lower-casing.
  Python's case folding also maps some non-ASCII letters onto ASCII ones,
  such as 'ſ' (U+017F) onto 's', so a token like "ſep" is a month to the
  source and not to the model.
- Summary.StepAt: `float(...) < 100000` is modelled on the integer value
  of the comma-stripped digits. That is exact, because the branch is only
  reached when the number has no dot. A comma-only next line is the
  `ValueError` (`Err(ConversionError)`), which the source lets propagate
  out of the reconstructor.
- Regex classes `\d` and `\w` are modelled as ASCII digits and
  letters, digits and `_`. Python's Unicode classes also accept other
  scripts' digits and letters. `\s`, `split()` and `strip()` are all
  modelled with the same whitespace set.
- Summary.RowOf: `$` and `re.match` anchors are modelled for single lines.
  A line of the table body never contains a newline, so `$` before a
  trailing newline does not arise.
- Dates.FormatDate: `%Y` is written as four digits. For years below 1000
  the padding of `strftime` depends on the platform.
- Dates.ParseDate reads the three whitespace-separated fields. `strptime`
  also accepts the same fields with other runs of whitespace between them,
  which `split()` treats the same way.
- Vocabulary.SortByLength: `sorted(key=len, reverse=True)` is stable over
  the set's iteration order, which Python does not fix. The model promises
  the longest-first order and leaves the order among labels of equal
  length open.
- Sections.ParseSection and Summary.WalkRows are stated for any line
  reader. `ParseSection` is applied with `parse_line_entry` and the
  section's formats, and `WalkRows` with the row pattern (`RowOf`).
