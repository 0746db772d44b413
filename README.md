# venmo-data-extractor, modelled in Dafny

`venmo-data-extractor.py` turns exported Venmo statements into a plain-text
report. It takes the field names from the third line of the first statement
and keeps every CSV record, from every statement, that has a field exactly
equal to the participant name. It then selects five columns (`Datetime`,
`From`, `To`, `Amount (total)`, `Note`) by name. Each kept record becomes one
line. The first selected field is rewritten from an ISO 8601 date/time to
`Mon DD YYYY` when it parses. Otherwise it is kept verbatim, and that is how
the header row passes through the same formatter. The other fields follow,
each after `, `, and a line feed ends the line. The report is a fixed banner,
the rendered header, a rule of 64 dashes, and then the rendered records in
the order they were read.

The model is four modules:

- `Wrappers` (wrappers.dfy): `Option` and `Result`, the values the
  script's exceptions become.
- `Text` (text.dfy): the Python primitives the script relies on.
  `list.index` is `IndexOf`, `str.split` is `Split`, and `readline` on a
  text file is `ReadLine` and `SplitLines`. `Join` is not called by the
  script: it is the helper in which the split/join round trip of `Split`
  and the shape of a rendered line are stated.
- `IsoDate` (iso_date.dfy): the calendar-date grammar the report
  recognises, `YYYY-MM-DD` with an optional `Thh:mm:ss`. These are the
  extended formats of sections 4.1.2.2 and 4.3.2 of ISO 8601:2004. The
  module also holds the `%b %d %Y` rendering.
- `Extractor` (extractor.dfy): the script itself. `format_line`,
  `get_fieldnames`, the filtering loops and the summary assembly are
  methods with loops. Each is proved equal to a specification function
  (`Line`, `ThirdLine`/`Split`, `Matching`, `Body`). The properties the
  report depends on are lemmas about those functions. `Run` composes the
  whole main block, and every way the modelled part of the script stops
  without writing a report becomes a `RunError`.

Behaviour worth noting:

- A statement with fewer than three lines does not fail when it is read.
  `readline` at end of file returns the empty string, so the field names
  become `[""]`. The run then stops at the column lookup (`FieldMissing`).
- Lines are joined with `, ` and carry no prefix.
- The zero-files path prints to standard output and calls `exit()`. It is
  modelled only as the `NoInputFiles` result.

## Model

| member | source | states |
|---|---|---|
| `Text.IndexOf` | venmo-data-extractor.py:76 | `list.index`: the result is a position holding the value with no earlier occurrence; None exactly when the value is absent |
| `Text.Split` | venmo-data-extractor.py:24 | `header.split(',')` gives at least one field, none holds a comma, and joining them with `,` gives back the line, line feed included |
| `Text.SplitLength` | venmo-data-extractor.py:24 | the number of fields is the number of commas plus one |
| `Text.SplitJoin` | venmo-data-extractor.py:24 | the converse round trip: comma-free fields are recovered exactly by splitting their join |
| `Text.ReadLine` | venmo-data-extractor.py:22 | one `readline`: the line and the remainder rebuild the text; the line is empty only at end of file, has no line feed before its end, and ends in one whenever text remains |
| `Text.SplitLines` | venmo-data-extractor.py:21-22 | successive `readline` results run out exactly when the text is empty |
| `Text.SplitLinesConcat` | venmo-data-extractor.py:21-22 | the lines read rebuild the whole text |
| `Text.ReadLineNext` | venmo-data-extractor.py:21-22 | after `i` reads, the next `readline` returns line `i` of the text and leaves the lines after it, or returns the empty string once every line is read |
| `Text.SplitLinesShape` | venmo-data-extractor.py:21-22 | every line read is non-empty with at most a final line feed, and every line but the last ends in one |
| `IsoDate.ParseIso` | venmo-data-extractor.py:33 | `datetime.fromisoformat` on `YYYY-MM-DD[Thh:mm:ss]`: a result is a valid Gregorian date (years 1-9999, real day of month) whose ISO form is the first ten characters, followed by nothing or a valid time |
| `IsoDate.ParseIsoRoundTrip` | venmo-data-extractor.py:33 | every valid date written in ISO form, with or without a time, parses back to itself |
| `IsoDate.FormatShape` | venmo-data-extractor.py:34 | `strftime('%b %d %Y')` gives a 3-letter month abbreviation, a space, the 2-digit day, a space and the year; 11 characters for 4-digit years |
| `IsoDate.FormatInjective` | venmo-data-extractor.py:34 | two valid dates that render the same are the same date |
| `IsoDate.FormatCopiesDigits` | venmo-data-extractor.py:33-34 | for a parsed field with a 4-digit year, the rendering is the month name of its month digits, then its day digits and its year digits verbatim; the time is dropped |
| `IsoDate.NatToStringValue` | venmo-data-extractor.py:34 | the year is written in decimal digits that read back as the year |
| `IsoDate.NatToStringFourDigits` | venmo-data-extractor.py:34 | a year from 1000 to 9999 is written as exactly four digits |
| `Extractor.GetFieldnames` | venmo-data-extractor.py:18-24 | the field names are the third line read, or the empty string for a shorter file, split on commas: they join back to that line and number its commas plus one |
| `Extractor.Columns` | venmo-data-extractor.py:75-76 | succeeds exactly when every wanted name is a field name; then it has the same length and order as the wanted names and each entry is the smallest index of its name; otherwise it names the first absent wanted name |
| `Extractor.CollectLines` | venmo-data-extractor.py:65-71 | `lines` is the field names followed by exactly the records having a field equal to the name, over all files in file order |
| `Extractor.CollectFromFile` | venmo-data-extractor.py:69-71 | the inner loop over one file's records appends exactly the records having a field equal to the name, in file order |
| `Extractor.MatchingConcat` | venmo-data-extractor.py:66-71 | filtering the records of consecutive files is filtering each file in turn, so file order is kept |
| `Extractor.MatchingMultiset` | venmo-data-extractor.py:69-71 | a record naming the participant is kept exactly as often as it occurs and any other record never, so nothing is duplicated, dropped or invented |
| `Extractor.MatchingInOrder` | venmo-data-extractor.py:69-71 | the kept records are a subsequence of the records read, so they are never reordered |
| `Extractor.Project` | venmo-data-extractor.py:39-40 | the selected fields are `l[c]` for each selected column `c`, in selection order |
| `Extractor.FormatLine` | venmo-data-extractor.py:30-42 | `format_line` (every column present, at least one selected) returns the rendered first field, then `, ` and each further selected field, then a line feed |
| `Extractor.LineAsJoin` | venmo-data-extractor.py:39-41 | the line is the rendered first field and the other selected fields, unaltered and in order, joined by `, `, followed by one line feed |
| `Extractor.LineVerbatim` | venmo-data-extractor.py:35-37 | a first field that is not a date, such as the header's `Datetime`, is emitted verbatim, so the line is exactly the selected fields joined by `, ` |
| `Extractor.LineDate` | venmo-data-extractor.py:33-34 | a first field holding a date with a 4-digit year becomes its first 11 characters (month name, field's day, field's year), and the rest is the appended fields and the line feed |
| `Extractor.LineSingleLineFeed` | venmo-data-extractor.py:41 | with no line feed inside the selected fields, the line holds exactly one, at its end |
| `Extractor.AppendLines` | venmo-data-extractor.py:88-89 | the loop over `lines[1:]` appends one rendered line per kept record, in order |
| `Extractor.BuildSummary` | venmo-data-extractor.py:79-89 | the summary is the banner, the rendered header, the rule, then the rendered kept records in order |
| `Extractor.BodyConcat` | venmo-data-extractor.py:88-89 | rendering two runs of records one after the other gives the two renderings concatenated |
| `Extractor.BodyLineCount` | venmo-data-extractor.py:88-89 | with no line feed inside the selected fields, the body has exactly one line per kept record |
| `Extractor.RuleShape` | venmo-data-extractor.py:86 | the rule is 64 dashes and a line feed |
| `Extractor.FirstUnfit` | venmo-data-extractor.py:33-40 | the first kept record that lacks a selected column, where `l[cc[0]]` or `l[c]` raises IndexError; None exactly when every record has every selected column |
| `Extractor.RenderPrefix` | venmo-data-extractor.py:79-86 | a report, when one is written, starts with the banner, the rendered header row and the rule |
| `Extractor.ScriptColumns` | venmo-data-extractor.py:75-76 | when every one of the script's five output names is a field name, the column list has five entries, all inside the header row, selecting exactly those names in order |
| `Extractor.JoinOutputFields` | venmo-data-extractor.py:75 | the five output names joined by `, `, with a line feed, are the header line `Datetime, From, To, Amount (total), Note` |
| `Extractor.HeaderLineOf` | venmo-data-extractor.py:85 | a row whose selected fields are the five output names renders as `Datetime, From, To, Amount (total), Note` and a line feed, since `Datetime` is not a date |
| `Extractor.ScriptRender` | venmo-data-extractor.py:75-89 | for the script's own output names, the rendering never fails for want of columns, and a report starts with the banner, that header line and the rule |
| `Extractor.ScriptReport` | venmo-data-extractor.py:62-89 | the script's own run, for `Amanda Ruiz` and its five output names, never fails for want of columns, and a report it writes starts with the banner, the header line and the rule |
| `Extractor.Run` | venmo-data-extractor.py:44-89 | the main block, from reading the field names to the finished summary, yields the report or the first error the script would raise |
| `Extractor.ReportOutcome` | venmo-data-extractor.py:49-89 | a report is produced exactly when files exist, columns are wanted, every wanted name is a field name and every kept record has every selected column |

## Left out

- Finding statements with `Path('./csv').glob('VenmoStatement*.csv')`, opening files, and writing `Venmo_transactions.txt` are I/O and are not modelled. `Run` takes the files as values, in glob order, and returns the report text.
- The `exit()` on zero files and its message are I/O. Only the result `NoInputFiles` is modelled.
- `csv.reader` belongs to Python's CSV library, and each file's records are given already parsed, as `seq<seq<string>>`. The reader is given the class `VenmoDialect` itself, not an instance, so it reads the class attributes inherited from `csv.excel`: a doubled quote stands for a quote, there is no escape character and strict mode is off. The settings assigned in `VenmoDialect.__init__`, such as the backslash escape and strict mode, never take effect, since that constructor is never run.
- Newline translation in text mode (`\r\n` read as `\n`) is not modelled. A file's text is given as Python sees it after translation.
- IsoDate.ParseIso: deliberately accepts only `YYYY-MM-DD` and `YYYY-MM-DDThh:mm:ss`. Python's `fromisoformat` also accepts a space or another separator before the time, fractional seconds, UTC offsets, hour-minute times and, from Python 3.11, basic formats and week and ordinal dates. The model renders such fields verbatim where Python would render them as dates.
- IsoDate.Format: `%b` is taken in the C locale. `%Y` is unpadded, as glibc's `strftime` writes it when CPython passes `%Y` through unchanged, so years below 1000 have fewer than four digits. CPython releases that include the fix for issue gh-120713 pad `%Y` to four digits instead; that behaviour is not modelled. Only years below 1000 are affected.
- The banner text is a constant. Nothing is stated about it.
- Python exceptions are modelled as `RunError` values. The uncaught IndexError of `format_line` is a precondition of `FormatLine`, `Line` and `BuildSummary`, and `Run` turns it into `RowTooShort` or `NoColumns`.
