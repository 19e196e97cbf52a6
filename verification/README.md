# IRS Form 990 extractor front end — a Dafny model

The front end lets a user pick or drop one PDF of an IRS Form 990. It
sends the file to an extraction service and shows the fields that come
back on three tabs: page 1, Part VIII (revenue) and Part IX (functional
expenses). The results can be exported as a JSON or a CSV file. This
project models the logic around one extraction result and proves
properties of that logic:

- `JsStrings`: the JavaScript string built-ins the code relies on, over
  `seq<char>`. These are `split` with a one-character separator, `join`,
  the regular-expression removal `replace(/[$,]/g, '')`, `indexOf`,
  `replace` with a string pattern (first occurrence only), and
  `toString` on integers together with its inverse.
- `Values`: raw field values (`Absent | Str | Num`), JavaScript
  truthiness, and the value-cleaning rule. The rule exists twice in the
  code: once for the screen (`DisplayValue`) and once for the CSV
  (`CsvCell`).
- `Schema`: the three ordered field lists (11 + 38 + 8 = 57 fields) and
  their key structure.
- `Results`: the result object, tab selection, the field cards a tab
  renders, and the banner listing fields that could not be extracted.
- `Export`: the spread merge of the three sections, the CSV encoder, a
  CSV decoder as its partner, and the export file names.
- `Controller`: the application state `{file, isLoading, results, error}`,
  the file handlers, the classification of the service's reply, and event
  traces with the invariant they keep.
- `Uploader`: the drag highlight, the drop and picker routes (only the drop
  route checks the media type), and the controls hidden while an
  extraction runs.

Facts about the code that shape the model:

- The schema has 57 fields: 11 on page 1, 38 in Part VIII and 8 in Part IX.
- Keys are not unique across sections: `total_revenue` is on page 1 and in
  Part VIII. The CSV merge is right-biased, so when Part VIII has a
  `total_revenue` entry and Part IX has none, the page-1 CSV row shows
  Part VIII's value.
- The export name removes the first `.pdf` anywhere in the name.
- The file picker does not check the media type; the drop route does.
- The CSV cell of a falsy value is empty; the screen shows `0` for it.
- Cleaning keeps every character other than `$` and `,` before the first
  `.`, so a cleaned string can be non-numeric: `"N/A"` stays `"N/A"`.

## Model

| member | source | states |
|---|---|---|
| JsStrings.Split | src/components/ExtractionResults.jsx:76 | `split('.')` always returns at least one piece and no piece contains the separator. The first piece is the input cut just before the first separator. |
| JsStrings.SplitJoin | src/components/ExtractionResults.jsx:116-119 | Joining separator-free pieces and then splitting gives the same pieces back. |
| JsStrings.Count | src/components/ExtractionResults.jsx:118 | The number of occurrences of a character is at most the length, and zero exactly when the character does not occur. |
| JsStrings.CountAppend | src/components/ExtractionResults.jsx:118 | Occurrences add up over a concatenation. |
| JsStrings.SplitLength | src/components/ExtractionResults.jsx:76 | `split` with a one-character separator gives exactly one piece more than the separator occurs. |
| JsStrings.JoinSplit | src/components/ExtractionResults.jsx:116-119 | Splitting and then joining with the same separator gives back the original string. |
| JsStrings.JoinTwo | src/components/ExtractionResults.jsx:118 | Joining two cells puts exactly one separator between them. |
| JsStrings.JoinStartsWithFirst | src/components/ExtractionResults.jsx:116-119 | A join of two or more parts begins with the first part followed by the separator. |
| JsStrings.JoinEndsWithLast | src/components/ExtractionResults.jsx:116-119 | A join ends with its last part, with no separator after it. |
| JsStrings.JoinOffset | src/components/ExtractionResults.jsx:156 | Every part of a join appears verbatim in the joined string, at a computable offset. |
| JsStrings.RemoveAllKeeps | src/components/ExtractionResults.jsx:76 | The `/[$,]/g` removal keeps exactly the characters of the input that are outside the class. |
| JsStrings.RemoveAllAppend | src/components/ExtractionResults.jsx:76 | Removal works character by character: it distributes over concatenation. |
| JsStrings.RemoveAllIdentity | src/components/ExtractionResults.jsx:76 | Removal changes nothing exactly when no character of the class occurs. |
| JsStrings.IndexOfFrom | src/components/ExtractionResults.jsx:100 | The result is the least index at or after `from` where the pattern occurs, and `None` exactly when there is no such index. |
| JsStrings.ReplaceFirst | src/components/ExtractionResults.jsx:125 | A string-pattern `replace` splices the replacement in at the FIRST occurrence only, and returns the input unchanged when the pattern is absent. |
| JsStrings.NatToString | src/components/ExtractionResults.jsx:76 | A natural number prints as digits only, with a leading zero exactly for zero. |
| JsStrings.IntToString | src/components/ExtractionResults.jsx:76 | An integer prints as digits with a leading `-` exactly when it is negative. |
| JsStrings.IntToStringZero | src/components/ExtractionResults.jsx:74-76 | Only zero prints as `"0"`. |
| JsStrings.NatToStringRoundTrip | src/components/ExtractionResults.jsx:76 | Reading the digits back gives the number that was printed. |
| JsStrings.IntToStringRoundTrip | src/components/ExtractionResults.jsx:76 | An integer's printed form reads back as that integer, so distinct numbers print differently. |
| Values.TruncationIsUnique | src/components/ExtractionResults.jsx:76 | "Cut before the first `.`" determines a single string. |
| Values.Clean | src/components/ExtractionResults.jsx:76 | The cleaned string has no `$`, `,` or `.`, and it is the `$`/`,`-free input truncated before its first `.`. |
| Values.Truthy | src/components/ExtractionResults.jsx:74 | A value (as the `!value` check here and the `or` fallback of line 113 read it) is truthy exactly when it is present, prints as a non-empty string, and is not the number that prints as `"0"`; the string `"0"` is truthy. |
| Values.CleanFixesCleanStrings | src/components/ExtractionResults.jsx:76 | A string without `$`, `,` and `.` is left as it is. |
| Values.CleanIdempotent | src/components/ExtractionResults.jsx:76 | Cleaning twice gives the same string as cleaning once. |
| Values.DisplayValue | src/components/ExtractionResults.jsx:73-78 | Every falsy value shows as `"0"`. A truthy value shows as its string form with `$` and `,` removed, truncated before the first `.`. |
| Values.CsvCell | src/components/ExtractionResults.jsx:113 | The CSV copy of the rule never leaves `$`, `,` or `.` in a cell. |
| Values.DisplayVersusCsv | src/components/ExtractionResults.jsx:113 | The two copies agree on truthy values. For falsy values the CSV cell is `""` and the screen shows `"0"`. They differ exactly on falsy values. |
| Values.DisplayIdempotent | src/components/ExtractionResults.jsx:76 | Displaying a non-empty displayed value again leaves it unchanged. |
| Values.LeadingMinusKept | src/components/ExtractionResults.jsx:76 | A leading `-` survives cleaning. |
| Values.NumberShownExactly | src/components/ExtractionResults.jsx:74-76 | An integer within plus or minus 2^53 - 1 shows as its exact decimal form, zero included, and reads back as the same integer. Its CSV cell is the same except that zero is empty. |
| Values.CleaningExampleAmount | src/components/ExtractionResults.jsx:76 | `"$1,234.56"` shows as `"1234"`: the fraction is truncated, not rounded. |
| Values.CleaningExampleNegative | src/components/ExtractionResults.jsx:76 | `"-$50.99"` shows as `"-50"`. |
| Values.CleaningExamplesDegenerate | src/components/ExtractionResults.jsx:76 | The truthy inputs `"$"` and `".5"` show as `""`. `"0.75"` shows as `"0"`. |
| Values.CleaningExampleText | src/components/ExtractionResults.jsx:76 | Cleaning does not look for a number: text without `$`, `,` or `.`, such as `"N/A"`, passes through unchanged, `"$abc"` shows as `"abc"`, and `"a.b"` shows as `"a"`. |
| Values.CleaningExamplesFalsy | src/components/ExtractionResults.jsx:74 | Absent, `""` and `0` show as `"0"`, and each gives an empty CSV cell. |
| Schema.UniqueKeysConcat | src/components/ExtractionResults.jsx:106 | Two key-unique field lists with no key in common concatenate to a key-unique list. |
| Schema.SchemaSizes | src/components/ExtractionResults.jsx:4-68 | The three lists have 11, 38 and 8 fields, and the export list has 57. |
| Schema.KeysUniqueWithinSections | src/components/ExtractionResults.jsx:4-68 | No key repeats within page 1 or within Part IX. |
| Schema.KeysUniqueWithinPartVIII | src/components/ExtractionResults.jsx:18-57 | No key repeats within Part VIII. |
| Schema.TotalRevenueListedTwice | src/components/ExtractionResults.jsx:8 | Page 1 field 3 and Part VIII field 37 are the same entry `total_revenue` / "Row 12: Total Revenue", so the export list is not key-unique. |
| Schema.Page1PartVIIIShareOnlyTotalRevenue | src/components/ExtractionResults.jsx:56 | That pair is the only key page 1 and Part VIII share. |
| Schema.Page1PartIXDisjoint | src/components/ExtractionResults.jsx:59-68 | Page 1 and Part IX share no key. |
| Schema.PartVIIIPartIXDisjoint | src/components/ExtractionResults.jsx:18-68 | Part VIII and Part IX share no key. |
| Results.RenderTab | src/components/ExtractionResults.jsx:80-91 | Each of the three tab ids renders its own field list over its own section. Any other id renders nothing. |
| Results.FieldsForTab | src/components/ExtractionResults.jsx:80-91 | Each tab id selects its own field list with its own section, and only that id does; any other id gives no fields and an empty section. |
| Results.MissingSectionRendersZeros | src/components/ExtractionResults.jsx:185 | A tab whose section is missing renders every one of its fields as `"0"`. |
| Results.CardShowsOwnSection | src/components/ExtractionResults.jsx:182-187 | A card shows the display form of the value stored under its key in the tab's own section. |
| Results.Mount | src/components/ExtractionResults.jsx:71 | The view opens on the page-1 tab and shows the page-1 cards. |
| Results.SelectTab | src/components/ExtractionResults.jsx:160-179 | Switching tabs never changes the result, and the view then renders the chosen tab. |
| Results.SwitchingBackReproducesCards | src/components/ExtractionResults.jsx:160-179 | Going to another tab and back reproduces the same cards. |
| Results.ErrorsBanner | src/components/ExtractionResults.jsx:153-158 | The banner is shown exactly when the result lists at least one field error. |
| Results.BannerListsEveryError | src/components/ExtractionResults.jsx:156 | The banner starts with its fixed prefix, and every listed error appears verbatim after it. |
| Export.MergedData | src/components/ExtractionResults.jsx:107 | The merged map has the union of the section keys. Part IX wins over Part VIII, and Part VIII wins over page 1, even when the winning value is `null`. |
| Export.CsvHeaderIsFieldValue | src/components/ExtractionResults.jsx:109-117 | The header line is the unquoted `Field,Value`. |
| Export.CsvLayout | src/components/ExtractionResults.jsx:105-119 | The CSV is 58 lines joined by `\n`: the header, then `"label","value"` for each of the 57 fields in page 1, Part VIII, Part IX order, with the value taken from the merged map. |
| Export.CsvFor | src/components/ExtractionResults.jsx:109-119 | The file starts with the unquoted line `Field,Value`; with fields it continues after a newline and ends with the last field's closing quote, with no trailing newline; with no fields it is the header alone. |
| Export.CsvForShape | src/components/ExtractionResults.jsx:116-119 | For a non-empty field list, the joined lines begin with the header line and end with a closing quote. |
| Export.CsvText | src/components/ExtractionResults.jsx:105-119 | The CSV export of any result begins with the header line and ends with the closing quote of the last field line. |
| Export.CsvCellVersusScreen | src/components/ExtractionResults.jsx:113 | Each CSV value equals the on-screen form of the same merged value when that value is truthy, and is empty otherwise. |
| Export.TotalRevenueRowTakesPartVIII | src/components/ExtractionResults.jsx:107 | When Part VIII (and not Part IX) has `total_revenue`, both "Row 12: Total Revenue" lines of the CSV show Part VIII's value, whatever page 1 holds. |
| Export.TotalRevenueScreenAndCsvDiffer | src/components/ExtractionResults.jsx:107 | With 100 on page 1 and 200 in Part VIII, the page-1 card shows 100 while the CSV line for the same page-1 field says 200. |
| Export.DecodeRowInvertsCsvRow | src/components/ExtractionResults.jsx:118 | A quoted data line decodes to the label and value it was built from, when neither contains `"`. |
| Export.DecodeRowsInvertsCsvRows | src/components/ExtractionResults.jsx:110-118 | Every data line decodes to its field's label and CSV value, in order. |
| Export.CsvDecodesBack | src/components/ExtractionResults.jsx:105-119 | Round trip: when no label or value contains `"` or a line break, decoding the export gives back every field's label and value in schema order, one line per field after the header. |
| Export.QuoteInValueBreaksRow | src/components/ExtractionResults.jsx:118 | For every label and value, if either contains `"`, the quote is not escaped and the line does not decode. |
| Export.CsvRowInner | src/components/ExtractionResults.jsx:118 | A data line is the label and the value joined by `","` inside one outer pair of quotes. |
| Export.ExportFileName | src/components/ExtractionResults.jsx:125 | The first `.pdf` anywhere in the name, if there is one, is removed and the suffix appended. A missing file name gives no download. |
| Export.ExportNamesShareBase | src/components/ExtractionResults.jsx:100 | The JSON and CSV names share one base and differ only in their suffix. |
| Export.TrailingExtensionStripped | src/components/ExtractionResults.jsx:100 | A name whose first `.pdf` is its ending loses exactly that ending. |
| Export.FileNameExampleUsual | src/components/ExtractionResults.jsx:100 | `form990.pdf` gives `form990_extracted.json` and `form990_extracted.csv`. |
| Export.FileNameExampleUpperCase | src/components/ExtractionResults.jsx:125 | The match is case-sensitive: `FORM.PDF` gives `FORM.PDF_extracted.csv`. |
| Export.FileNameExampleDoubled | src/components/ExtractionResults.jsx:125 | Only the first occurrence is removed: `a.pdf.pdf` gives `a.pdf_extracted.csv`. |
| Controller.OrFallback | src/App.jsx:43 | The `or`-with-fallback of a reply string: a missing or empty string gives the fallback, any other string is kept. |
| Controller.Classify | src/App.jsx:42-58 | A reply that is not ok fails with `detail` or the transport fallback, before the success flag is read. An ok reply succeeds exactly when its success flag is set or its data has a key (a key present with `null` included), and otherwise fails with `message` or `Extraction failed`. Only a thrown error can fail with an empty message. |
| Controller.SelectFile | src/App.jsx:11-15 | The new file replaces the held one, and the error and result are cleared. |
| Controller.RemoveFile | src/App.jsx:17-21 | File, error and result are all cleared. |
| Controller.Reset | src/App.jsx:66-70 | File, result and error are all cleared, and loading is untouched. |
| Controller.ResetIsRemove | src/App.jsx:66-70 | Reset is the same transition as removing the file. |
| Controller.BeginExtract | src/App.jsx:24-27 | Without a file nothing changes. With one, loading goes on and the error is cleared, and the earlier result stays. |
| Controller.FinishExtract | src/App.jsx:47-62 | Loading goes off. A success replaces the result and clears the error. A failure sets only the error and keeps the earlier result. |
| Controller.Extract | src/App.jsx:23-64 | Without a file nothing changes. Otherwise loading ends off, the error banner appears exactly on a failure with a non-empty message, a success replaces the result with the reply's data and clears the error, and a failure keeps the earlier result. |
| Controller.FailureKeepsEarlierResult | src/App.jsx:59-60 | After a success and then a failure, the earlier result and the error are shown together. |
| Controller.SilentFailure | src/App.jsx:59-62 | A thrown error with an empty message ends loading and shows no error. The result shown before stays unchanged, so when no earlier result is held, no result is shown. |
| Controller.NotOkFailsDespiteSuccessFlag | src/App.jsx:42-44 | A non-ok reply with `success: true` fails. An empty `detail` falls back to `Failed to extract data from PDF`. |
| Controller.PartialResultSucceeds | src/App.jsx:47-48 | Every ok reply whose data has at least one key succeeds with that data, whether the flag is false or set. |
| Controller.NullSectionKeyCounts | src/App.jsx:47-48 | A result whose only key is `page1` with a `null` value has one key and makes an ok reply with the flag false succeed. |
| Controller.EmptyResultFails | src/App.jsx:56-57 | An ok reply with the flag false and empty or missing data fails with `message` or `Extraction failed`. With the flag set it succeeds even without data. |
| Controller.ExtractClickActsIffEnabled | src/App.jsx:99 | Clicking extract changes the state exactly when a file is held and nothing is loading, and the click starts loading. |
| Controller.RemoveClickActsIffIdle | src/components/PDFUploader.jsx:94-98 | With a file held, clicking remove acts exactly when nothing is loading. |
| Controller.StepKeepsConsistent | src/App.jsx:11-70 | Every event keeps the invariant: without a file, nothing is loading and no result or error is shown; while loading, no error is shown. |
| Controller.RunKeepsConsistent | src/App.jsx:11-70 | Every event trace keeps that invariant, so a result is only ever shown next to a held file. |
| Controller.InitialConsistent | src/App.jsx:6-9 | The initial state (no file, not loading, no result, no error) satisfies the invariant. |
| Controller.ReachableConsistent | src/App.jsx:6-70 | Every state reachable from the initial state by any event trace satisfies the invariant: a result only next to a held file, and no error while loading. |
| Controller.Step | src/App.jsx:11-64 | One event's effect: only selecting or removing changes the file; only a settle sets a non-empty result or a new error; only a settle ends loading, and a settle with nothing loading changes nothing; loading starts only on an extract click with a file held. |
| Controller.HasData | src/App.jsx:47 | The result counts as data exactly when `data` is present and has at least one own key: a filename, a section, an errors list, a key present with `null`, or any other key. |
| Controller.CanExtract | src/App.jsx:99 | When the extract button is enabled, clicking it changes the state: loading starts on the same file and the error is cleared. |
| Controller.ErrorShown | src/App.jsx:88-93 | The error banner is shown exactly when the error is present and truthy as a string, so an empty message shows no banner. |
| Controller.ClickThenSettleIsExtract | src/App.jsx:23-64 | A click followed directly by the request settling is the whole of `handleExtract`. |
| Controller.ResultShownForReplacedFile | src/App.jsx:47-48 | A PDF dropped during an extraction does not cancel it, so the first file's result is then shown next to the second file. |
| Uploader.DragStep | src/components/PDFUploader.jsx:7-22 | Drag-enter turns the highlight on, drag-leave turns it off, and drag-over leaves it as it was. |
| Uploader.LastEnterOrLeaveDecides | src/components/PDFUploader.jsx:7-17 | After any event sequence, the last enter or leave decides the highlight. With neither, the highlight is unchanged. |
| Uploader.OverOnlyKeeps | src/components/PDFUploader.jsx:19-22 | Drag-over events alone never change the highlight. |
| Uploader.OnDrop | src/components/PDFUploader.jsx:24-33 | A drop always turns the highlight off. It forwards the first file exactly when that file's type is `application/pdf`. |
| Uploader.OnFileChange | src/components/PDFUploader.jsx:41-48 | The picker forwards the first chosen file whatever its type. An empty selection forwards nothing. |
| Uploader.RemoveOfferedWithExtract | src/components/PDFUploader.jsx:85-98 | The remove button is offered exactly when extraction is enabled; a file row shown without its remove button means an extraction is running. |
| Uploader.OpensPicker | src/components/PDFUploader.jsx:35-39 | The zone's click opens the picker only when nothing is loading; with a file held, the picker and the remove button are offered together. |
| Uploader.RemoveButtonShown | src/components/PDFUploader.jsx:94-98 | The remove button appears only inside the file row, exactly when extraction is enabled; a row without it means loading. |
| Uploader.ClickThenChoose | src/components/PDFUploader.jsx:35-48 | Clicking the zone and choosing files never changes loading; it changes the file only when idle and something was chosen, and then selects the first file and clears result and error. While loading it changes nothing. |
| Uploader.Drop | src/components/PDFUploader.jsx:29-32 | A PDF drop selects that file and clears the error and result. Any other drop leaves the whole application state as it was. |
| Uploader.Choose | src/components/PDFUploader.jsx:41-45 | Any non-empty picker selection selects its first file. An empty selection changes nothing. |
| Uploader.DropVersusChoose | src/components/PDFUploader.jsx:30 | For a non-empty file list, the drop and picker routes agree exactly when the first file is typed as a PDF, or when choosing it would change nothing. |
| Uploader.NonPdfDropIgnored | src/components/PDFUploader.jsx:30 | `application/PDF` and `text/plain` drops are ignored, but the picker takes the same files. |
| Uploader.OnlyFirstDroppedFileCounts | src/components/PDFUploader.jsx:29 | A drop whose first file is not a PDF is ignored, even when the second file is one. |
| Uploader.DropWhileLoadingReplacesFile | src/components/PDFUploader.jsx:24-39 | A PDF dropped while loading replaces the held file and keeps loading on, although remove is hidden; the picker route, offered the same file, leaves the state unchanged. |

## Left out

- The network request is not modelled: `fetch`, `FormData`, the API base URL from the environment, and JSON parsing of the reply. A reply enters as an already-parsed `Answered(ok, body)`, or as `Rejected(reason)` with the message of the error thrown by the network or by the parser.
- `async`/`await` scheduling is not modelled. An extraction is a click event and a later settle event. Events are atomic, and React's batching of state updates is not modelled.
- A body's `success` enters as its truthiness. `detail` and `message` enter as strings or missing. Non-string values of these properties are not modelled.
- Controller.HasData counts the keys of the result as the five read properties that hold a value plus `otherKeys`, which also counts each of those five present with `null`. Which of the five is `null` rather than missing is not recorded, because no reader tells them apart. A result that is not an object is not modelled.
- `JSON.stringify` of the result for the JSON export is not modelled, because it is a library serializer. Only the JSON file name is modelled.
- `Blob`, object URLs and the anchor-click download are not modelled. A missing `filename` makes `replace` throw before any download; the model gives no file name (`None`) instead.
- `formatFileSize` is not modelled, because it uses floating point. The file row's text is not modelled either.
- `Number.prototype.toString` is modelled on integers whose magnitude is at most 2^53 - 1 only. Non-integral numbers, exponent notation, booleans, arrays and objects as raw values are not modelled.
- React rendering, CSS classes, `preventDefault`/`stopPropagation`, and the reset of the picker input's value are not modelled. Whether the results view keeps its active tab when given a new result is not modelled.
- The picker's `accept` attribute is a dialog hint that the browser applies; the handler's behaviour is modelled without it.
- Nothing in the code calls `handleReset`. It is modelled as a function (`Controller.Reset`) but is not one of the trace events.
- Export.CsvDecodesBack: the round trip is proved for any field list whose labels and values contain no `"` and no line break. That this holds for the concrete 57 labels is not proved. A label or value that contains `"` does break the layout (`Export.QuoteInValueBreaksRow`).
- JsStrings.Split models `split` with a one-character separator only, which is the only form the code uses.
- JsStrings.NatToString and JsStrings.IntToString are the plain decimal form of unbounded integers. JavaScript's `toString` agrees with them only within the safe-integer range; larger numbers are not held exactly and from 10^21 print in exponent form. Numbers beyond 2^53 - 1 are not modelled.
- Values.NumberShownExactly: a raw number is a `SafeInteger` (magnitude at most 2^53 - 1), so the exact-display property is not stated for numbers that JavaScript rounds or prints in exponent form.
- Uploader.OpensPicker: the picker's gating is modelled by `Uploader.ClickThenChoose` but is not part of the event traces. `Controller.Step`'s `FileSelected` stands for either route, so a trace may select a file while loading, which only the drop route can do.
