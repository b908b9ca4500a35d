# Box label tool: row pipeline and page logic

This is a Dafny model of the core of a tool that turns column-pasted spreadsheet data into box labels. Each label carries:
- barcodes for box id, P/N, QTY and MPN;
- a QR code;
- a summary joined with double bars, the "pill".

The model has two halves.

- **Server route, `app/api/render/route.ts`** (`POST`).
  - Column validation, with its fixed error precedence.
  - Per-row trimming, 4L upper-casing and defaults.
  - The `BB`/`P`/`Q`/`1P`/`4L` field tokens, the QR payload, the pill and the file name.
  - The vendor code taken from the box id (`deriveVD`).
  - `escapeXml` and the caption strings of the SVG template.
  - The row loop, which stops at the first failing row.
  - The barcode, QR and rasteriser libraries are function parameters (`RenderRoute.Encoders`). The model never looks inside them.
- **Page, `app/page.tsx`.**
  - Parsing the textareas into columns, and the line counts shown beside them.
  - The client copy of column validation: the marked inputs and the composed message.
  - `onInputChange`.
  - The streamed-answer reader. It splits text arriving in chunks into complete lines, keeps the incomplete tail, dispatches each line as a message and reads the tail once more at the end.
  - The state `handleSubmit` leaves behind.
  - `handleBatchDownload`: which results become archive entries, their names, and the `labels-YYYYMMDD-HHMMSS.zip` name.

Modules:
- `Basics`: Option/Result, filter, join, split, find-index.
- `Text`: JavaScript `trim`, ASCII upper case, digits, decimal numerals, replace-all.
- `LabelSvg`: `escapeXml` and the captions.
- `RenderRoute`: the route.
- `LabelPage`: parsing, validation and input edits on the page.
- `StreamClient`: the stream reader and `handleSubmit`.
- `BatchDownload`: the zip download.

Points where the code's behaviour is easy to misread:
- `deriveVD` falls back to the raw characters of the box id only when the box id has **no** digit. A box id with one to five digits gives those digits; for example `"AB1CDEFG"` gives `"1"`.
- The pill always has five tokens. An empty 4L value shows as `N/A` rather than being left out. Only the QR payload drops it.
- The server checks the description column as an optional column. The page does not check it at all.

## Model

| member | source | states |
|---|---|---|
| Basics.Column | app/api/render/route.ts:39 | a column past the end of the list reads as the empty column, and any other column reads as given |
| Basics.FindIndex | app/api/render/route.ts:47 | `findIndex` gives -1 exactly when no element passes; otherwise it gives the first element that passes |
| Basics.Split | app/page.tsx:124 | `split` gives at least one piece, and no piece contains the separator |
| Basics.JoinSplit | app/page.tsx:124 | joining the pieces of a split with the separator gives back the text |
| Basics.FilterMembers | app/page.tsx:50 | an element survives a filter exactly when it was there and passes |
| Text.Trim | app/api/render/route.ts:120-122 | the result has no surrounding whitespace and is no longer than the input; it is empty exactly when the input is all whitespace; trimmed text is left unchanged |
| Text.TrimIsSlice | app/api/render/route.ts:120-122 | the trimmed text is a slice `s[i..j]` of the input, with only whitespace before `i` and from `j` on; with the no-surrounding-whitespace clause of Trim, this fixes the result |
| Text.TrimIdempotent | app/api/render/route.ts:120-122 | trimming twice is trimming once |
| Text.AllSpaceTrim | app/page.tsx:128 | `!line.trim()` holds exactly when every character of the line is whitespace |
| Text.ToUpper | app/api/render/route.ts:69 | same length; each lower-case ASCII letter becomes the upper-case letter at the same place in the alphabet, and every other character is kept |
| Text.ToUpperTrimmed | app/api/render/route.ts:69-70 | upper-casing a trimmed value keeps it trimmed, and keeps it non-empty exactly when it was non-empty |
| Text.Digits | app/api/render/route.ts:148 | only digits remain, and the result is non-empty exactly when the input has a digit |
| Text.Take | app/api/render/route.ts:149 | `slice(0, n)` is the prefix of length min(n, length) |
| Text.Decimal | app/api/render/route.ts:76 | `String(n)` is a non-empty run of digits with no leading zero |
| Text.DecimalRoundTrip | app/api/render/route.ts:76 | reading back the decimal numeral of n gives n |
| Text.ReplaceAll | app/api/render/route.ts:226-231 | after replacing every c by a text without c, no c is left; text without c is unchanged |
| LabelSvg.EscapeXmlIsPerCharacter | app/api/render/route.ts:225-232 | the five chained replacements, `&` first, equal replacing each character by its own entity in a single pass |
| LabelSvg.EscapeXmlIsClean | app/api/render/route.ts:225-232 | the output holds no raw `<`, `>`, `"` or `'`, and every `&` in it starts one of the five entities |
| LabelSvg.EscapeXmlIdentity | app/api/render/route.ts:225-232 | text without any of the five special characters is returned unchanged |
| LabelSvg.EscapeXmlRoundTrip | app/api/render/route.ts:225-232 | decoding the five entities recovers the input |
| LabelSvg.CaptionsCarryValues | app/api/render/route.ts:205-218 | each of the six escaped captions is its fixed label followed by text that holds no raw `<`, `>`, `"` or `'`, whose every `&` starts an entity, and which decodes back to the value; the box caption is `[B]BOX ID:B` + box id |
| LabelSvg.EscapedValue | app/api/render/route.ts:225-232 | an escaped value holds no raw markup, every `&` in it starts an entity, and it decodes back to the value |
| LabelSvg.BoxCaptionUnescaped | app/api/render/route.ts:205 | the box caption is not escaped, so a `<` in a box id reaches the SVG raw |
| RenderRoute.ValidateColumns | app/api/render/route.ts:35-60 | success means at least four columns, and yields the non-zero length of the BOX ID column |
| RenderRoute.ValidateAcceptsConsistent | app/api/render/route.ts:35-60 | validation succeeds exactly when there are at least 4 columns, BOX ID is non-empty, P/N, QTY and MPN match its length, and Maker, 4L and Desc are each empty or match it |
| RenderRoute.MissingColumnsFirst | app/api/render/route.ts:35-37 | a missing array or fewer than 4 columns is reported first, with the "缺少必要列数据" message |
| RenderRoute.EmptyBoxIdSecond | app/api/render/route.ts:39-43 | with at least 4 columns, an empty BOX ID column is the error |
| RenderRoute.FirstRequiredMismatchNamed | app/api/render/route.ts:45-50 | the first of P/N, QTY, MPN whose length differs from the row count is the one named |
| RenderRoute.FirstOptionalMismatchNamed | app/api/render/route.ts:52-60 | when the required columns match, the first of Maker, 4L, Desc that is neither empty nor full length is named |
| RenderRoute.EmptyOptionalNeverNamed | app/api/render/route.ts:57 | an empty optional column is never the one named |
| RenderRoute.NormalizeFourL | app/api/render/route.ts:69 | the 4L value is the upper-cased trimmed cell. It is trimmed and has no lower-case ASCII letter, and it is empty exactly when the raw cell trims to empty |
| RenderRoute.NormalizeRow | app/api/render/route.ts:64-69 | every value of the row is trimmed; a present cell gives its trimmed text (the 4L cell trimmed and upper-cased); a missing cell gives "" |
| RenderRoute.CleanRowUnchanged | app/api/render/route.ts:64-69 | cells that are already trimmed, with an upper-case 4L value, pass through normalisation unchanged |
| RenderRoute.PillFormat | app/api/render/route.ts:109 | the pill is exactly the five tokens `BB`+box, `P`+pn, `Q`+qty, `1P`+mpn, then `4L`+4L (or `N/A` when 4L is empty), in that order, joined by the double-bar separator |
| RenderRoute.QrTextAgainstPill | app/api/render/route.ts:79-83 | the QR payload equals the pill when 4L is non-empty; otherwise it is the first four tokens joined by the double-bar separator, with no `N/A` |
| RenderRoute.DeriveVD | app/api/render/route.ts:147-150 | at most 6 characters; with a digit in the box id it is the first min(6, #digits) digits in order, otherwise the first min(6, length) raw characters |
| RenderRoute.DeriveVDOneDigit | app/api/render/route.ts:148-149 | `"AB1CDEFG"` gives `"1"`: a single digit wins over the raw characters |
| RenderRoute.DeriveVDNoDigit | app/api/render/route.ts:149 | `"ABCDEFGH"` gives `"ABCDEF"` |
| RenderRoute.VdText | app/api/render/route.ts:71 | a non-blank shared vendor code is used trimmed; otherwise the code comes from the box id and has at most 6 characters |
| RenderRoute.DisplayDefaults | app/api/render/route.ts:70-73 | maker shows `MAKER` when empty; CoO shows `N/A` and there is no 4L token when 4L is empty; otherwise the value and `4L`+value |
| RenderRoute.ComposeLabel | app/api/render/route.ts:85-111 | a row renders exactly when the five `Promise.all` calls and the rasteriser all succeed; otherwise the message is that of the first failing call in argument order, or else the rasteriser's; a rendered row has the row's pill and file name, and its image is the PNG data URI of the rasterised document; a missing field is never reported here |
| RenderRoute.MissingFieldExactly | app/api/render/route.ts:75-77 | a row is rejected as missing a field exactly when box, P/N, QTY or MPN is empty after trimming |
| RenderRoute.RenderedRowShape | app/api/render/route.ts:79-111 | a rendered row has all four required values, the five-token pill, the file name P/N + `.png` (the `label-N` fallback cannot occur) and a PNG data URI |
| RenderRoute.RenderRows | app/api/render/route.ts:62-114 | success means one result per row, in row order, with the label hints attached; failure means every earlier row rendered, and the answer is that of the first row that did not |
| RenderRoute.Post | app/api/render/route.ts:30-118 | a validation failure gives 400 with its message and no rows; otherwise one result per row in order, or the answer of the first failing row (400 naming the 1-based row, or 500) |
| RenderRoute.SingleRowExample | app/api/render/route.ts:64-111 | the one-row request `[["B1"], ["P1"], ["5"], ["M1"], [], [], []]` reads as the row B1/P1/5/M1 with nothing optional, which gives the pill of the tokens `BBB1`, `PP1`, `Q5`, `1PM1`, `N/A` and the file `P1.png` |
| RenderRoute.SingleRowAccepted | app/api/render/route.ts:35-60 | a one-row set with empty optional columns is accepted with row count 1 |
| RenderRoute.ShortQtyExample | app/api/render/route.ts:45-50 | a QTY column shorter than BOX ID is reported by name |
| LabelPage.DropCr | app/page.tsx:64 | a line ending in `\r` loses exactly that one `\r`; any other line is left unchanged |
| LabelPage.SplitLines | app/page.tsx:64 | `split(/\r?\n/)` gives the pieces of the split at `\n`, each losing a trailing `\r`, except the last |
| LabelPage.TrimAll | app/page.tsx:65 | each line is trimmed in place |
| LabelPage.ParseColumn | app/page.tsx:62-67 | every entry of a parsed column is non-empty and trimmed |
| LabelPage.ParseColumns | app/page.tsx:62-67 | one column per textarea, in order |
| LabelPage.Counts | app/page.tsx:42 | one count per textarea, in order |
| LabelPage.CountTrimmedLines | app/page.tsx:42 | counting non-blank lines equals counting the trimmed lines that are non-empty |
| LabelPage.CountsMatchColumns | app/page.tsx:42 | the count beside each textarea equals the length of the column parsed from it |
| LabelPage.CheckColumns | app/page.tsx:69-97 | a rejection always marks at least one input and carries a non-empty message |
| LabelPage.EmptyBoxIdMarksOnlyBox | app/page.tsx:70-73 | an empty BOX ID column marks exactly `[0]` with the BOX ID message |
| LabelPage.InvalidRequiredUnfolded | app/page.tsx:75-84 | the offending required slots are P/N, QTY, MPN, in that order, each kept when its length differs from the row count |
| LabelPage.InvalidOptionalUnfolded | app/page.tsx:80-85 | the offending optional slots are Maker and 4L, in that order, each kept when filled and of the wrong length |
| LabelPage.RequiredMarks | app/page.tsx:84 | a required index 1–3 is marked exactly when its column is offending, and the marks increase |
| LabelPage.OptionalMarks | app/page.tsx:85 | an optional index 4–5 is marked exactly when its column is offending, and the marks increase |
| LabelPage.MarkedExactlyOffending | app/page.tsx:84-86 | `invalidIdx` holds exactly the offending indices, in increasing order, and never 6 |
| LabelPage.CheckUsesMarkedInputs | app/page.tsx:86-88 | with a non-empty BOX ID the check passes exactly when nothing is marked; otherwise it marks `invalidIdx` |
| LabelPage.CheckMarksExactlyOffending | app/page.tsx:84-88 | with a non-empty BOX ID the check passes exactly when no input 0–6 is offending; a rejection marks exactly the offending inputs, in order, never 6 |
| LabelPage.MessagePart | app/page.tsx:89-94 | a message part is empty exactly when its list of offending columns is empty, and otherwise starts with its prefix |
| LabelPage.MessagePartNames | app/page.tsx:89-94 | after the prefix, splitting a non-empty part at `、` gives back the offending names in order, provided no name contains `、` |
| LabelPage.TwoShortRequiredMarked | app/page.tsx:84-96 | short P/N and QTY columns mark inputs 1 and 2, and the message names `P/N、QTY` |
| LabelPage.MismatchMessage | app/page.tsx:95-96 | the composed message is never empty |
| LabelPage.CheckMessageParts | app/page.tsx:89-96 | the message is the required part and the optional part, joined by `；` when both are non-empty |
| LabelPage.ShortQtyMarked | app/page.tsx:84-93 | a short QTY column marks exactly `[2]` with the message naming QTY |
| LabelPage.DescCheckedOnlyByServer | app/page.tsx:80-83 | a description column of the wrong length passes the page check, while the server route (route.ts line 55) rejects it naming Desc |
| LabelPage.Unmark | app/page.tsx:50 | the marks kept are exactly the old ones other than `index` |
| LabelPage.UnmarkKeepsOrder | app/page.tsx:50 | unmarking distributes over concatenation, so the order is kept; a list without `index` is unchanged |
| LabelPage.OnInputChange | app/page.tsx:44-51 | only entry `index` of the inputs changes, to the new text; the marks become `Unmark` of the old ones: `index` is removed, and the others stay in order |
| LabelPage.OnlyFourLUpperCases | app/page.tsx:257 | typing into the 4L box (index 5) stores the upper-cased text; every other box stores it as typed |
| StreamClient.Aborts | app/page.tsx:128-143 | a non-blank line aborts exactly when its parse throws, or it is an `error` message, with a message that is non-empty and does not mention JSON; the abort carries that message; every other line does not abort |
| StreamClient.Dispatch | app/page.tsx:127-144 | a line fails exactly when it aborts, with that message; a blank line changes nothing; a line appends at most one result and keeps the earlier ones |
| StreamClient.DispatchAllStops | app/page.tsx:137-141 | once a line has aborted, later lines change nothing |
| StreamClient.ResultsInArrivalOrder | app/page.tsx:133-134 | without an abort, the results are the earlier ones followed by the data of the `result` lines in arrival order |
| StreamClient.AbortsSomewhere | app/page.tsx:127-144 | a run of lines fails exactly when one of its lines aborts |
| StreamClient.AbortAtFirstError | app/page.tsx:127-144 | a failed run stops at an aborting line: the view is the one left by the lines before it, and the failure is that line's message |
| StreamClient.TerminatedSplit | app/page.tsx:124-125 | the completed lines, each followed by `\n`, and then the kept tail, give back the buffer |
| StreamClient.SplitTerminated | app/page.tsx:124-125 | splitting completed lines followed by a tail gives those lines, then the pieces of the tail |
| StreamClient.FlushTail | app/page.tsx:147-157 | the final tail adds at most one result and never changes the progress; a blank tail changes nothing |
| StreamClient.StreamResults | app/page.tsx:119-157 | without an abort, the results shown are the data of every `result` line in order, the tail included |
| StreamClient.StreamAborts | app/page.tsx:119-157 | the stream fails exactly when a complete line (not the tail) aborts |
| StreamClient.ReadStream | app/page.tsx:116-157 | reading the chunks one by one gives the outcome of the whole text split at `\n`; the loop keeps the buffer free of `\n` and keeps the processed lines plus the buffer equal to the text received so far; a failure is a rethrown message |
| StreamClient.DispatchLines | app/page.tsx:127-145 | the inner loop over one chunk's lines leaves the outcome of all lines dispatched so far; on an abort it reports where it stopped |
| StreamClient.ShownError | app/page.tsx:159 | the error shown is the message when it is non-empty, and otherwise exactly `生成失败，请稍后重试` |
| StreamClient.HandleSubmit | app/page.tsx:53-164 | a failed check marks its inputs, shows its message and sends nothing; a passed check sends the parsed columns and the vendor code; a streamed body leaves its results and its abort message; a refused reply shows its `error` field (or the fallback), or the message `res.json()` threw; a failed fetch shows its message (or the fallback); a missing body shows its own message; none of these leaves results; loading and progress are cleared; the error is empty exactly when the stream completed |
| BatchDownload.Payload | app/page.tsx:197-202 | an image without `,` is skipped; a payload is the non-empty text after the first `,`, up to the next `,` or the end |
| BatchDownload.EntryName | app/page.tsx:203 | the entry name is the result's own file name when there is one, and otherwise exactly `label.png` |
| BatchDownload.Lookup | app/page.tsx:203 | a name is found exactly when the archive holds an entry under it |
| BatchDownload.PutNames | app/page.tsx:203 | `zip.file` keeps the names in their places, and a new name comes last (for names that are not array indices) |
| BatchDownload.PutLookup | app/page.tsx:203 | after `zip.file`, its name holds its data, and every other name is unchanged |
| BatchDownload.PutKeepsNamesDistinct | app/page.tsx:203 | no name is ever held twice |
| BatchDownload.ArchiveHoldsLastPayload | app/page.tsx:196-205 | under each name, the archive holds the payload of the last result written under it |
| BatchDownload.ArchiveNames | app/page.tsx:196-205 | a name is in the archive exactly when some result with a payload is written under it |
| BatchDownload.ArchiveNamesDistinct | app/page.tsx:196-205 | the archive never holds one name twice |
| BatchDownload.LastPayloadFound | app/page.tsx:196-205 | the reference definition finds a payload exactly when some result with a payload has that name |
| BatchDownload.CollectArchive | app/page.tsx:196-205 | the `for…of` loop builds the archive of the results, in order |
| BatchDownload.Pad | app/page.tsx:213 | `pad(v)` is all digits, two of them for v < 100, and otherwise as long as `String(v)` |
| BatchDownload.PadRoundTrip | app/page.tsx:213 | reading `pad(v)` back gives v |
| BatchDownload.Stamp | app/page.tsx:214-216 | the stamp is all digits apart from its `-` |
| BatchDownload.StampFields | app/page.tsx:212-216 | for a four-digit year the stamp is 15 characters with `-` at 8, and year, month (from 1), day, hour, minute and second read back from their places |
| BatchDownload.ArchiveNameParts | app/page.tsx:217 | the archive is named `labels-` + stamp + `.zip` |
| BatchDownload.HandleBatchDownload | app/page.tsx:189-224 | nothing is saved without results; otherwise the archive of the results is saved under the name for the time given, even when every result was skipped |

## Left out

- The SVG geometry: the pixel scales, rounding, font sizes and QR size of `buildSvg` are floating point. Only the caption strings are modelled; the rest of the document is the `SvgDoc` datatype of the images and captions.
- Barcode, QR and PNG generation (bwip-js, qrcode, sharp) are function parameters. Their output is never looked at.
- `Promise.all`: the five encodings run concurrently in the source. The model takes the first failure in argument order, since the rejection that wins a race is not modelled.
- RenderRoute.Post: the request's `columns` is taken to be an array of arrays of strings, and `vd` a string or absent. Outside those types the source behaves as follows, and the model does not cover it:
  - A `null` column is not replaced by the destructuring default. It throws a TypeError at `length`, and the answer is 500, when validation reaches it. `findIndex` stops at the first failing column, so `[["B1"], [], null, ["M1"]]` still answers 400 naming P/N. A `null` optional column is read only when P/N, QTY and MPN all match.
  - A falsy cell (`null`, `0`, `false`) reads as `""` through `(v || '').trim()`. That is the model's empty string: a 400 for the row in a required column, an empty field in an optional one.
  - Only a truthy non-string cell throws (500).
  - A falsy `vd` falls back to `deriveVD`, like an empty one. A truthy non-string `vd` throws (500).
- Text.Take: counts characters, while `slice(0, 6)` counts UTF-16 code units. A box id with no digit and with characters outside the Basic Multilingual Plane gives a different vendor code in the source than in the model.
- The transport: `req.json`, `NextResponse`, `fetch`, `res.json`, the stream reader, `TextDecoder` and `JSON.parse`.
  - The request body, the reply and the chunks (as decoded text) are parameters.
  - Parsing is a function parameter that yields a message or the message it threw.
  - A multi-byte character split across chunks is not modelled.
- The server answers with a single JSON object, while the page reads newline-separated typed messages. The page's reader is modelled as written. The two ends are not composed.
- `new Date()`: the clock readings are a parameter.
- Text.ToUpper: upper case covers ASCII letters only, not the full Unicode mapping of `toUpperCase`.
- Text.Trim: the whitespace set is the character list of JavaScript's `trim`. Surrogate pairs are not treated specially.
- BatchDownload.PutNames: the archive keeps its names in insertion order. JSZip holds its files in a plain object, where names that are array indices (such as `7`) come first, in numeric order. The entry order for such names is not modelled.
- BatchDownload.StampFields: stated for four-digit years only. Other years give a stamp of another length, which is still modelled by Stamp.
- BatchDownload.HandleBatchDownload: the archive is the list of its entries. Base64 decoding, DEFLATE compression, folder entries for names containing `/`, `saveAs`, the `downloading` flag and the alert on failure are not modelled.
- React state and rendering, `localStorage` persistence of the vendor code, the clipboard copy (`handleCopy`), the progress display and `app/layout.tsx` are not part of this model.
