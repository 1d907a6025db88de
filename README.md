# Record-ID exporter: verified model of the text side

This project models the part of the Corpus Synodalium export tool that turns search
results into text. A search service such as PhiloLogic returns an array of hits.
Each hit carries `metadata_fields` (a `record_id` and descriptive fields) and,
optionally, `citation_links`. The exporter produces three things from them:

- a sorted list of the distinct record ids (`getSortedIds`, and `processData` in the
  main component);
- one citation per distinct record (`getCitation`);
- one labelled multi-line block per distinct record, with a hit count and two
  viewer links (`getShortRecords`).

The main component also rewrites the user's search URL into a one-hit JSON probe. It
then fetches the full result set with the probe's total. Finally it saves a
plain-text report and builds that report's file name. While a request is in flight
it keeps a `loading` flag raised.

Files, one module each:

- `js_text.dfy` (`JsText`): the JavaScript string behaviour the code relies on, as
  functions with proved contracts. It covers truthiness, template interpolation
  (a missing value prints `undefined`), `indexOf`, `substring` with clamping,
  `replace` with a string pattern (first occurrence only), `Array.prototype.join`
  and decimal rendering of counts.
- `records.dfy` (`Records`): the hit datatype. It also holds the "first hit seen
  for each id" scan that an insertion-ordered `Set`/`Map` performs, as the function
  `FirstSeen`, and per-id hit counting (`CountHits`).
- `id_order.dfy` (`IdOrder`): the default `sort()` order, with strings compared
  character by character and a missing id last. It has a functional reference sort and the
  imperative pipeline (collect into a set, copy to an array, sort the array in
  place) proved equal to it.
- `export_utils.dfy` (`ExportUtils`): the three formatters and their inner helpers.
  They are methods with loops over the hits, proved against specification
  functions.
- `app.dfy` (`App`): the probe URL, `processData`, the file name and text, and the
  component's `loading` flag as a class.

A JavaScript `Map` or `Set` updated in a `forEach` loop becomes a Dafny `map` plus
a `seq` of its keys in insertion order, updated in a `for` loop. `ids.sort()`
becomes an insertion sort on an `array`. Missing metadata fields are
`Option<string>`.

## Model

| member | source | states |
|---|---|---|
| JsText.IndexOf | src/export-utils.js:43 | `indexOf` is -1 exactly when the pattern does not occur; otherwise it is the leftmost occurrence |
| JsText.FirstOccurrenceIsIndexOf | src/export-utils.js:43 | any leftmost occurrence is the one `indexOf` returns |
| JsText.Substring | src/export-utils.js:38 | `substring` gives the slice for in-range bounds, "" when both bounds are at most 0, and the whole string for (0, length or more) |
| JsText.PrefixBefore | src/export-utils.js:38 | `s.substring(0, s.indexOf(m))` is "" when `m` is absent; otherwise it is the text before the leftmost `m`, and `m` follows it in `s` |
| JsText.ReplaceFirst | src/App.js:97 | `replace` with a string pattern leaves the text unchanged when the pattern is absent; otherwise it substitutes the leftmost occurrence only |
| JsText.Join | src/export-utils.js:139 | `join` of no parts is ""; a join of some parts starts with the first part and ends with the last |
| JsText.JoinConcat | src/export-utils.js:139 | joining two non-empty lists equals joining each and putting one separator between them |
| JsText.JoinLeadingPair | src/export-utils.js:94-98 | a join whose first two parts are x and y starts with x, separator, y, separator |
| JsText.NatToString | src/export-utils.js:97 | `${n}` of a count is all decimal digits, with a leading "0" only for 0 |
| JsText.ParseNatToString | src/App.js:151-152 | reading the rendered digits back gives the count |
| Records.FirstSeen | src/export-utils.js:23 | the first-seen scan keeps at most as many hits as it is given |
| Records.FirstIndex | src/export-utils.js:23 | position of an id's first appearance: it holds the id, and no earlier position does |
| Records.FirstSeenSnoc | src/export-utils.js:23-31 | one more hit is kept exactly when its id has not been seen |
| Records.FirstSeenIds | src/export-utils.js:2-7 | the kept hits carry exactly the ids of the input, and every kept hit is an input hit |
| Records.FirstSeenDistinct | src/export-utils.js:23 | no id is kept twice |
| Records.FirstSeenIsFirstOccurrence | src/export-utils.js:23-31 | each kept hit is the first hit with its id, and kept hits follow the order of their ids' first appearance |
| Records.FilledStep | src/export-utils.js:23-31 | one step of the `has`/`set` scan keeps the map's keys equal to the ids of the first-seen hits, in insertion order, each holding the value built from its first hit |
| Records.FilledValues | src/export-utils.js:34 | after the scan, the values in key order are one per first-seen hit, built from that hit |
| Records.FirstSeenIgnoresRepeats | src/export-utils.js:23-31 | appending hits whose ids were already seen changes nothing |
| Records.CountHits | src/export-utils.js:56-64 | the count of hits with an id is at most the number of hits, and positive exactly when the id occurs |
| Records.HitCountsPartition | src/export-utils.js:56-64 | the hit counts of the distinct ids add up to the number of hits |
| IdOrder.StrLessIrreflexive | src/export-utils.js:8 | no string sorts before itself |
| IdOrder.StrLessTransitive | src/export-utils.js:8 | the character order on strings is transitive |
| IdOrder.StrLessTotal | src/export-utils.js:8 | of two different strings, one sorts first |
| IdOrder.IdLessIrreflexive | src/export-utils.js:8 | no id sorts before itself |
| IdOrder.IdLessTransitive | src/export-utils.js:8 | the id order, with a missing id last, is transitive |
| IdOrder.IdLessAsymmetric | src/export-utils.js:8 | two ids never sort before each other |
| IdOrder.IdLessTotal | src/export-utils.js:8 | of two different ids, one sorts first |
| IdOrder.NonDescendingDistinctIsStrict | src/export-utils.js:7-8 | a sorted list of distinct ids is strictly ascending |
| IdOrder.StrictlySortedUnique | src/export-utils.js:7-8 | two strictly ascending lists with the same elements are equal |
| IdOrder.Insert | src/export-utils.js:8 | inserting adds exactly one copy of the element |
| IdOrder.Sort | src/export-utils.js:8 | the reference sort is a permutation of its input |
| IdOrder.InsertSorted | src/export-utils.js:8 | inserting a new id into a strictly ascending list keeps it strictly ascending |
| IdOrder.SortSorted | src/export-utils.js:8 | sorting distinct ids gives a strictly ascending list |
| IdOrder.DistinctPermutation | src/export-utils.js:7-8 | a permutation of distinct ids is distinct |
| IdOrder.DistinctCard | src/export-utils.js:7 | a distinct list is as long as its set of elements |
| IdOrder.SortedIdsSpec | src/export-utils.js:1-10 | the sorted distinct ids are strictly ascending, are exactly the ids occurring in the hits, and number the distinct ids, at most the hit count |
| IdOrder.CollectIds | src/export-utils.js:2-7 | the `Set` filled in the loop and copied by `Array.from` holds the ids in order of first appearance |
| IdOrder.InsertLeft | src/export-utils.js:8 | moving element i left past every larger neighbour extends the sorted prefix by one, keeps the array's contents and leaves every element after position i as it was |
| IdOrder.SortInPlace | src/export-utils.js:8 | the in-place sort leaves the array in non-descending order and a permutation of what it held |
| IdOrder.DistinctSortedIds | src/export-utils.js:1-10 | collect, copy and sort give the reference sorted id list: strictly ascending, exactly the occurring ids, one per distinct id |
| ExportUtils.GetSortedIds | src/export-utils.js:1-10 | `getSortedIds` returns the distinct ids strictly ascending, exactly those in the hits, no more of them than hits |
| ExportUtils.Citation | src/export-utils.js:27-29 | a citation opens with "Place (Year), in " and ends with ", in " plus the edition when it is truthy, plus the rendered source otherwise |
| ExportUtils.Values | src/export-utils.js:34 | `[...map.values()]` lists the values in key insertion order |
| ExportUtils.GetCitation | src/export-utils.js:12-35 | one citation per distinct id, in first-appearance order, each built from the first hit with that id |
| ExportUtils.GetNumberOfHitsForRecord | src/export-utils.js:56-64 | the counting loop returns the number of hits whose id equals the argument |
| ExportUtils.LinkToFullText | src/export-utils.js:40-46 | the full-text link is baseURL, "/", the doc path before the leftmost "/table-of-contents" (empty when that is absent) and "/2" |
| ExportUtils.LinkToMetadata | src/export-utils.js:48-54 | the metadata link is baseURL, "/", the doc path before the leftmost "/table-of-contents" (empty when that is absent) and "/1" |
| ExportUtils.ViewerLinkShape | src/export-utils.js:40-54 | a viewer link is baseURL, "/", the doc path before the leftmost "/table-of-contents" (empty when that is absent), "/" and the page |
| ExportUtils.LinksDifferInPage | src/export-utils.js:40-54 | the full-text and metadata links of a hit agree except for the last character, "2" for the full text and "1" for the metadata |
| ExportUtils.FieldLinesExactly | src/export-utils.js:99-128 | one line per truthy field, in table order, and none for an absent or empty field |
| ExportUtils.BlockLinesExactly | src/export-utils.js:93-137 | a block holds the id and hit-count lines exactly when the id is truthy, then the field lines, then both links exactly when citation links exist, then the separator |
| ExportUtils.ShortRecordFrame | src/export-utils.js:94-139 | every joined block ends with the dashed separator; with a truthy id it opens with "Record ID: id" CRLF "Number of hits: n" CRLF, where n counts the hits with that id |
| ExportUtils.PushField | src/export-utils.js:99-101 | one `if (field) lines.push(...)` appends the labelled line exactly when the field is truthy and nothing otherwise, extending the lines of the fields before it |
| ExportUtils.PushFieldLines | src/export-utils.js:99-128 | the ten field statements append the field lines of the table, in order |
| ExportUtils.PushLinkLines | src/export-utils.js:129-136 | the two `if (result.citation_links)` statements append the full-text link line and then the metadata link line when the hit has citation links, and nothing otherwise |
| ExportUtils.BuildBlockLines | src/export-utils.js:93-137 | the pushed lines are the block's layout |
| ExportUtils.BuildBlock | src/export-utils.js:139 | the block text is its lines joined by CRLF |
| ExportUtils.CollectBlocks | src/export-utils.js:66-144 | one block per distinct id, in first-appearance order, each built from the first hit with that id and the hit counts of all hits |
| ExportUtils.GetShortRecords | src/export-utils.js:37-145 | as above, with links relative to the URL text before "/query?" |
| App.ProbeURL | src/App.js:97 | the probe URL is the input with its leftmost "end=0" replaced by "end=1" (unchanged when absent), then "&format=json" |
| App.ProbeURLChangesOneDigit | src/App.js:97 | the rewrite changes exactly one character of the URL, the "0" of the leftmost "end=0" |
| App.FullFetchQuery | src/App.js:104-105 | the query for the full fetch is the probe's query with `end` set to `results_length` |
| App.ProcessData | src/App.js:132-141 | `processData` returns the same list as `getSortedIds`: strictly ascending, exactly the occurring ids |
| App.DateString | src/App.js:145 | the date part is the first ten characters of the ISO date, or all of it when shorter |
| App.FileName | src/App.js:146 | the file name splits back into the date, "-", the report type, "-", the search string and ".txt" |
| App.BlobData | src/App.js:147-153 | the file text is a CRLF-separated list of lines: URL, blank, the four labelled lines, blank, then one line per id, or a single empty line when there are none; no CRLF follows the last line, which is empty when there are no ids or the last id is missing |
| App.SubmissionOutcome | src/App.js:100-119 | a submission ends in the "Invalid URL" alert exactly when the probe fails or has no query object, or when the full fetch fails |
| App.SavedReport | src/App.js:103-114 | a saved report lists every distinct id once in ascending order, states `results_length` as Total Hits and the distinct id count, and is named from date, report type and search string |
| App.App.constructor | src/App.js:85-92 | the component starts with `loading` false |
| App.App.Submit | src/App.js:96-99 | a submission raises `loading` and requests the probe URL |
| App.App.Settle | src/App.js:100-119 | when the requests settle, `loading` is lowered on the success path and the error path, and the outcome is the submission's |

## Left out

- React components and rendering (`MainCard`, `render`, `handleChange`, `handleSubmit`) are user interface.
- The HTTP requests (the probe GET and `fetchData`) are network I/O. Their results are inputs to `App.App.Settle`, and a failed request is `None`. `fetchData` swallows its error and resolves to `undefined`; `processData` then throws and the alert path runs. That case is modelled as `full == None`.
- The query parameters `fetchData` sends are not modelled: `Query` holds only the fields the report prints.
- The initial `inputURL` from `queryString.parse(window.location.search)` comes from the browser.
- `Blob`, `saveAs`, `console.error` and `window.alert` are side effects. The model returns the file name and text, or the alert message, as an `Outcome`.
- `new Date().toISOString()` reads the clock; the ISO date text is a parameter.
- Promise chaining and overlapping submissions: the model settles one submission at a time.
- App.Query: `end` is a number; the probe's original `end` value, possibly text, is overwritten before use. A missing `results_length` (which would print "undefined") is not modelled.
- Records.Metadata: a JSON `null` field is treated like a missing one (`None`). This agrees for truthiness but not elsewhere. Interpolation prints `null` as "null". A `Set` or `Map` keeps `null` and `undefined` as two different keys, while the model merges both into `None`: a hit with `record_id: null` and a hit without `record_id` give two unique ids in JavaScript and one here. `sort()` moves only `undefined` to the end and orders `null` as the string "null", while the model puts `None` last. A numeric `record_id` is not modelled: ids are strings or missing.
- App.FullResponse: a full response always has a `results` array, and every hit has `metadata_fields`. A response without `results`, or a hit without `metadata_fields`, makes `processData` throw, and the JavaScript then shows the "Invalid URL" alert. The model cannot represent such responses; the only failure it models is a fetch that yields nothing (`None`).
- App.App.Submit: takes the URL as a string. When there is no URL (no `?url=` in the page address and nothing typed), `url.replace` throws before `loading` is raised: no request is made, no alert is shown and `loading` stays false. That path is not modelled.
- ExportUtils.LinkToFullText: a hit with `citation_links` but no `doc` makes the JavaScript throw; the model requires `doc`.
- Strings are sequences of Unicode scalar values (Dafny `char`), where JavaScript uses UTF-16 code units. The two agree for text inside the Basic Multilingual Plane. Outside it, a character is one element here and two code units in JavaScript, so `indexOf`/`substring` positions and lengths differ. No normalisation is modelled.
- IdOrder.StrLess: orders strings by scalar value, not by JavaScript's UTF-16 code units. For ids holding characters outside the Basic Multilingual Plane the orders differ: "\u{10000}" sorts before "\uFFFF" in JavaScript (its first code unit is 0xD800) and after it here, so `getSortedIds` and `processData` can order such ids differently.
- `getSortedIds` and `processData` have the same body. Both are modelled by the one method `IdOrder.DistinctSortedIds`.
- The code does not call the three formatters from the main component. It has no export-mode dispatch and does not suppress an empty file. None of these is modelled.
