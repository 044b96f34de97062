# evegah-rider: the data logic of the dashboard, modelled in Dafny

evegah-rider is the operations dashboard and employee tool of an electric-vehicle
rental business. Most of it is React screens and REST calls. This project models
the pieces that compute something, and proves what they promise:

- **Vehicle-ID catalogue** (`VehicleIds`). Covers:
  - the search key of an ID;
  - the de-duplicating flattening of the catalogue;
  - the group picked for a bike model;
  - the query filter over the groups.
- **Receipt file names** (`ReceiptPdf`, and `RidersTable.ParseDownloadFileName`). The file name taken from a
  `Content-Disposition` header. The extended `filename*` parameter of section 3.2.1
  of RFC 8187 wins over the plain `filename`, as section 4.3 of RFC 6266 describes.
  `decodeURIComponent` and `encodeURIComponent` are modelled concretely over UTF-8
  (`Uri`), and their round trip is proved.
- **Invoice links** (`Invoice`). The receipt label and the PDF link derived from the
  route's id and path.
- **Import-cycle finder** (`FindCycles`). Covers:
  - candidate-path resolution against a set of files on disk;
  - construction of the import graph;
  - the depth-first search (`CycleSearch`, a class over `visited`, `stack` and `cycles`);
  - the report.
- **Retain-rider checkout** (`RetainRider`). Covers:
  - numeric input sanitising;
  - the cash/online split;
  - payment modes;
  - accessory toggling;
  - the eight-photo cap;
  - the ordered guard sequence of `handleComplete`, including the rule that chooses between a new booking and an update of the active rental;
  - prefill from the last rental;
  - the payment-status poll step.
- **Admin tables** (`RidersTable`, `BatterySwaps`, `RentalsTable`, `ReturnsTable`,
  `AdminUsers`). Covers:
  - the paged fetch-all loop;
  - date-range and substring filters;
  - grouping by rider and per-rider ride numbering (`RideLabels`);
  - summary sums;
  - ten-row pagination with reset and clamp (`Tables`);
  - selection toggling and pruning;
  - the state updates after create, edit and delete calls.

Shared modules: `Wrappers` (Option, `Outcome` of an API call), `Strings` (trim,
ASCII case mapping, substring search, split and join on `/`), `Seqs` (filter,
subsequence, toggle and set-like list operations, sums), `Sorting` (stable insertion
sort by an integer key), `Grouping` (the `Map` filled by a `forEach`, as keys in
insertion order and a map of lists), `Tables` (time stamps, `isWithinDateRange`,
`totalPages`, `pageRows` and the `Pager` class).

Conventions used throughout:
- A value `Date.parse` reads is a `Stamp` (`Missing`, `Bad`, or a time in milliseconds).
  A day bound of the date filter is a `DayBound`.
- Money is whole numbers.
- An API call is a parameter: its `Outcome`, or a function from the call's number to its reply.
- Code that mutates state in place is modelled as a class with `modifies` clauses:
  - the pager;
  - each screen's state;
  - the cycle search.
- Loops in the source are methods with loop invariants, each proved equal to a
  specification function:
  - `flattenVehicleIdGroups`;
  - the `tries` list;
  - the graph scan;
  - the page loops;
  - the `forEach` that fills a map;
  - the label assignment.

## Model

| member | source | states |
|---|---|---|
| VehicleIds.VehicleModelOptions | src/utils/vehicleIds.js:135 | the model options are the catalogue's labels, in catalogue order |
| VehicleIds.NormalizeForSearch | src/utils/vehicleIds.js:5-8 | the key holds only upper-case letters and digits and is no longer than the input |
| VehicleIds.NormalizeIdempotent | src/utils/vehicleIds.js:5-8 | normalising a key again changes nothing |
| VehicleIds.NormalizeIgnoresSeparators | src/utils/vehicleIds.js:5-8 | a character other than a letter or digit inserted anywhere does not change the key |
| VehicleIds.FlattenVehicleIdGroups | src/utils/vehicleIds.js:137-149 | the nested loops with the `seen` set produce exactly `FirstByKey` of all catalogue IDs |
| VehicleIds.AddGroupIds | src/utils/vehicleIds.js:141-146 | the inner loop extends the first-by-key list by one group and keeps `seen` equal to the keys emitted |
| VehicleIds.FlattenFacts | src/utils/vehicleIds.js:137-149 | the flat list is an order-preserving subsequence of the groups' IDs; every ID comes from a group; no two share a key; no key is blank; every non-blank key of the catalogue is present |
| VehicleIds.FirstByKeyFirstWins | src/utils/vehicleIds.js:142-145 | each kept ID is the earliest input ID carrying its key |
| VehicleIds.FirstByKeyKeys | src/utils/vehicleIds.js:141-146 | the keys emitted are exactly the non-blank keys of the input, each once, none blank |
| VehicleIds.FindByLabelKey | src/utils/vehicleIds.js:159 | the lookup returns the first group whose label has the key, and none only when no label has it |
| VehicleIds.GroupsForModel | src/utils/vehicleIds.js:154-161 | a blank model gives the whole catalogue; a model whose key matches a label gives exactly that one group; any other gives the whole catalogue |
| VehicleIds.FilterBlankQuery | src/utils/vehicleIds.js:163-169 | a blank query returns the groups unchanged |
| VehicleIds.NarrowFacts | src/utils/vehicleIds.js:172-180 | a narrowed group keeps its label; its IDs are an ordered subsequence of the group's IDs; an ID is kept iff its upper-cased text holds the trimmed upper-cased query or its key holds the query's key |
| VehicleIds.FilterNonBlankQuery | src/utils/vehicleIds.js:171-182 | every group of the result is non-empty and is a narrowed input group; every non-empty narrowed group is kept, in order |
| Uri.Decode | src/pages/Invoice.jsx:11 | a decoded text is never longer than its input, and is empty only for empty input |
| Uri.DecodeFailsAtBadEscape | src/pages/Invoice.jsx:11-14 | decoding fails at the first `%` not followed by two hex digits, whatever precedes it |
| Uri.TrailingPercentFails | src/pages/Invoice.jsx:11-14 | a text ending in a lone `%`, such as `50%`, does not decode |
| Uri.InvalidLeadByteFails | src/pages/Invoice.jsx:11-14 | an escape `%FF`, which no UTF-8 sequence starts with, does not decode |
| Uri.DecodeWithoutPercent | src/pages/Invoice.jsx:11 | text without `%` decodes to itself |
| Uri.EncodeAlphabet | src/pages/Invoice.jsx:63 | `encodeURIComponent` writes only unreserved characters, `%` and hex digits |
| Uri.DecodeEncode | src/pages/Invoice.jsx:63 | decoding what `encodeURIComponent` wrote gives the text back |
| ReceiptPdf.FileNameFromContentDisposition | src/utils/riderReceiptPdf.js:3-22 | a blank header gives `EVegah_Receipt.pdf`; the extended value wins and is percent-decoded, or used raw when decoding fails; then the plain value; with neither, the default; the name is never empty and never holds a forbidden character |
| ReceiptPdf.ExtendedValue | src/utils/riderReceiptPdf.js:7-8 | there is a value exactly when `filename*=UTF-8''` followed by a character other than `;` occurs (letters in either case); the value is the whole run after the leftmost such match, up to the first `;` or the end: non-empty and without `;` |
| ReceiptPdf.PlainValue | src/utils/riderReceiptPdf.js:16-17 | there is a value exactly when `filename=` can match; the value is the whole run from the leftmost match's value start (after an opening quote) up to the first `"` or `;` or the end: non-empty, so surrounding quotes are dropped |
| ReceiptPdf.Sanitize | src/utils/riderReceiptPdf.js:10 | the result holds no forbidden character, is never longer than the input, and is empty only for empty input |
| ReceiptPdf.SanitizeRun | src/utils/riderReceiptPdf.js:18 | a run of forbidden characters becomes a single `_` |
| ReceiptPdf.SanitizeClean | src/utils/riderReceiptPdf.js:18 | a name without forbidden characters is left as it is, so sanitising is idempotent |
| RidersTable.ParseDownloadFileName | src/pages/admin/RidersTable.jsx:375-387 | the extended value wins, percent-decoded when it decodes and taken raw when decoding throws; without it, the plain value; with neither, the fallback; nothing is trimmed or replaced |
| RidersTable.ParseRawOnFailure | src/pages/admin/RidersTable.jsx:378-383 | the raw branch is reachable: the header `filename*=UTF-8''50%` gives the name `50%` |
| RidersTable.ReceiptNameIsSanitized | src/pages/admin/RidersTable.jsx:375-387 | on a non-empty header without surrounding white space, the receipt parser's name is this parser's name, with the default as fallback, sanitised |
| Invoice.DecodeSafe | src/pages/Invoice.jsx:7-15 | the result is blank exactly when the trimmed input is; a non-blank value that decodes comes back decoded; when decoding fails it is the trimmed input |
| Invoice.DecodeSafePlain | src/pages/Invoice.jsx:7-15 | a trimmed value without `%` is returned unchanged |
| Invoice.LastSegmentFacts | src/pages/Invoice.jsx:29-32 | the last segment is a non-empty piece of the text without `/`; there is none exactly when the text is only slashes |
| Invoice.NormalizedId | src/pages/Invoice.jsx:17-35 | an id without a path is shown decoded; neither gives no label; the path wins; a value holding `/` is shown by its last segment; a label is never empty |
| Invoice.StripOriginOfUrl | src/pages/Invoice.jsx:50 | an `https://host` origin in front of a path is removed and the path kept |
| Invoice.StripLeadingSlashes | src/pages/Invoice.jsx:54 | the result is a suffix of the input that does not start with `/`, and only slashes were dropped |
| Invoice.FirstUploadsMatch | src/pages/Invoice.jsx:56-57 | a match is a capture starting with `api/uploads/` or `uploads/` at its position; no match means no position matches |
| Invoice.FirstUploadsMatchLeftmost | src/pages/Invoice.jsx:56-57 | the match returned is the one at the leftmost position that has a match, as `String.prototype.match` picks |
| Invoice.PdfUrl | src/pages/Invoice.jsx:37-64 | there is no link exactly when both parameters decode to nothing; every link starts with `/` and is longer than it |
| Invoice.UploadsLink | src/pages/Invoice.jsx:56-59 | when the cleaned value holds an uploads path, the link is `/` followed by the capture, which occurs in the cleaned value |
| Invoice.LegacyLinkRoundTrip | src/pages/Invoice.jsx:61-63 | without an uploads path the link is `/api/uploads/` plus an encoded name that decodes back to `receipt_<raw>.pdf` |
| Invoice.AbsoluteUploadsLink | src/pages/Invoice.jsx:50-59 | an absolute link to an upload becomes its site-relative path |
| FindCycles.Normalize | scripts/find-cycles.js:24-25 | the resolved segments hold no `.`, `..` or empty segment |
| FindCycles.NormalizeIdempotent | scripts/find-cycles.js:24-25 | resolving a resolved path again changes nothing |
| FindCycles.Tries | scripts/find-cycles.js:27-30 | nine candidates exactly when the path's extension is one of `.js .jsx .ts .tsx`, the path itself first; then the path with each extension, then `index` with each extension, in that order |
| FindCycles.CollectTries | scripts/find-cycles.js:27-30 | the pushes build exactly the ordered candidate list: the exact path when its extension is known, then each extension, then `index` with each extension |
| FindCycles.FirstTry | scripts/find-cycles.js:31-34 | the loop returns the first candidate on disk, or none when none is |
| FindCycles.ResolutionFacts | scripts/find-cycles.js:22-35 | a specifier starting with neither `.` nor `/` resolves to nothing; a resolution is the first candidate on disk |
| FindCycles.ResolveImport | scripts/find-cycles.js:22-35 | the method computes exactly the resolution described by `Resolution` |
| FindCycles.BuildImports | scripts/find-cycles.js:38-58 | the scan loop builds exactly `Graph` |
| FindCycles.ScanFile | scripts/find-cycles.js:44-58 | scanning a file adds to its entry the scanned targets of its specifiers, and nothing else |
| FindCycles.GraphFacts | scripts/find-cycles.js:38-58 | the graph has exactly the scanned files as nodes; its edges lead only to scanned files and never repeat; an edge is there exactly when a specifier of the file resolves to its target |
| FindCycles.ClosedCycle | scripts/find-cycles.js:66-69 | the cycle cut from the stack is a closed walk along edges, starting at the node found again |
| FindCycles.CycleSearch.Dfs | scripts/find-cycles.js:65-76 | the stack is as it was on entry; the node is visited afterwards; cycles are only appended; the search invariant holds (every recorded cycle is a closed walk and each node is pushed at most once) |
| FindCycles.CycleSearch.Push | scripts/find-cycles.js:71-72 | the node is added to `visited` and pushed onto the stack |
| FindCycles.CycleSearch.Run | scripts/find-cycles.js:78 | after the loop every file is visited and the stack is empty |
| FindCycles.ReportEmpty | scripts/find-cycles.js:80-88 | `No cycles found` is printed exactly when no cycle was recorded |
| FindCycles.FindCycles | scripts/find-cycles.js:38-88 | every reported cycle is a closed walk of the import graph, and the lines printed are the report of those cycles |
| RetainRider.SanitizeNumericInput | src/pages/employee/RetainRider.jsx:18-21 | only digits, at most `maxLength`, a prefix of the input's digits, and all of them when they fit |
| RetainRider.SanitizeIdempotent | src/pages/employee/RetainRider.jsx:18-21 | sanitising twice is sanitising once |
| RetainRider.EditSplitFacts | src/pages/employee/RetainRider.jsx:48-64 | the two sides always add up to the total; for a non-negative total both lie in `[0, total]`; an in-range edit is kept; a non-number reads as 0 |
| RetainRider.ModeAmountsFacts | src/pages/employee/RetainRider.jsx:66-78 | cash gives (total, 0), online gives (0, total), split gives the rounded-up half to cash; every mode splits the whole total |
| RetainRider.ValidateImageFile | src/pages/employee/RetainRider.jsx:583-588 | a file passes exactly when it is present, an image and at most 5 MB |
| RetainRider.PhotoCap | src/pages/employee/RetainRider.jsx:590-621 | with eight photos a pick is refused; otherwise only the free slots are taken; one invalid file cancels the pick; the list never exceeds eight |
| RetainRider.RetainScreen.HandleCashChange | src/pages/employee/RetainRider.jsx:55-59 | cash takes the clamped value and online the rest, so they add up to the total; nothing else changes |
| RetainRider.RetainScreen.HandleOnlineChange | src/pages/employee/RetainRider.jsx:60-64 | online takes the clamped value and cash the rest; nothing else changes |
| RetainRider.RetainScreen.HandlePaymentModeChange | src/pages/employee/RetainRider.jsx:66-78 | a known mode sets both amounts to its split; any other mode changes only the mode |
| RetainRider.RetainScreen.ToggleAccessory | src/pages/employee/RetainRider.jsx:193-200 | the key's membership flips and every other key keeps its membership |
| Seqs.ToggleTwiceAbsent | src/pages/employee/RetainRider.jsx:193-200 | toggling a key that is not selected, then toggling it again, gives the list back |
| Seqs.ToggleTwicePresent | src/pages/employee/RetainRider.jsx:193-200 | toggling a selected key twice drops every copy of it and selects it once, at the end |
| RetainRider.RetainScreen.PickPreRidePhotos | src/pages/employee/RetainRider.jsx:590-621 | the photo list and the error follow `PickPhotos`; a list of at most eight stays at most eight |
| RetainRider.CheckoutAccepts | src/pages/employee/RetainRider.jsx:623-724 | a checkout goes ahead exactly when every rule holds: the basics, the start rule for an update, matching totals, a settled payment, and the new-booking checks |
| RetainRider.CheckoutKind | src/pages/employee/RetainRider.jsx:652-661 | an accepted checkout is a new booking exactly when there is no active rental or the start is at or after the active rental's known end; otherwise it updates the active rental |
| RetainRider.BasicsOrder | src/pages/employee/RetainRider.jsx:627-650 | the first failing check wins, in the order rider, name, phone, start, issuer, each with its own message |
| RetainRider.PhoneCheck | src/pages/employee/RetainRider.jsx:637 | the phone check passes exactly when the input holds at least ten digits |
| RetainRider.MovedStartRefused | src/pages/employee/RetainRider.jsx:663-673 | an update whose start moved is refused when the start is before the active end or that end is unknown |
| RetainRider.NewBookingAccept | src/pages/employee/RetainRider.jsx:707-724 | a new booking needs a photo and an available vehicle, and an available battery unless the model has a built-in battery |
| RetainRider.PaymentAccept | src/pages/employee/RetainRider.jsx:680-705 | a non-cash payment under online payments needs a reference and a verified or `SUCCESS` status |
| RetainRider.RetainScreen.Complete | src/pages/employee/RetainRider.jsx:623-724 | the verdict is `Checkout` of the form with the screen's verified flag, and the error shown is the refusal's message; when the earlier checks pass and the status call is made, its status is recorded and `SUCCESS` sets the verified flag, and otherwise both are kept |
| RetainRider.RetainScreen.VerifyPayment | src/pages/employee/RetainRider.jsx:680-705 | the payment step answers `PaymentStatusError` for the screen's verified flag; a status reply is recorded as the upper-cased, trimmed status and `SUCCESS` sets the flag; with no call made or a failed call both are kept; the form is left alone |
| RetainRider.PrefillAvailable | src/pages/employee/RetainRider.jsx:294-299 | prefill proposes the last vehicle and battery exactly when they are not unavailable, and never an unavailable one |
| RetainRider.RetainScreen.PrefillFromLastRental | src/pages/employee/RetainRider.jsx:278-307 | no last rental changes nothing; otherwise exactly the proposed fields are set |
| RetainRider.PollErrorsNeverStop | src/pages/employee/RetainRider.jsx:545-556 | as written, a failed status call never stops the polling, whatever the attempt count |
| RetainRider.PollStopsByLimit | src/pages/employee/RetainRider.jsx:545-553 | with the limit applied to every call, the 60th call stops the polling; status replies behave as written |
| RetainRider.DefaultBatterySetReadTooEarly | src/pages/employee/RetainRider.jsx:130 | as written, the flag reads `DEFAULT_BATTERY_MODELS` before its declaration at line 179 |
| RetainRider.DefaultBatteryCorrected | src/pages/employee/RetainRider.jsx:179-185 | with the set declared first, nothing is read early |
| RidersTable.LoadRiders | src/pages/admin/RidersTable.jsx:90-124 | pages 1.. are appended in order; the loop stops at the first empty page, short page, or page reaching a valid reported total, or at page 2000; a failed request yields nothing, so the rows fetched so far are dropped and the table keeps its riders |
| RidersTable.FullPagesBefore | src/pages/admin/RidersTable.jsx:103-119 | every page before the last was full, so at least 100 rows per earlier page were fetched |
| RidersTable.FetchedPrefix | src/pages/admin/RidersTable.jsx:103-119 | an earlier page's rows lead the later pages' rows |
| Tables.IsWithinDateRange | src/pages/admin/RidersTable.jsx:240-255 | no bounds pass everything; with a bound a missing or bad time fails; the bounds are inclusive and an unparseable bound is ignored |
| Tables.WiderRangeKeepsRows | src/pages/admin/RidersTable.jsx:240-255 | moving the from-bound earlier keeps every row that passed |
| Tables.InvertedRangeIsEmpty | src/pages/admin/RidersTable.jsx:240-255 | a from-day after the to-day passes nothing |
| Tables.TotalPages | src/pages/admin/RidersTable.jsx:286-288 | the fewest pages of ten that hold the rows, and at least one |
| Tables.PageRows | src/pages/admin/RidersTable.jsx:290-293 | at most ten rows, the rows at `(page-1)*10` on, a full page when there are enough rows, and none past the end |
| Tables.RowOnItsPage | src/pages/admin/RidersTable.jsx:286-293 | row `i` is entry `i % 10` of page `i / 10 + 1`, and that page exists |
| Tables.LastPageNonEmpty | src/pages/admin/RidersTable.jsx:322-324 | clamping to the last page always lands on rows |
| Tables.Pager.ResetToFirst | src/pages/admin/RidersTable.jsx:235 | a filter change puts the page back to 1 |
| Tables.Pager.Prev | src/pages/admin/RidersTable.jsx:931 | the page moves back by one, never below 1 |
| Tables.Pager.Next | src/pages/admin/RidersTable.jsx:940 | the page moves on by one, never past the last page |
| Tables.Pager.Clamp | src/pages/admin/RidersTable.jsx:322-324 | a page past the last becomes exactly the last page; a page in range is kept |
| RidersTable.FilteredRowsFacts | src/pages/admin/RidersTable.jsx:257-280 | the filter keeps exactly the rows matching status, type, date range and query, in their order |
| RidersTable.QueryInFieldKeepsRow | src/pages/admin/RidersTable.jsx:266-278 | a query found in the name, mobile or id keeps a row that passes the other filters |
| RidersTable.PageRowIds | src/pages/admin/RidersTable.jsx:295 | the ids are the page rows' ids with the blank ones dropped, in the rows' order: an id is listed exactly when it is non-blank and some row on the page has it |
| RidersTable.PageFlags | src/pages/admin/RidersTable.jsx:296-301 | all-selected and some-selected are never both true |
| RidersTable.ToggleSelectAllOnPage | src/pages/admin/RidersTable.jsx:309-320 | with every page id selected the page's ids are removed, otherwise they are added once each |
| RidersTable.ToggleSelectAllFacts | src/pages/admin/RidersTable.jsx:309-320 | after the toggle the page is all selected or all unselected, ids off the page keep their state, and no id is selected twice |
| BatterySwaps.BuildRiderRows | src/pages/admin/BatterySwaps.jsx:516-550 | the `forEach` grouping, the loop over entries and the final sort compute exactly `RiderRows` |
| BatterySwaps.SummaryFacts | src/pages/admin/BatterySwaps.jsx:527-545 | a rider's row carries the key and the group's size, and its fields come from the group's latest swap |
| BatterySwaps.RiderRowsMembers | src/pages/admin/BatterySwaps.jsx:516-545 | each row has a non-blank key; its count is the number of swaps with that key; its latest swap is one of them and none is later |
| BatterySwaps.RiderRowsCover | src/pages/admin/BatterySwaps.jsx:518-524 | every swap with a key has a row |
| BatterySwaps.RiderRowsCount | src/pages/admin/BatterySwaps.jsx:535-537 | the counts add up to the number of swaps that have a key |
| BatterySwaps.RiderRowsSorted | src/pages/admin/BatterySwaps.jsx:548 | the rows are ordered newest first, one per key |
| BatterySwaps.LoadEmployeeNames | src/pages/admin/BatterySwaps.jsx:180-209 | at most 50 calls, each one followed only after a successful page naming a next page; the map is `NamesAfter` those calls, and a failed call yields no map, so the screen keeps the old one |
| BatterySwaps.AddPage | src/pages/admin/BatterySwaps.jsx:193-200 | the `forEach` over a page's users files each of them in order |
| BatterySwaps.FileFacts | src/pages/admin/BatterySwaps.jsx:194-199 | a named user files its uid and e-mail under its name and leaves other keys alone |
| BatterySwaps.NamesAfterFacts | src/pages/admin/BatterySwaps.jsx:180-207 | a key is in the map exactly when a named user of a fetched page carries it, and its name is never blank |
| BatterySwaps.FilteredRiderRowsFacts | src/pages/admin/BatterySwaps.jsx:552-570 | a row is kept exactly when it is in range and a non-blank query is in its joined fields; order is kept, so newest-first stays sorted |
| BatterySwaps.PrunedFacts | src/pages/admin/BatterySwaps.jsx:332-336 | the pruned selection keeps exactly the selected ids still loaded, in order |
| BatterySwaps.SwapsScreen.Reload | src/pages/admin/BatterySwaps.jsx:293-336 | a reload replaces the swaps, prunes the selection and clears the error |
| BatterySwaps.SwapsScreen.ToggleSwapSelection | src/pages/admin/BatterySwaps.jsx:462-470 | the id's membership flips and every other id keeps its state |
| BatterySwaps.SwapsScreen.ToggleSelectVisible | src/pages/admin/BatterySwaps.jsx:643-656 | with every visible id selected they are removed, otherwise added without duplicates |
| BatterySwaps.WithoutSelectedFacts | src/pages/admin/BatterySwaps.jsx:493-494 | a bulk delete removes exactly the selected swaps and keeps the others' order |
| BatterySwaps.SwapsScreen.BulkDeleteSelected | src/pages/admin/BatterySwaps.jsx:484-502 | an empty selection or a refusal changes nothing; success removes the selected rows, clears the selection and bumps the reload; failure shows the error |
| BatterySwaps.WithoutSwapFacts | src/pages/admin/BatterySwaps.jsx:451 | a delete removes exactly the swaps with the id |
| BatterySwaps.SwapsScreen.DeleteSwap | src/pages/admin/BatterySwaps.jsx:444-460 | success removes the row and its id and ends an edit of that row; failure shows the error |
| BatterySwaps.SavedFacts | src/pages/admin/BatterySwaps.jsx:432-434 | a save merges the returned fields (id, rider and timestamps included) into the rows with the id only; those rows take the returned id, and every id is kept unless the reply carries a different one |
| BatterySwaps.MergeNothing | src/pages/admin/BatterySwaps.jsx:433 | a reply with no fields (`updated || {}`) leaves the row unchanged |
| BatterySwaps.SwapsScreen.SaveSwap | src/pages/admin/BatterySwaps.jsx:417-442 | with no id or no draft nothing changes; otherwise success merges the fields, ends the edit and bumps the reload, and failure shows the error |
| RideLabels.LabelKinds | src/pages/admin/RentalsTable.jsx:272-274 | only the first ride is labelled `EVR-NR_`, every later one `EVR-RR_` |
| RideLabels.BuildRideLabels | src/pages/admin/RentalsTable.jsx:257-279 | the grouping `forEach` and the nested labelling loops compute exactly `RideLabels` |
| RideLabels.LabelRides | src/pages/admin/RentalsTable.jsx:271-275 | the inner loop labels one rider's sorted rides as `LabelGroup` says |
| RideLabels.RowLabel | src/pages/admin/RentalsTable.jsx:257-279 | with unique ride ids, a row with a rider key is labelled by its position, from 1, among its rider's rides ordered by start |
| RideLabels.RideLabelsDomain | src/pages/admin/ReturnsTable.jsx:221-243 | exactly the ids of rows with a rider key are labelled |
| RideLabels.FirstRideEarliest | src/pages/admin/RentalsTable.jsx:270 | the ride labelled first is the rider's earliest |
| RentalsTable.NormalizeZoneFacts | src/pages/admin/RentalsTable.jsx:182-196 | the result is one of the nine zone names or `""`, and is the zone of the first rule whose fragment is in the cleaned input |
| RentalsTable.CleanedFacts | src/pages/admin/RentalsTable.jsx:183-185 | the cleaned text has no white space at its ends and only single blanks inside |
| RentalsTable.ZoneByIsFirstZone | src/pages/admin/RentalsTable.jsx:186-195 | the chain of `includes` tests is the first-match rule over the zone table |
| RentalsTable.RowFacts | src/pages/admin/RentalsTable.jsx:229-253 | a rental is Returned exactly when it has a return time; the expected end falls back to the meta; the zone is a zone name or `-`; a blank payment mode shows `-` |
| RentalsTable.RowShowsRideNumber | src/pages/admin/RentalsTable.jsx:281-286 | a rental with a rider key shows its ride number among its rider's rides by start |
| RentalsTable.RowFallsBackToFormat | src/pages/admin/RentalsTable.jsx:284 | a rental whose id no keyed rental carries shows `formatRentalId` |
| RentalsTable.BuildGroupedRows | src/pages/admin/RentalsTable.jsx:288-318 | the map filled in the `forEach` and the loop over its values compute exactly `GroupedRows` |
| RentalsTable.GroupedRowsMembers | src/pages/admin/RentalsTable.jsx:288-318 | a group holds exactly the rows with its key, newest first, and its count is their number |
| RentalsTable.RowInOneGroup | src/pages/admin/RentalsTable.jsx:291 | because the key falls back to the ride id, a row with an id lies in exactly one group |
| RentalsTable.RideCountsSum | src/pages/admin/RentalsTable.jsx:288-318 | the ride counts add up to the number of keyed rows |
| RentalsTable.PrimaryFacts | src/pages/admin/RentalsTable.jsx:310-311 | the primary ride is the latest Active ride when there is one, otherwise the latest ride |
| RentalsTable.FilteredGroupsFacts | src/pages/admin/RentalsTable.jsx:321-354 | a group is kept exactly when its primary passes status and date and the query is in a group or ride field; order is kept; blank filters keep everything |
| RentalsTable.StatusOptions | src/pages/admin/RentalsTable.jsx:325-327 | `active` and `returned` pick the groups whose primary ride has that status |
| RentalsTable.RideMatchKeepsGroup | src/pages/admin/RentalsTable.jsx:341-352 | a ride field holding the query keeps its whole group |
| RentalsTable.SummaryFacts | src/pages/admin/RentalsTable.jsx:381-388 | returned is the number of rentals with a return time; the deposit and rent totals are the sums over every rental |
| RentalsTable.RentalsScreen.ToggleExpanded | src/pages/admin/RentalsTable.jsx:417-421 | the key's membership flips and every other key keeps its state |
| ReturnsTable.DepositValuesSum | src/pages/admin/ReturnsTable.jsx:204-212 | a return's deposit value is its amount only when the deposit was returned, so the values sum to the amounts of exactly those returns |
| ReturnsTable.RowShowsRideNumber | src/pages/admin/ReturnsTable.jsx:245-249 | a return with a rider key shows its ride number among its rider's rentals by start |
| ReturnsTable.BuildRiderRows | src/pages/admin/ReturnsTable.jsx:251-276 | the `forEach` grouping and the loop over entries compute exactly `RiderRows` |
| ReturnsTable.RiderRowOfFacts | src/pages/admin/ReturnsTable.jsx:260-276 | a rider's row carries the latest return's fields, the number of returns, the sum of their deposit values, and every return newest first |
| ReturnsTable.RiderRowsMembers | src/pages/admin/ReturnsTable.jsx:251-276 | each row has a non-blank key and holds exactly the returns with that key |
| ReturnsTable.ReturnInOneRow | src/pages/admin/ReturnsTable.jsx:251-258 | every keyed return is in exactly one rider row |
| ReturnsTable.RiderRowsAddUp | src/pages/admin/ReturnsTable.jsx:265-270 | the counts add up to the keyed returns and the deposit totals to their deposit values |
| ReturnsTable.FilteredRowsFacts | src/pages/admin/ReturnsTable.jsx:280-306 | a row is kept exactly when it passes deposit, date and query; `returned` keeps non-zero totals and `not_returned` zero ones |
| ReturnsTable.SummaryIgnoresOrder | src/pages/admin/ReturnsTable.jsx:308-319 | the summary does not depend on the order `sortRows` chooses |
| ReturnsTable.UnfilteredSummary | src/pages/admin/ReturnsTable.jsx:312-319 | with blank filters the cards count every rider and sum every keyed deposit value |
| ReturnsTable.ReturnsScreen.SetFilters | src/pages/admin/ReturnsTable.jsx:160-162 | setting a filter puts the table back on page 1 |
| ReturnsTable.ReturnsScreen.PageOf | src/pages/admin/ReturnsTable.jsx:321-328 | the page shows at most ten of the shown rows |
| AdminUsers.ExactUidMissed | src/pages/admin/Users.jsx:95 | as written, searching `A` does not find the account whose uid is `A` |
| AdminUsers.FilteredAsWrittenFacts | src/pages/admin/Users.jsx:89-97 | the search as written: a blank search keeps every user; otherwise exactly the users whose lower-cased e-mail or name, or whose uid as stored, holds the lower-cased query, in order |
| AdminUsers.FilteredFacts | src/pages/admin/Users.jsx:89-97 | the corrected search of the Findings row (uid lower-cased too): a blank search keeps every user; otherwise exactly the users whose e-mail, name or uid holds the query without case, in order |
| AdminUsers.ExactUidFound | src/pages/admin/Users.jsx:89-97 | with the uid compared without case, searching an account's exact uid finds it |
| AdminUsers.CreateRequest | src/pages/admin/Users.jsx:116-123 | no request exactly when the trimmed e-mail or the password is empty |
| AdminUsers.CreateRequestFacts | src/pages/admin/Users.jsx:127-132 | the payload's e-mail is trimmed and non-blank, the password kept, the role defaulted to `employee`, the name trimmed or null |
| AdminUsers.CreateRequestRoundTrip | src/pages/admin/Users.jsx:127-132 | filling the form with what was sent sends the same payload |
| AdminUsers.UsersScreen.HandleCreate | src/pages/admin/Users.jsx:112-141 | a refused form keeps the form and shows the required-fields error; success clears the form and reloads, the reload's answer replacing the list as `Load` does; failure shows the error and keeps the list; the edit dialog and its error are untouched |
| AdminUsers.EditFormOf | src/pages/admin/Users.jsx:143-154 | the edit form copies the user, defaults the role and clears the password |
| AdminUsers.UsersScreen.OpenEdit | src/pages/admin/Users.jsx:143-154 | the dialog opens on that user's form with no error; the list, search, page, create form and both other errors are untouched |
| AdminUsers.UpdateRequestFacts | src/pages/admin/Users.jsx:184-190 | a blank field is left out of the update, a sent value is non-blank and trimmed, `disabled` is kept |
| AdminUsers.SaveUnedited | src/pages/admin/Users.jsx:184-190 | saving an unedited dialog sends no password, the defaulted role, and the trimmed e-mail and name |
| AdminUsers.UsersScreen.HandleSaveEdit | src/pages/admin/Users.jsx:178-200 | no uid sends nothing; success closes the dialog and reloads, the reload's answer replacing the list as `Load` does; failure shows the error and keeps it open |
| AdminUsers.UsersScreen.Load | src/pages/admin/Users.jsx:56-69 | the list replaces the users; a failure empties them and shows the error |
| AdminUsers.UsersScreen.SetSearch | src/pages/admin/Users.jsx:85-87 | typing a search puts the table back on page 1 and changes nothing else on the screen |
| AdminUsers.UsersScreen.ClampPage | src/pages/admin/Users.jsx:108-110 | a page past the last page of the corrected search's result becomes that last page, and an in-range page is kept |
| AdminUsers.UsersScreen.PageOf | src/pages/admin/Users.jsx:99-106 | the page is the ten-row slice, at the current page, of the corrected search's result, and holds only loaded users |

## Left out

- Network, REST, Firebase, WhatsApp and payment-gateway calls are inputs. An `Outcome` or a fetch function stands for each; timers, polling intervals, mount flags and `Promise.all` are not modelled. A failure carries only its message text: `ErrorText` and `RetainRider.CallFailedMessage` show the fallback for an empty message, while `String(e?.message || e || fallback)` on a thrown `Error` with an empty message shows `Error`.
- `downloadRiderReceiptPdf` and `downloadBlob` are not modelled: they only move bytes through the DOM.
- `readFiles` and the two import regexes of `scripts/find-cycles.js` are not modelled. The scanned files and each file's specifiers are inputs; `fs.existsSync` is membership of a set of paths.
- `path.relative` in the cycle report is not modelled. Paths are printed as given, and every path is absolute, so the working directory plays no part.
- Case mapping is ASCII only. `toLowerCase`/`toUpperCase` of other letters is not modelled.
- `Number(...)` of a non-integer is not modelled. Money and counts are whole numbers; a value that is not a number is `None`.
- `Date.parse` and local-time day bounds are abstracted to `Stamp` and `DayBound`.
- The sort comparators that can return NaN (RentalsTable.jsx:270 and 309, ReturnsTable.jsx:234 and 262) are modelled as a total order by `TimeKey`: a time that does not parse sorts as 0. Ties keep input order, which matches the stable sort of the engine. The BatterySwaps.jsx comparators (528-532 and 548) read an unparseable time as 0 themselves, so they are modelled exactly.
- Not modelled: the helpers `sortRows`, `formatRentalId`, `formatReturnId` and `formatDateTimeDDMMYYYY`. `formatRentalId` is a parameter, and `sortRows` is covered only by `SummaryIgnoresOrder`.
- JSON meta fields are given already parsed.
- `toggleSelectCurrentPage` (BatterySwaps.jsx:472-482) reads identifiers that are never defined. It is dead code and is not modelled.
- `handleConfirmDelete` of the users screen is not modelled: it is one call and a reload.
- `disabled` of a user is given as a boolean; `Boolean(...)` of other values is not modelled.
- The phone check keeps the first ten digits and compares the length with ten. So it accepts any input with at least ten digits, not exactly ten; the model follows the code.
- The rentals table groups by rider id, mobile or code, falling back to the ride id. Its ride numbering instead drops rides without a rider key. Both rules are modelled as the code has them.
- `rentalIdMap` is computed from the rentals themselves rather than from `baseRows`. The fields it reads are the same, so the numbering does not change.
- `return_id_display` and the export, column and PDF code of the tables are not modelled.
- RideLabels.RowLabel: the numbering is proved under the hypothesis that ride ids are unique. With repeated ids, a later ride overwrites an earlier label, as the `Map` does.
- `"electric scooter"` in `DEFAULT_BATTERY_MODELS` names no model of the catalogue. It is kept as written.
- AdminUsers.Filtered: the users screen (`UsersScreen.ClampPage`, `UsersScreen.PageOf`) is built on the corrected search of the Findings row, which lower-cases the uid. The search as written is `FilteredAsWritten`; the two differ only for a query found in the lower-cased uid but not in the uid as stored.
- FindCycles.CycleSearch.Dfs: the search invariant uses a ghost record of pushes. It does not state which cycles are found, only that each recorded one is a cycle.

## Findings

| source | as written | input that shows it | evidently intended | confidence | as-written member | corrected member |
|---|---|---|---|---|---|---|
| src/pages/employee/RetainRider.jsx:130 | `isDefaultBatteryModel` reads `DEFAULT_BATTERY_MODELS`, whose `const` is declared at line 179, while the component body runs | any render of the screen | the set declared before it is read, so the flag is the set's membership test | high; not executed | RetainRider.DefaultBatterySetReadTooEarly | RetainRider.DefaultBatteryCorrected |
| src/pages/employee/RetainRider.jsx:554-556 | a failed status call only records the error; the `maxAttempts` stop is checked only on a status reply | a status endpoint that fails on every call | polling stops after 60 attempts whatever the reply | medium; not executed | RetainRider.PollErrorsNeverStop | RetainRider.PollStopsByLimit |
| src/pages/admin/Users.jsx:95 | the uid is compared with the lower-cased query without being lower-cased itself | a user with uid `A`, searched for `A` | the uid compared without case, like the e-mail and the name | medium; not executed | AdminUsers.ExactUidMissed | AdminUsers.ExactUidFound |
