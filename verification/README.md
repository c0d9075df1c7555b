# Case labels for rental orders — a Dafny model

This project models the logic core of a web app that prints flight-case labels for equipment rental orders. The app:

- fetches orders from Odoo and currentRMS;
- classifies each order line by product keywords;
- splits an order's items into containers ("cases") and the contents packed into them;
- lets the user elect extra containers and assign contents by hand;
- prints one label per container.

The model covers these parts:

- **`Rental`** (`src/types/rental.ts`)
  - the order, item and resolved-case records;
  - the fixed table of label presets;
  - `getEffectiveDimensions`;
  - `resolveOrderCases`, which turns an order into its cases. Each container gets every n-th content item (round robin). Its weight is rounded to the nearest hundredth. An order with no container gets a single "Unassigned" case holding everything.
- **`FetchOrders`** (`supabase/functions/fetch-orders/index.ts`)
  - the keyword product classifier `detectProductCategory` and `CASE_KEYWORDS`;
  - the two status tables;
  - the `||` defaulting of every field of an Odoo order, a currentRMS opportunity and their items;
  - the tag stripping of Odoo notes.
- **`OdooNames`** (`supabase/functions/fetch-orders/index.ts`): the regex clean-up of Odoo line names `cleanOdooItemName`, with the regex engine's leftmost, lazy matching written out.
- **`RentalPeriod`**: proofs that the clean-up removes a bracketed rental period of slash dates.
- **`JobView`** (`src/pages/JobView.tsx`)
  - the case-assignment editor as a state machine: `caseIndices`, `contentIndices`, `toggleElectCase`, `toggleAssignment` and `getAssignedCaseForItem`;
  - the rows it writes out on save.
- **`OrderList`** (`src/pages/Index.tsx`)
  - the search filter;
  - the selection toggles;
  - `resolvedCases` for the selected orders;
  - the per-order `totalCases` shown on each label.

Helper modules:

- `Wrappers` (`Option`);
- `Text` (ASCII lower-casing, substring search, JavaScript `trim`);
- `Seqs` (filter, count, subsequence);
- `RoundRobin` (the `i % n === index` split and its sums);
- `JsCollections` (JavaScript `Set` and `Map` with insertion order).

JavaScript behaviour is written out where it matters:

- `a || b` treats `""` and `0` as missing, while `a ?? b` does not.
- Regex `\b` uses the word characters `[A-Za-z0-9_]`.
- A lazy `.*?` stops at line terminators.
- `Math.round` rounds halves up.
- A `Set` or `Map` iterates in insertion order. It is modelled as a duplicate-free sequence or an association list.

## Model

| member | source | states |
|---|---|---|
| Rental.BaseDimensions | src/types/rental.ts:99-110 | a named preset's own size wins over the custom width and height; with no preset or `custom`, the custom size is used, defaulting to 127 x 178 mm |
| Rental.GetEffectiveDimensions | src/types/rental.ts:99-116 | portrait keeps the base size; landscape swaps width and height unless the height is 0 (auto-length receipt), which is never rotated |
| Rental.LandscapeTransposesPortrait | src/types/rental.ts:112-115 | for any label with a positive height, the landscape size is exactly the portrait size turned by 90 degrees |
| Rental.ThermalReceiptNeverRotated | src/types/rental.ts:57 | the thermal-receipt preset is 80 mm wide with automatic height in either orientation |
| Rental.PresetIgnoresCustomSize | src/types/rental.ts:103-110 | once a named preset is chosen, changing the custom width or height has no effect on the label size |
| Rental.ItemsPartition | src/types/rental.ts:122-127 | containers are exactly the items whose category lower-cases to `case` and contents exactly the others; both keep item order and together are a permutation of the items |
| Rental.RoundToHundredths | src/types/rental.ts:178 | the result is a whole number of hundredths within half a hundredth of the input (the nearest hundredth, halves up) |
| Rental.ResolveContainer | src/types/rental.ts:153-180 | a container's case copies the order's fields, uses the container's serial number as asset code when it has one (else the order's), carries the content items at positions index, index+n, ..., and weighs the container once plus its contents, rounded to the nearest hundredth |
| Rental.ResolveOrderCases | src/types/rental.ts:121-182 | no container gives exactly one "Unassigned" case with all contents and their unrounded weight; otherwise one case per container in item order, each built as above |
| Rental.SingleContainerGetsAll | src/types/rental.ts:154-156 | a lone container carries every content item |
| Rental.ContentsRoundRobin | src/types/rental.ts:154-157 | the k-th content item of case i is content item i + k*n, and the case holds every such item |
| Rental.ContentCountsBalanced | src/types/rental.ts:157 | earlier cases hold at most one item more than later ones, never fewer |
| Rental.TwoContainersExample | src/types/rental.ts:153-157 | with two containers and five content items the first case holds items 1, 3, 5 and the second 2, 4 |
| Rental.ResolvedHoldsShares | src/types/rental.ts:153-157 | every case of an order with containers holds exactly its round-robin share of the contents |
| Rental.AllContentsIsShareUnion | src/types/rental.ts:153-157 | the contents of all cases together are the union of their round-robin shares |
| Rental.AllContentsWeightIsShareSum | src/types/rental.ts:159-162 | the content weights of all cases sum to the weights of their shares |
| Rental.ContentsPartitioned | src/types/rental.ts:121-182 | every content item lands in exactly one case: the cases' contents together are a permutation of the order's content items |
| Rental.ItemsAccountedFor | src/types/rental.ts:121-182 | containers plus all case contents are a permutation of the order's items: nothing is lost or duplicated |
| Rental.ContentWeightsAddUp | src/types/rental.ts:130-133 | splitting the contents over the cases keeps their total weight (before rounding) |
| RoundRobin.SharesBalanced | src/types/rental.ts:157 | the shares of positions i < j differ in size by at most one, the earlier never smaller |
| RoundRobin.SharesPartition | src/types/rental.ts:157 | the n shares of `i % n === index` together are a permutation of the sequence |
| RoundRobin.SharesAddUp | src/types/rental.ts:159-162 | the sums over the n shares add up to the sum over the whole sequence |
| FetchOrders.DetectProductCategory | supabase/functions/fetch-orders/index.ts:266-278 | each category holds exactly when its test matches and no earlier test does: `case` when the lower-cased name contains a case keyword, then cable, audio, lighting, video and rigging whole words ignoring case, and `general` when nothing matches |
| FetchOrders.CaseKeywordIffStem | supabase/functions/fetch-orders/index.ts:260-264 | a text contains one of the fifteen case keywords iff it contains one of case, peli, skb, gator or trunk |
| FetchOrders.KeywordHasStem | supabase/functions/fetch-orders/index.ts:260-264 | every case keyword contains one of the five stems |
| FetchOrders.DmxIsCable | supabase/functions/fetch-orders/index.ts:272-274 | `dmx` is in both the cable and the lighting list; a name with the whole word `dmx` and no case keyword is a cable |
| FetchOrders.ClassificationIgnoresCase | supabase/functions/fetch-orders/index.ts:266-278 | lower-casing a name never changes its category |
| FetchOrders.MatchesWordIgnoresCase | supabase/functions/fetch-orders/index.ts:272-276 | a case-insensitive whole-word test gives the same answer on the lower-cased name |
| FetchOrders.ClassifiedContainer | supabase/functions/fetch-orders/index.ts:239 | an item carrying a classifier category is treated as a container by the resolver iff that category is `case` |
| OdooNames.SlashField | supabase/functions/fetch-orders/index.ts:253 | one or two digits followed by `/` match `\d{1,2}\/` at that position, and no match is missed |
| OdooNames.FirstIndexOf | supabase/functions/fetch-orders/index.ts:253-254 | the first position of a character in a range, or none iff it does not occur there |
| OdooNames.LineEnd | supabase/functions/fetch-orders/index.ts:253-254 | the first line terminator at or after a position (or the end), which bounds every `.*?` gap |
| OdooNames.FirstClosableDate | supabase/functions/fetch-orders/index.ts:253-254 | a place in the range where a second date can start and still be closed by `)`, or none iff there is no such place |
| OdooNames.FirstClosableDateIsFirst | supabase/functions/fetch-orders/index.ts:253-254 | no second date that starts before the place found can be closed, so the lazy `.*?` before the second date stops there, at the first such place |
| OdooNames.DateEnd | supabase/functions/fetch-orders/index.ts:253-254 | only that a date token matched at a position ends after it and within the text (the exact token is stated by `RentalPeriod.SlashDateAt` and `RentalPeriod.NoDateAtNonDigit`) |
| RentalPeriod.SlashDateAt | supabase/functions/fetch-orders/index.ts:253 | a slash date written as 1-2 digits `/` 1-2 digits `/` at least two year digits, with no `-`, `)` or line break anywhere in the text, is matched by `\d{1,2}\/\d{1,2}\/\d{2,4}` where it starts, ending after its first two year digits |
| RentalPeriod.NoDateAtNonDigit | supabase/functions/fetch-orders/index.ts:253-254 | no date token of either form starts at a character that is not a digit |
| OdooNames.MatchAt | supabase/functions/fetch-orders/index.ts:253-254 | only that one attempt of the whole pattern at a position, when it matches, ends after that position and within the text (its behaviour is stated by `RentalPeriod.NoMatchWithoutParen` and `RentalPeriod.MatchAtGroup`) |
| RentalPeriod.NoMatchWithoutParen | supabase/functions/fetch-orders/index.ts:253-254 | when the white space from a position does not run into `(`, no match starts there |
| RentalPeriod.MatchAtGroup | supabase/functions/fetch-orders/index.ts:253-254 | when the white space from a position runs into a `(` whose bracketed range ends where no further white space follows, the match starting there ends exactly at the end of the range |
| OdooNames.StripFrom | supabase/functions/fetch-orders/index.ts:252-254 | only that the text left after a global replacement pass from a position is no longer than the rest of the input (its behaviour is stated by `OdooNames.StripWithoutParen`, `RentalPeriod.StripKeeps` and `RentalPeriod.PeriodMatch`) |
| OdooNames.GroupEnd | supabase/functions/fetch-orders/index.ts:253-254 | a bracketed date range that matches ends just after a `)` |
| OdooNames.CleanOdooItemName | supabase/functions/fetch-orders/index.ts:250-256 | the cleaned name is trimmed and never longer than the raw name |
| RentalPeriod.CleanRemovesRentalPeriod | supabase/functions/fetch-orders/index.ts:250-256 | a trimmed name without `(` followed by ` (d1 - d2)` is cleaned back to exactly that name, for any dates d1, d2 written as 1-2 digits `/` 1-2 digits `/` 2-4 digits and then any text without `-`, `)` or a line break (such as ` 10:00:00 AM`) |
| RentalPeriod.CleanRemovesDocumentedPeriod | supabase/functions/fetch-orders/index.ts:250-256 | the documented example `Projector (02/15/2025 10:00:00 AM - 02/20/2025 10:00:00 AM)` is cleaned to `Projector` |
| OdooNames.WhitespaceEndIsLeading | supabase/functions/fetch-orders/index.ts:253-254 | the end of a `\s*` run starting at a position is that position plus the length of the leading whitespace of the rest of the text |
| OdooNames.CleanWithoutParen | supabase/functions/fetch-orders/index.ts:250-256 | a name without `(` is only trimmed |
| OdooNames.StripWithoutParen | supabase/functions/fetch-orders/index.ts:253-254 | a replacement pass leaves text without `(` unchanged |
| RentalPeriod.StripKeeps | supabase/functions/fetch-orders/index.ts:253-254 | a stretch without `(` that ends in a non-space character passes through a replacement unchanged |
| RentalPeriod.PeriodMatch | supabase/functions/fetch-orders/index.ts:253 | a space and a bracketed date range that reach the end of the text are removed entirely |
| FetchOrders.OdooStatus | supabase/functions/fetch-orders/index.ts:219-224 | `returned` maps to returned and `return` to in progress, each iff that is the status; every other status, or none, is confirmed |
| FetchOrders.RmsStatus | supabase/functions/fetch-orders/index.ts:314-319 | 4 maps to returned and 3 to in progress, each iff that is the status; every other status, or none, is confirmed |
| FetchOrders.OrElse | supabase/functions/fetch-orders/index.ts:228-232 | a missing or empty string falls back to the default, and any other string is kept |
| FetchOrders.QuantityOrOne | supabase/functions/fetch-orders/index.ts:238 | a missing or zero quantity becomes 1 and any other is kept; the result is never 0 |
| FetchOrders.NonEmpty | supabase/functions/fetch-orders/index.ts:309 | an empty string counts as absent and any other is kept |
| FetchOrders.OdooItem | supabase/functions/fetch-orders/index.ts:236-240 | an Odoo line's item is named after the cleaned product name (else line name, else "Product"), takes the line's quantity with a missing or zero quantity read as 1, has no serial or weight, and is classified from the raw line name (else the product name); it is a container iff that text contains a case keyword |
| FetchOrders.OdooCategoryIgnoresProductName | supabase/functions/fetch-orders/index.ts:237-239 | when a line has its own name, the product name changes only the displayed name, never the category or quantity |
| FetchOrders.RmsItemToCaseItem | supabase/functions/fetch-orders/index.ts:305-312 | a currentRMS item is named by its name, else its product name, else "Item"; its quantity falls back to 1 when missing or zero; an empty serial or a zero weight is dropped and any other kept; its category is its product group lower-cased, "general" when missing, so it is a container iff that group lower-cases to `case`; its line weight is unit weight times quantity |
| FetchOrders.RmsNameIgnored | supabase/functions/fetch-orders/index.ts:311 | a currentRMS item whose product group does not lower-case to `case` is never a container, whatever its name |
| FetchOrders.StripTags | supabase/functions/fetch-orders/index.ts:241 | removing `<...>` tags never lengthens a note and never introduces a character |
| FetchOrders.StripTagsLeavesNoTag | supabase/functions/fetch-orders/index.ts:241 | no closed tag is left after stripping |
| FetchOrders.StripTagsKeepsUntagged | supabase/functions/fetch-orders/index.ts:241 | text without a closed tag is left unchanged |
| FetchOrders.NoAngleUnchanged | supabase/functions/fetch-orders/index.ts:241 | text without `<` is left unchanged |
| FetchOrders.StripTagsIdempotent | supabase/functions/fetch-orders/index.ts:241 | stripping twice is the same as stripping once |
| FetchOrders.OdooNotes | supabase/functions/fetch-orders/index.ts:241 | an empty or missing note becomes no note; any other becomes the note with its tags stripped, so no closed tag is left, and is unchanged if it had none |
| FetchOrders.PrefixBefore | supabase/functions/fetch-orders/index.ts:231-232 | `split(c)[0]` is the longest prefix without `c`: the next character, if any, is `c` |
| FetchOrders.DatePart | supabase/functions/fetch-orders/index.ts:231-232 | the date part exists iff the timestamp does, and is its text before the separator |
| FetchOrders.OdooOrder | supabase/functions/fetch-orders/index.ts:226-242 | an Odoo order whose order date or return date is Odoo's `false` fails (`false?.split` throws), and only then; otherwise it gets `odoo-`/`ODO-` ids; its reference, customer and job names are the record's values with their `||` fallbacks (never empty); its job and return dates are the record's timestamps cut before the first space, the job date falling back to today and the return date to empty; the venue is empty; the status is mapped, there is one cleaned item per line, and the note is stripped |
| FetchOrders.OdooOrderUsesTodayOnlyAsFallback | supabase/functions/fetch-orders/index.ts:231 | the clock never decides whether an order fails and affects only the job date, and not even that when the order carries a date of its own |
| FetchOrders.OdooOrders | supabase/functions/fetch-orders/index.ts:186-244 | the orders of one Odoo account are converted one for one, in order, and the whole account yields nothing iff some order fails to convert (the error is then recorded for that account, lines 94-104) |
| FetchOrders.AllSome | supabase/functions/fetch-orders/index.ts:186-244 | a batch of conversions succeeds iff each one does, and then holds every result in order |
| FetchOrders.RmsOrder | supabase/functions/fetch-orders/index.ts:321-333 | a currentRMS opportunity gets `crms-`/`CRMS-` ids; its reference, customer, job name and venue are the record's values with their `||` fallbacks; its dates are the timestamps cut before `T`, empty when missing; the status is mapped, there is one item per opportunity item (none when the list is missing), and the notes are a nonempty description or none |
| JsCollections.SetAdd | src/pages/JobView.tsx:68 | `Set.add` adds the element, appended last only when it is new, and keeps the set duplicate-free |
| JsCollections.SetDelete | src/pages/JobView.tsx:63-64 | `Set.delete` removes exactly that element; on a duplicate-free set the result is the set with the element cut out at its position, so the others keep their order |
| JsCollections.SetAddThenDelete | src/pages/JobView.tsx:63-68 | adding a new element and deleting it restores the set |
| JsCollections.Get | src/pages/JobView.tsx:78 | `Map.get` finds a key's value iff the key is present |
| JsCollections.Put | src/pages/JobView.tsx:81 | `Map.set` binds the key, changes no other key, and keeps the key order (a new key goes last) |
| JsCollections.Remove | src/pages/JobView.tsx:66 | `Map.delete` unbinds the key and changes no other key; the remaining keys keep their insertion order |
| JobView.IndicesWhere | src/pages/JobView.tsx:35-36 | the increasing list of the indices below n that satisfy the test, and only those |
| JobView.AutoCaseIndices | src/pages/JobView.tsx:34-37 | the detected containers are exactly the items whose category lower-cases to `case`, in item order |
| JobView.AddAll | src/pages/JobView.tsx:38 | adding elements to a set keeps it duplicate-free, keeps its existing order as a prefix, and yields exactly the union |
| JobView.CaseIndices | src/pages/JobView.tsx:32-40 | the case indices are the detected containers followed by the elected items, without duplicates, and hold exactly these |
| JobView.ContentIndices | src/pages/JobView.tsx:42-45 | the content indices are exactly the item indices that are not case indices, in increasing order |
| JobView.IndicesPartition | src/pages/JobView.tsx:32-45 | every item of the order is either a case or a content item, never both; it is a content item iff it is neither detected nor elected |
| JobView.ToggleElectCase | src/pages/JobView.tsx:60-72 | toggling flips exactly that index in the elected set, appending it when absent and cutting it out at its position when present; un-electing removes that case's assignments and touches no other, electing changes no assignment |
| JobView.ElectThenUnelect | src/pages/JobView.tsx:60-72 | electing an item and un-electing it again restores the elected set and drops that index's assignments |
| JobView.SelectCase | src/pages/JobView.tsx:211-216 | clicking a case button makes it the active case and changes nothing else |
| JobView.ToggleAssignment | src/pages/JobView.tsx:74-84 | with no active case nothing changes; otherwise exactly that item flips in the active case's set, which then exists, and no other case changes |
| JobView.ToggleAssignmentTwice | src/pages/JobView.tsx:74-84 | toggling the same item twice leaves the active case's members as they were, and in the same order when the item was not there |
| JobView.GetAssignedCaseForItem | src/pages/JobView.tsx:86-91 | the first case, in insertion order, whose set holds the item, or none iff no case holds it |
| JobView.AssignedCaseHoldsItem | src/pages/JobView.tsx:86-91 | the case found really holds the item, and none is found iff no case holds it |
| JobView.ExclusiveAssignedCase | src/pages/JobView.tsx:86-91 | when every item is in at most one case, the case found for an item is c iff c holds it |
| JobView.ToggleAssignmentKeepsExclusive | src/pages/JobView.tsx:230-248 | since the checkbox of an item assigned elsewhere is disabled, toggling keeps every item in at most one case |
| JobView.ToggleAssignmentKeepsNoContainerInside | src/pages/JobView.tsx:74-84 | toggling a content item never puts a case inside a case |
| JobView.UnelectKeepsNoContainerInside | src/pages/JobView.tsx:60-72 | un-electing a case never puts a case inside a case |
| JobView.ElectFreeItemKeepsNoContainerInside | src/pages/JobView.tsx:60-72 | electing an item that is in no case never puts a case inside a case |
| JobView.ElectingAssignedItemNestsCase | src/pages/JobView.tsx:60-72 | electing an item already assigned to a case leaves it assigned there, so a case sits inside a case |
| JobView.UnelectingActiveCaseKeepsIt | src/pages/JobView.tsx:60-84 | un-electing the active case does not clear the selection, so later toggles still fill a case that no longer exists |
| JobView.ItemRows | src/pages/JobView.tsx:106-110 | the item rows exist iff every assigned index is an item of the order, and then give each item's name, quantity and index, in set order |
| JobView.CaseRows | src/pages/JobView.tsx:101-112 | one row per case with the user, the order, the case item's name and its item rows; defined iff every index involved is an item |
| JobView.SavePayload | src/pages/JobView.tsx:101-112 | the save writes one row per case index, in case order, each carrying the user, the order, the case item's name and one {name, quantity, index} row per item assigned to that case |
| JobView.CasesInRange | src/pages/JobView.tsx:101-112 | when every elected and assigned index is an item, every case index and its members are items |
| JobView.NoCasesIffNothingElected | src/pages/JobView.tsx:114-117 | nothing is inserted exactly when no item is detected as a container and none is elected |
| JobView.SavePayloadRows | src/pages/JobView.tsx:101-117 | with indices in range the save is defined, has one row per case in case order naming the case item and listing its members, and is empty iff there are no cases |
| OrderList.FilteredOrders | src/pages/Index.tsx:24-32 | the shown orders are exactly those whose job name, customer name, asset code or reference contains the query ignoring case, in list order, each as many times as it occurs in the list |
| OrderList.EmptySearchKeepsAll | src/pages/Index.tsx:24-32 | an empty search shows every order |
| OrderList.SearchIgnoresQueryCase | src/pages/Index.tsx:25 | the query's letter case does not matter |
| OrderList.NarrowerSearchShowsFewer | src/pages/Index.tsx:24-32 | typing more never brings back an order a shorter query hid |
| OrderList.ToggleSelect | src/pages/Index.tsx:34-38 | toggling flips exactly that id in the selection and keeps it duplicate-free |
| OrderList.ToggleSelectTwice | src/pages/Index.tsx:34-38 | selecting an unselected id and toggling it again restores the selection |
| OrderList.SelectAll | src/pages/Index.tsx:40-46 | "select all" clears the selection when it is as long as the filtered list, whatever ids it holds, and otherwise selects exactly the filtered orders |
| OrderList.SelectAllTwiceClears | src/pages/Index.tsx:40-46 | pressing it twice from a partial selection ends with nothing selected |
| OrderList.ResolvedCases | src/pages/Index.tsx:48-52 | every printed case comes from a selected order, and each selected order gives at least one case |
| OrderList.ResolvedCasesIgnoresSelectionOrder | src/pages/Index.tsx:48-52 | the labels depend only on which ids are selected, not on the order they were clicked in |
| OrderList.NothingSelectedNoLabels | src/pages/Index.tsx:48-52 | with nothing selected no label is printed |
| OrderList.TotalCases | src/pages/Index.tsx:179 | the count on a label never exceeds the number of printed cases |
| OrderList.TotalCasesIsResolvedCount | src/pages/Index.tsx:179 | with unique order ids, the count on a selected order's labels is the number of cases resolved for that order |

## Left out

- Network and authentication: the Odoo JSON-RPC and currentRMS REST calls, credential loading, HTTP status errors, CORS and the Supabase client. The model starts from the records those calls return.
- The clock: `new Date().toISOString().split("T")[0]` becomes the parameter `today` of `FetchOrders.OdooOrder`.
- Odoo's `false` for an empty many2one or text field is modelled as a missing value (`None`). For the two date fields `false` is kept apart (`FetchOrders.OdooDate`): `false?.split(" ")` throws a TypeError, which `FetchOrders.OdooOrder` models as a failed conversion (`None`).
- Ids reach the model already as decimal text.
- Quantities are integers. Weights are exact reals, so floating-point rounding is not modelled. `Math.round(x * 100) / 100` is computed on exact reals as "nearest hundredth, halves up".
- `toLowerCase` is modelled on ASCII letters only. Characters outside `A`-`Z` are unchanged.
- Status lookups: a status equal to an inherited property name such as `constructor` is not modelled. Such a status gets "confirmed".
- Saving: the `delete` of old assignments, the `insert` call, its error path, the toast and `JSON.stringify`. The model builds the insert rows, with the assigned items as structured rows rather than JSON text.
- React state batching is not modelled. Each handler is one state-to-state function, and the nested `setAssignments` inside `toggleElectCase`'s updater is applied at once.
- The drag-and-drop relocation, the rendering of labels and pages, settings persistence and the preset editor are not modelled. These are `src/components/*` and `src/hooks/*` other than the types, plus `src/pages/Settings.tsx`.
- The LabelSettings fields that do not affect the label size (logo, colours, fonts, visibility flags) are left out of `Rental.LabelSettings`.
- OdooNames.CleanOdooItemName: the regex replacement is modelled in full. Its contract states trimming and length only. The removal of a rental period is proved for a trimmed name without `(` followed by one bracketed range of two slash dates, each date followed by text free of `-`, `)` and line breaks (`RentalPeriod.CleanRemovesRentalPeriod`, with the documented example in `RentalPeriod.CleanRemovesDocumentedPeriod`). It is not proved for every matching text: not for dates whose trailing text holds a `-` or `)`, several ranges in one name, or ISO dates.
- OdooNames.DateEnd: its contract states only the bounds of a match; the matched token is stated by `RentalPeriod.SlashDateAt` and `RentalPeriod.NoDateAtNonDigit`. `\d{2,4}` for the year is modelled as its shortest two-digit match. Any third or fourth year digit is consumed instead by the lazy gap or the tokens after it. A `-` or `)` that the rest of the pattern needs is never a digit. So the match found, and where it ends, are the same whether the year is read as two digits or as four.
- FetchOrders.StripTags: its contract states no provenance beyond "every kept character occurs in the input". The lemmas next to it give the full behaviour on untagged and stripped text.
- OdooNames.StripFrom: its contract states only the length bound. Its behaviour on concrete shapes is given by `OdooNames.StripWithoutParen`, `RentalPeriod.StripKeeps` and `RentalPeriod.PeriodMatch`.
- OdooNames.MatchAt: its contract states only the bounds of a match. Its result is stated for concrete shapes by `RentalPeriod.NoMatchWithoutParen` (no match) and `RentalPeriod.MatchAtGroup` (where a match ends), not for every text.
- OdooNames.GroupEnd: its contract states only that a match ends just after a `)`. Which text it removes is stated for concrete shapes by `RentalPeriod.PeriodGroup` and `RentalPeriod.CleanRemovesRentalPeriod`.
- OrderList.TotalCases: its contract states only the upper bound. The equality with the number of cases resolved for the order is `OrderList.TotalCasesIsResolvedCount`, under unique order ids.
- OrderList.ResolvedCases: its contract states provenance and a lower bound on the count. The exact per-order count is `OrderList.TotalCasesIsResolvedCount`.
- A line is classified from its raw `name`, date range included, and `name` is preferred over the product name. A line named `Projector (02/15/2025 … )` is therefore `video`, because `projector` is a whole word in it.
