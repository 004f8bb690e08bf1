# DevisFacture core in Dafny

DevisFacture is a quote (*devis*) and invoice (*facture*) application for small Moroccan
businesses. This project models and proves the parts of it that compute something:

- **The document editor's line-item engine.** Each row's total is derived from quantity and unit price unless a manual total overrides it. Section headers carry no amount. A recompute pass derives the subtotal, the VAT, the grand total (TTC) and the deposit.
- **The per-row edits and the row list operations.** These are add, delete and move up/down.
- **The copy of a client's contact fields into a document.**
- **The client ledger.** It covers invoiced total, a manual budget override, payments and balance, plus the payment, budget and project updates.
- **The two document-numbering schemes of the two generations of the app shell.** The newer one formats the document count in one of four layouts. The older one finds the largest `n-MMYY` already used this month.
- **The profile merge of details read from a scanned company document.**
- **The creation of new documents.**
- **The dashboard's search and newest-first order.**
- **The browser store.** There are four keys. Save means replace-or-append by id, and delete means filter by id.
- **The theme colour parser and the palette derived from it.**

Money is exact `real` arithmetic. Channel values and sequence numbers are unbounded integers.
The clock, random ids and date parsing are parameters: the month (1..12), the four-digit year,
the day's ISO text, a fresh id, and a `timeOf` function for a document's date.
JavaScript truthiness is written out:
- `IsTrue(b)` for an optional boolean.
- `NonEmptyOr(s, fallback)` for `s || fallback`.

## Layout

Module by module:

- **Types** (`types.dfy`): the records of `types.ts`.
  - `CompanyProfile` gains the optional `docNumberFormat` and `docNumberPrefix`. The code reads them, but the interface does not declare them.
  - Fields named `method` and `object` in the source are called `paymentMethod` and `subject`, because both names are reserved in Dafny.
- **Constants** (`constants.dfy`): the `INITIAL_PROFILE` and `INITIAL_DOCUMENT` fixtures.
- **DocumentEditor** (`document_editor.dfy`): the line-item engine.
  - `Recomputed` is the specification of one pass.
  - `Recompute` is the pass itself. Its loop, `HealRows`, fills a fresh array with the healed rows and accumulates the subtotal. The pass is proved equal to `Recomputed`.
  - `MoveItem` copies the rows into an array and swaps two slots in place.
- **ClientLedger** (`client_ledger.dfy`): the client financial summary and the client updates.
- **SrcApp** (`src_app.dfy`): the newer shell (`src/App.tsx`). It covers numbering by count, manual and scanned-document creation, and the dashboard.
- **App** (`app.dfy`): the older shell (`App.tsx`). It covers numbering by the largest matched sequence (a loop, proved against `MaxSequence`), manual creation and the profile merge.
- **Storage** (`storage.dfy`): the store as a class over a map from key to parsed slot. Its methods are proved against `Keyed`.
- **Keyed** (`keyed.dfy`): find-by-id, upsert and remove-by-id over any record with an id.
- **Theme** (`theme.dfy`): `hexToRgb`, `mix` and `generatePalette`.
- **Decimal** and **Wrappers**: decimal text of numbers, and `Option`.

Behaviour of the code worth knowing when reading the model:
- A budget amount of 0 or less clears `customTotal` and still stores the note verbatim (components/Clients.tsx:295-299).
- `isCustom` holds for any present override, even 0 or a negative one. A comment above it speaks of "greater than 0", but the code checks only presence (src/components/Clients.tsx:15-17).
- `deleteItem` does not recompute; the recompute pass is a separate step (components/DocumentEditor.tsx:136-138).

The older and newer copies of the client page (`components/Clients.tsx` and
`src/components/Clients.tsx`) have the same ledger code line for line. The ledger
is modelled once, and the rows below cite one copy or the other.

## Model

| member | source | states |
|---|---|---|
| Decimal.NatToString | src/App.tsx:24-26 | the text of a count is a non-empty digit string with no leading zero unless the count is 0 |
| Decimal.ParseNatToString | App.tsx:32 | reading back the decimal text of `n` gives `n` |
| Decimal.ParseIgnoresLeadingZero | App.tsx:32 | a leading zero does not change the decimal value read |
| Decimal.PadStart2 | src/App.tsx:18 | padding gives text of at least two characters: the original at the end, zeros before it |
| Decimal.SliceLast2 | src/App.tsx:19 | keeps the last two characters, or all of a shorter text, as a suffix of the original |
| Decimal.MonthTextDigits | src/App.tsx:18 | a month 1..12 is written as exactly two digits that read back as the month |
| Decimal.ShortYearTextDigits | src/App.tsx:19 | a year ≥ 10 is written as two digits that read back as the year modulo 100 |
| Keyed.FindIndex | services/storageService.ts:25 | the index found holds the id and no earlier entry does; there is none exactly when no entry holds the id |
| Keyed.UpsertExisting | services/storageService.ts:24-28 | an existing id: the first match is replaced, length and every other entry unchanged |
| Keyed.UpsertNew | services/storageService.ts:29-30 | an unseen id: the record is appended, length grows by one |
| Keyed.UpsertStores | services/storageService.ts:23-31 | after saving, the first record with that id is the saved one |
| Keyed.UpsertIdempotent | services/storageService.ts:23-32 | saving the same record twice equals saving it once |
| Keyed.RemoveById | services/storageService.ts:34-38 | the result is no longer than the input, holds no record with the id, and only records of the input |
| Keyed.RemoveAbsent | services/storageService.ts:36 | deleting an absent id changes nothing |
| Keyed.RemoveConcat | services/storageService.ts:36 | deleting distributes over concatenation, so the order of the rest is kept |
| Keyed.RemoveCounts | services/storageService.ts:36 | each record with the id occurs zero times afterwards; every other record as often as before |
| Keyed.RemoveAfterUpsert | services/storageService.ts:23-38 | deleting a just-saved id gives the same collection as deleting it before the save |
| Constants.InitialDocumentAmounts | constants.ts:36-45 | the sample row is automatic and consistent (1 × 100 = 100); subtotal 100, no VAT so TTC = subtotal, deposit 50% of TTC |
| Constants.InitialProfileNumbering | constants.ts:18-19 | the profile numbering defaults are `seq-mmyy` and an empty prefix |
| DocumentEditor.Recompute | components/DocumentEditor.tsx:47-89 | the loop's result equals `Recomputed(doc)`, and an update is reported exactly when the result differs from the input |
| DocumentEditor.HealedIsConsistent | components/DocumentEditor.tsx:53-64 | a healed row is consistent, contributes what the original contributed, and is the original exactly when that was consistent |
| DocumentEditor.HealAllIdentity | components/DocumentEditor.tsx:49-67 | healing leaves the rows unchanged exactly when every row is consistent |
| DocumentEditor.HealRows | components/DocumentEditor.tsx:49-66 | the loop's array holds exactly the healed rows and its running sum is the subtotal of the rows |
| DocumentEditor.RecomputedRows | components/DocumentEditor.tsx:49-65 | after the pass the rows are, place by place, the healed rows |
| DocumentEditor.RecomputeHealsAutoRow | components/DocumentEditor.tsx:53-64 | a non-header, non-overridden row ends with total = quantity × unitPrice, its other fields kept |
| DocumentEditor.RecomputeKeepsFixedRow | components/DocumentEditor.tsx:51-63 | an overridden row or a section header is returned unchanged |
| DocumentEditor.RecomputeReplacesItemsOnlyWhenStale | components/DocumentEditor.tsx:67-82 | `items` changes exactly when some row was inconsistent |
| DocumentEditor.RecomputeTotals | components/DocumentEditor.tsx:69-77 | subtotal = sum of contributions; VAT = subtotal × rate/100 when VAT is on, else 0; TTC = subtotal + VAT; deposit = TTC × pct/100 when on with a positive percentage, else 0 |
| DocumentEditor.RecomputeKeepsInputs | components/DocumentEditor.tsx:79-88 | the pass changes nothing but the rows and the four totals |
| DocumentEditor.SubTotalConcat | components/DocumentEditor.tsx:49-58 | the accumulated subtotal of two row runs is the sum of their subtotals |
| DocumentEditor.SubTotalSkipsHeader | components/DocumentEditor.tsx:51 | a section header anywhere adds nothing to the subtotal |
| DocumentEditor.SubTotalCountsOverride | components/DocumentEditor.tsx:57-58 | an overridden row adds its stored total, not quantity × unitPrice |
| DocumentEditor.SubTotalOfHealed | components/DocumentEditor.tsx:53-64 | healing the rows leaves their subtotal unchanged |
| DocumentEditor.FixedPointIffConsistent | components/DocumentEditor.tsx:79 | the pass returns the document unchanged exactly when rows and totals are consistent |
| DocumentEditor.RecomputedIsConsistent | components/DocumentEditor.tsx:47-89 | one pass makes any document consistent |
| DocumentEditor.RecomputeIdempotent | components/DocumentEditor.tsx:47-89 | recomputing twice equals recomputing once |
| DocumentEditor.ChangeItemScope | components/DocumentEditor.tsx:91-108 | an edit changes only rows with the given id, and nothing outside the rows |
| DocumentEditor.EditOverrideRules | components/DocumentEditor.tsx:96-104 | every edit stores the new value in its field and changes nothing else, except that quantity or price edits also clear the override and a total edit sets it |
| DocumentEditor.PriceEditThenRecompute | components/DocumentEditor.tsx:97-99 | after a quantity or price edit and a pass, the row is automatic again with total = new quantity × unitPrice |
| DocumentEditor.TotalEditThenRecompute | components/DocumentEditor.tsx:100-102 | after a total edit and a pass, the typed total stays and is what the subtotal counts |
| DocumentEditor.ResetThenRecompute | components/DocumentEditor.tsx:434 | the reset button and a pass put the row back to quantity × unitPrice |
| DocumentEditor.AddRowKeepsTotals | components/DocumentEditor.tsx:110-134 | a new blank line or a new section adds nothing to the subtotal and keeps a consistent document consistent |
| DocumentEditor.DeleteItemLaws | components/DocumentEditor.tsx:136-138 | delete leaves no row with the id and removes exactly those rows; for rows split as `a + b` the result is the filtered `a` followed by the filtered `b`, so order is kept; an absent id is a no-op |
| DocumentEditor.MoveItem | components/DocumentEditor.tsx:140-148 | up swaps with the previous row, down with the next; up at 0 and down at the last index are no-ops; the result is a permutation |
| DocumentEditor.SwapSlots | components/DocumentEditor.tsx:143-145 | the in-place swap leaves the array equal to the adjacent swap of its old contents |
| DocumentEditor.SwapAdjacentPermutes | components/DocumentEditor.tsx:140-148 | an adjacent swap keeps the length and the multiset of rows |
| DocumentEditor.SwapKeepsSubTotal | components/DocumentEditor.tsx:140-148 | moving a row does not change the subtotal |
| DocumentEditor.SelectClientSnapshot | components/DocumentEditor.tsx:221-232 | the document receives a copy of the client's id and contact fields and nothing else changes; the copy commutes with the recompute pass |
| DocumentEditor.EditorDefaultsFill | components/DocumentEditor.tsx:14-24 | present fields are kept; missing ones get false / classic / (type = devis) / 50 / 0 / "" / "" / ""; applying the defaults twice adds nothing |
| DocumentEditor.InitialDocumentIsFixedPoint | constants.ts:22-46 | the sample document is consistent, the pass leaves it unchanged, and the editor defaults only fill the empty client link |
| DocumentEditor.OverrideAndSelfHealCases | components/DocumentEditor.tsx:53-64 | an overridden 500 on 1 × 1 stays and counts 500; a stale 999 on 3 × 10 becomes 30; subtotal 530 |
| DocumentEditor.HeaderCase | components/DocumentEditor.tsx:51 | a header beside 2 × 50 gives subtotal 100 and the header is untouched |
| DocumentEditor.TaxAndDepositCase | components/DocumentEditor.tsx:70-77 | 20% VAT on 1000 gives 200 and TTC 1200; a 50% deposit gives 600 |
| ClientLedger.InvoiceTotalPrepend | components/Clients.tsx:10-12 | a document in front adds its TTC exactly when it is this client's invoice |
| ClientLedger.InvoiceTotalIsFilteredSum | components/Clients.tsx:10-12 | the invoiced total is the TTC sum over the client's documents of type invoice, in that filter order |
| ClientLedger.QuoteTotalPrepend | src/components/Clients.tsx:322 | a document in front adds its TTC to the quote total exactly when it is a quote |
| ClientLedger.QuotesAndInvoicesPartition | src/components/Clients.tsx:322 | over a client's documents, the quote total plus the invoice total is the sum of all grand totals |
| ClientLedger.TotalPaidPrepend | components/Clients.tsx:14 | a payment in front adds exactly its amount to the total paid |
| ClientLedger.FinancialsLaws | src/components/Clients.tsx:8-22 | custom exactly when an override is present; final total is the override or the invoiced total; balance = final − paid, negative on overpayment; the invoiced total ignores the override |
| ClientLedger.AddPaymentRejects | components/Clients.tsx:272 | a missing, zero or negative amount leaves the client and its summary unchanged |
| ClientLedger.AddPaymentPrepends | src/components/Clients.tsx:326-339 | a valid payment is prepended with the amount and fresh id, the entered method or Espèces when it is empty, the entered date or now when it is empty, and the note as given; older payments keep order, nothing else changes, total paid grows and the balance drops by the amount |
| ClientLedger.SetBudgetEffect | components/Clients.tsx:295-299 | a positive amount sets the override, zero or less clears it; the note is stored verbatim; invoiced total and payments are unaffected |
| ClientLedger.ResetBudgetEffect | src/components/Clients.tsx:712 | reset clears both override fields and the final total falls back to the invoiced total |
| ClientLedger.AddProjectLaws | src/components/Clients.tsx:399-413 | an empty or missing title is a no-op; otherwise the project is prepended with the fresh id and title, nothing else changes |
| ClientLedger.DeleteProjectLaws | src/components/Clients.tsx:423-426 | only projects with that id are removed, the others keep their counts; deleting a just-added project is the same as deleting that id without the add, and gives back the client itself when no project had that id |
| ClientLedger.BalanceCases | src/components/Clients.tsx:8-22 | invoices 3000 + 2000 and payments 2000 + 1000 give balance 2000 in auto mode; an override of 4000 gives 1000 and still reports 5000 invoiced |
| SrcApp.NextNumberCountsOnly | src/App.tsx:24 | the number depends only on how many documents exist |
| SrcApp.NextNumberPrefix | src/App.tsx:16-33 | a missing scheme is seq-mmyy; the prefix goes in front verbatim and an empty or missing prefix adds nothing |
| SrcApp.FormatNumberSchemes | src/App.tsx:26-31 | `n-MMYY`, `n/YYYY`, `YYYY-n`, and the bare `n` for seq and unknown schemes |
| SrcApp.DefaultSchemeReadsBack | src/App.tsx:17-28 | the default number is the count's digits, a dash, two digits reading as the month and two as the year mod 100 |
| SrcApp.NumberingCases | src/App.tsx:16-33 | six documents in December 2025: `7-1225`; prefix `FAC-` with yyyy-seq: `FAC-2025-7` |
| SrcApp.DefaultNumber | src/App.tsx:16-28 | with no scheme and no prefix the number is the count plus one, a dash and `MMYY` |
| SrcApp.InitialNumberIsFirst | constants.ts:25 | the sample's number is the number the default profile gives for an empty store |
| SrcApp.ManualDocumentLaws | src/App.tsx:42-52 | a manual document is the sample with only id, number and date replaced, and it is a recompute fixed point |
| SrcApp.OcrNumber | src/App.tsx:78 | a non-empty extracted number is kept, otherwise the generated one is used |
| SrcApp.OcrDocument | src/App.tsx:75-80 | only number and id are settled on the merged document |
| SrcApp.Lower | src/App.tsx:298-299 | same length and each character lower-cased |
| SrcApp.IncludesIffOccurs | src/App.tsx:298-299 | `includes` holds exactly when the term occurs at some position |
| SrcApp.SearchFilter | src/App.tsx:297-299 | the filtered list is no longer than the documents |
| SrcApp.SearchFilterSelects | src/App.tsx:297-299 | each matching document is kept as often as it occurs, each other one dropped |
| SrcApp.InsertByTime | src/App.tsx:300 | inserting keeps newest-first order and adds exactly one entry |
| SrcApp.SortNewestFirst | src/App.tsx:300 | the sort yields newest-first order and a permutation of its input |
| SrcApp.DashboardListLaws | src/App.tsx:297-300 | the dashboard list is newest first, holds exactly the matching documents with their multiplicities, and is a subset of the documents |
| SrcApp.EmptySearchKeepsAll | src/App.tsx:297-299 | an empty search keeps every document in order |
| SrcApp.SearchIgnoresCase | src/App.tsx:298-299 | terms equal up to ASCII case give the same match |
| App.MatchSequenceSound | App.tsx:24-32 | a match is exactly digits, a dash and the month suffix, read as a decimal sequence |
| App.MatchSequenceComplete | App.tsx:24-32 | any non-empty digit run followed by `-MMYY` matches with its decimal value |
| App.LargestSequence | App.tsx:26-38 | the loop's running maximum equals the largest matched sequence (0 when none) |
| App.NextNumber | App.tsx:17-41 | the result is `(max + 1)-MMYY` for the given month and year |
| App.MaxSequenceIsMaximum | App.tsx:26-38 | the maximum bounds every matched sequence and, when positive, is attained by one of them |
| App.NextSequenceExceedsAll | App.tsx:26-40 | the new sequence is strictly greater than every sequence matched this month |
| App.NoMatchMaxZero | App.tsx:26-38 | when no stored number ends in `-MMYY` the largest sequence found is 0 |
| App.NoMatchStartsAtOne | App.tsx:26-40 | with no matching number the result is `1-MMYY`, the sample document's number |
| App.MatchCases | App.tsx:24-32 | `007-1225` counts as 7, `12-1225` as 12; another month, a prefix or a bare suffix do not match |
| App.SavingNextNumberAdvances | App.tsx:17-41 | storing a document under the returned number makes the next maximum exactly one larger |
| App.ReadsNewerNumbering | App.tsx:24 | the newer shell's default number with no prefix matches here with the document count as sequence |
| App.ManualDocument | App.tsx:181-186 | the sample with only id, number and date replaced, still a recompute fixed point |
| App.PreferNonEmpty | App.tsx:415-422 | a non-empty extracted value wins, otherwise the previous value stays |
| App.MergeProfileFields | App.tsx:411-423 | each of the ten fields takes the extracted value when non-empty; website, CNSS, logo and numbering are unchanged |
| App.MergeNothingIsIdentity | App.tsx:411-423 | a scan that found nothing leaves the profile unchanged |
| App.MergeIdempotent | App.tsx:411-423 | merging the same scan twice equals merging it once |
| Storage.KeysDistinct | services/storageService.ts:5-10 | the four storage keys are pairwise different, so a write under one key leaves the others alone |
| Storage.ValidReads | services/storageService.ts:13-21 | in a store where each key holds its own kind of value, a getter returns exactly the value stored under its key whenever that key is readable |
| Storage.FindFirst | services/storageService.ts:25 | the loop returns the first index holding the id, or -1 |
| Storage.StorageService.SaveDocument | services/storageService.ts:23-32 | the documents become the upsert of the old documents; the other keys are untouched |
| Storage.StorageService.DeleteDocument | services/storageService.ts:34-38 | the documents become the old ones without that id; the other keys are untouched |
| Storage.StorageService.SaveProfile | services/storageService.ts:49-51 | the profile is written whole; the collections are untouched |
| Storage.StorageService.SaveClient | services/storageService.ts:62-71 | the clients become the upsert of the old clients; the other keys are untouched |
| Storage.StorageService.DeleteClient | services/storageService.ts:73-77 | the clients become the old ones without that id; the other keys are untouched |
| Storage.StorageService.SaveSupplier | services/storageService.ts:88-97 | the suppliers become the upsert of the old suppliers; the other keys are untouched |
| Storage.StorageService.DeleteSupplier | services/storageService.ts:99-103 | the suppliers become the old ones without that id; the other keys are untouched |
| Storage.ReadFallbacks | services/storageService.ts:13-21 | a missing or unparsable collection reads as empty, a missing or unparsable profile as the default profile |
| Storage.FreshStoreReads | services/storageService.ts:40-47 | a store that never saved anything reads no documents and the default profile |
| Storage.SaveThenRead | services/storageService.ts:23-32 | an existing id keeps the length, a new id appends, a second save changes nothing, other keys survive |
| Theme.HexValue | contexts/ThemeContext.tsx:20-22 | a hex digit's value is below 16 |
| Theme.HexByte | contexts/ThemeContext.tsx:20-22 | two hex digits give a value in 0..255 |
| Theme.HexToRgb | contexts/ThemeContext.tsx:16-24 | every parsed channel lies in 0..255 |
| Theme.HexToRgbAccepts | contexts/ThemeContext.tsx:17 | a colour parses exactly when it is six hex digits, optionally after `#` |
| Theme.HexRoundTrip | contexts/ThemeContext.tsx:17-22 | a colour written as `#rrggbb`, with or without `#`, parses back to itself |
| Theme.HexIgnoresCase | contexts/ThemeContext.tsx:17 | upper- and lower-case digits parse alike |
| Theme.MixEndpoints | contexts/ThemeContext.tsx:34-36 | mixing 0% gives the start and 100% gives the end |
| Theme.MixMonotone | contexts/ThemeContext.tsx:34-36 | a larger percentage moves the value further toward the end, never back |
| Theme.MixBetween | contexts/ThemeContext.tsx:34-36 | for 0..100% the mix lies between start and end |
| Theme.GeneratePalette | contexts/ThemeContext.tsx:28-57 | null exactly when the colour does not parse; otherwise the eleven variables `--primary-50` … `--primary-950` in order |
| Theme.BaseShadeIsColour | contexts/ThemeContext.tsx:51 | `--primary-500` is the parsed colour as `r g b` |
| Theme.ChannelOrdered | contexts/ThemeContext.tsx:45-57 | one channel's shades run 50 ≥ … ≥ 400 ≥ base ≥ 600 ≥ … ≥ 950, all within 0..255 |
| Theme.ShadesOrdered | contexts/ThemeContext.tsx:45-57 | per channel, white mixes never darken and black mixes never lighten; the extreme shades are valid colours |
| Theme.DefaultColour | contexts/ThemeContext.tsx:67 | the default brand colour `#2563eb` parses to (37, 99, 235) |

## Left out

- JSX rendering, the print templates, `toFixed` and thousands separators. They are presentation only.
- PDF download, printing, share links (`btoa`/`encodeURIComponent`), email and WhatsApp. They are browser I/O.
- The Gemini scanning service and the overlay of its partial document. They are network calls and JSON parsing of model output. `SrcApp.OcrDocument` takes the overlaid document as given and models only the number fallback and the id.
- Authentication, the `ThemeProvider` effect, the layout and the supplier screens. They are UI, DOM and session code with no modelled logic beyond what the store covers.
- React state, effects and batching. The effect becomes the explicit `Recompute` call.
- Floating point. Amounts are exact reals and `Math.round` is exact half-up. The rows lose IEEE-754 artefacts (such as `percent / 100`), `NaN`, and `parseFloat(...) || 0` coercion.
- `Date.now()`, `Math.random()` and `new Date()`. They are parameters: a fresh id, month and year, the day's text, and `timeOf`. Negative years are not modelled, and `timeOf` is total, so invalid dates giving `NaN` in the sort comparator are not modelled.
- `confirm()` and `alert()`. A delete is modelled as confirmed.
- SrcApp.SortNewestFirst: orders and permutes, but the stability of JavaScript's sort (equal dates keep input order) is not stated as a lemma.
- SrcApp.Lower: lower-cases ASCII letters only. `toLowerCase` also folds other Unicode letters.
- App.MatchSequence: `parseInt` loses precision above 2^53. The model reads digit runs exactly.
- Storage.StorageService: a key holding JSON of the wrong shape, or the literal `null`, is treated as unreadable. The code would return the parsed value as it is.
- ClientLedger.AddProject: a stored client whose `projects` is missing (`client.projects || []`) is not modelled. Clients always carry a list.
