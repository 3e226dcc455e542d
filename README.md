# Personal-finance ledger: a verified model of the ledger store

The application keeps a list of expense and revenue transactions in one
piece of component state (`transactions` in `App`). It has a creation
form, editable table rows and an optional categorizer that asks a local
inference service for a category. This project models the ledger store.
It covers the record types, the creation handler that appends and re-sorts
newest first (for records with in-memory dates; see "## Left out" for
records reloaded from storage), the row edit merge, the row delete filter, the category
write-back, and the categorization context (the first 20 records).

Modules, one concern each:

- `Transactions` (`transaction.dfy`): the `Transaction`, `Category` and `Draft` records. `Draft` holds the form's five fields. The source's `label` field is called `labelText` and its `type` field is called `kind` (of type `Kind`), because `label` and `type` are Dafny keywords. Amounts are integers. Dates and ids are integers in milliseconds.
- `Ids` (`ids.dfy`): `IdCount` and `UniqueIds`, with the lemmas that reordering keeps every id's count and keeps ids unique.
- `Sorting` (`sorting.dfy`): the creation comparator and an in-place insertion sort on an `array` that uses it. `SortNewestFirst` applies the sort to a fresh copy, as `[...transactions, t].sort(...)` does.
- `LedgerOps` (`ledger_ops.dfy`): the operations as functions on `seq<Transaction>`. `Update` is the `map` with a spread merge. `Delete` is the `filter`. `SetCategory` is the write-back `map`. `Context` is the slice. `Create` is a method because it calls the sort.
- `Store` (`ledger.dfy`): class `Ledger`, the state cell. Each handler assigns the result of one of those operations to `transactions`.
- `Session` (`session.dfy`): a client whose short session (two creations, the later-dated one second, an edit, a deletion) is checked against the class's contracts.

The sort promises dates that never increase plus a permutation. It does not
promise a tie order. The comparator never answers 0, so the order of records
with equal dates depends on the engine.

The source types `category` as always present. A new record has no
category, so the model uses an `Option`. An edit patch is a record of
optional fields, and merging it replaces exactly the present ones. The row
editor always sends its five fields (`EditPatch`), so `id` and `category`
keep their values.

At start-up the source parses the stored value directly. A missing key gives
an empty list. A malformed stored value makes the parse throw, and nothing
is recovered. The constructor models only the missing-key case and the
already-parsed list.

## Model

| member | source | states |
|---|---|---|
| `Transactions.NewTransaction` | src/App.tsx:44-47 | the created record's id is the clock value, its five editable fields are the form's, and it has no category |
| `Transactions.DefaultForm` | src/App.tsx:20-26 | the form's reset value: an expense with empty label and notes, amount 0, dated at load time |
| `Sorting.Compare` | src/App.tsx:49-51 | the comparator answers only -1 or 1, and -1 exactly when the first record's date is later |
| `Sorting.InsertionSort` | src/App.tsx:49-51 | sorting in place leaves the array newest first and a permutation of what it held |
| `Sorting.SortNewestFirst` | src/App.tsx:49-51 | sorting the spread copy gives a newest-first permutation of its input, of the same length |
| `Sorting.NewerComesFirst` | src/App.tsx:49-51 | in the sorted list a strictly newer record stands before an older one, so a record dated between two others lands between them |
| `Sorting.TwoSorted` | src/App.tsx:49-51 | two records always come out newest first, whatever their order before the sort |
| `Ids.IdCountPermutation` | src/App.tsx:49-51 | re-sorting keeps how many records carry each id |
| `Ids.UniqueIdsPermutation` | src/App.tsx:49-51 | re-sorting keeps ids unique |
| `Ids.AppendFreshId` | src/App.tsx:44-49 | appending a record whose id is unused keeps ids unique |
| `LedgerOps.Create` | src/App.tsx:42-53 | creation yields length + 1, a permutation of the old list plus the new record, newest first; the new record is present, its id's count grows by one, and ids stay unique when the clock value is unused |
| `LedgerOps.Merge` | src/App.tsx:200-203 | the spread `{ ...t, ...p }`: keeps the id, takes each field present in the patch; its contract is carried by `UpdateAt`, `UpdateKeepsIds`, `UpdateIdempotent` and `EditReplacesFormFields` |
| `LedgerOps.EditPatch` | src/TransactionRow.tsx:17-30 | the patch the row editor sends: its five form fields and no id or category; its effect is stated by `EditReplacesFormFields` |
| `LedgerOps.Update` | src/App.tsx:197-206 | the `map` that merges the patch over the records with id k; its contract is carried by `UpdateAt`, `UpdateMissing`, `UpdateKeepsIds`, `UpdateKeepsUnique` and `UpdateIdempotent` |
| `LedgerOps.UpdateAt` | src/App.tsx:196-208 | an update keeps the length and the positions, keeps every record with another id, and merges the patch over every record with id k |
| `LedgerOps.UpdateMissing` | src/App.tsx:197-206 | an update of an id that no record has returns the list unchanged |
| `LedgerOps.UpdateKeepsIds` | src/App.tsx:199-203 | an update never changes any id's count, because the patch has no id |
| `LedgerOps.UpdateKeepsUnique` | src/App.tsx:197-206 | an update keeps ids unique |
| `LedgerOps.UpdateIdempotent` | src/App.tsx:197-206 | applying the same patch twice equals applying it once |
| `LedgerOps.EditReplacesFormFields` | src/TransactionRow.tsx:17-31 | saving the row editor sets the matching records' five fields to the editor's values and keeps their id and category |
| `LedgerOps.EditDoesNotResort` | src/App.tsx:197-206 | an edited date is not re-sorted: a newest-first list can stop being newest first after an edit |
| `LedgerOps.Delete` | src/App.tsx:211 | the `filter` on id different from k; its contract is carried by `DeleteIsSubsequence`, `DeleteContents`, `DeleteCounts`, `DeleteMissing`, `DeleteIdempotent` and `DeleteKeepsUnique` |
| `LedgerOps.DeleteIsSubsequence` | src/App.tsx:210-212 | the result of a delete is a subsequence of the list: kept records keep their order |
| `LedgerOps.DeleteContents` | src/App.tsx:210-212 | a delete removes every record with id k and keeps every other record as often as it occurred |
| `LedgerOps.DeleteCounts` | src/App.tsx:210-212 | after a delete no record has id k, other ids keep their counts, and the length drops by the number removed |
| `LedgerOps.DeleteMissing` | src/App.tsx:210-212 | deleting an id that no record has returns the list unchanged |
| `LedgerOps.DeleteIdempotent` | src/App.tsx:210-212 | deleting twice equals deleting once |
| `LedgerOps.DeleteKeepsUnique` | src/App.tsx:210-212 | a delete keeps ids unique |
| `LedgerOps.SetCategory` | src/App.tsx:85-93 | the write-back `map` that sets the category of the records with id k; its contract is carried by `SetCategoryAt`, `SetCategoryIsUpdate`, `SetCategoryKeepsUnique` and `SetCategoryMissing` |
| `LedgerOps.SetCategoryAt` | src/App.tsx:84-94 | the write-back keeps the length, and in every record all fields but the category; the category becomes the parsed one exactly for records with id k |
| `LedgerOps.SetCategoryIsUpdate` | src/App.tsx:84-94 | the write-back equals the edit merge with a patch that carries only the category |
| `LedgerOps.SetCategoryKeepsUnique` | src/App.tsx:84-94 | the write-back keeps ids unique |
| `LedgerOps.Categorized` | src/App.tsx:79-94 | the outcome of one categorization: the parsed category written back, or the list unchanged when the request or a parse fails; stated through `SetCategory`'s lemmas and `Store.Ledger.FinishCategorization` |
| `LedgerOps.SetCategoryMissing` | src/App.tsx:84-94 | a write-back for an id that no record has, such as a deleted one, changes nothing |
| `LedgerOps.Context` | src/App.tsx:59 | the context is a prefix of the list, of length min(20, length) |
| `Store.Ledger.CategorizationContext` | src/App.tsx:59 | the context of the current list, `Context(transactions)`; its contract is carried by `LedgerOps.Context` and `LedgerOps.ContextIsNewest` |
| `LedgerOps.ContextIsNewest` | src/App.tsx:59 | on a newest-first list, no record left out of the context is newer than one sent |
| `Store.Ledger.constructor` | src/App.tsx:29-32 | start-up state: the stored list, or empty when nothing is stored; the form at its default |
| `Store.Ledger.FillForm` | src/App.tsx:108-171 | the inputs' edits leave the given draft in the form and touch nothing else |
| `Store.Ledger.CreateTransaction` | src/App.tsx:42-56 | the state after a create is a newest-first permutation of the old list plus the new record built from the form; ids stay unique under a fresh clock value; the form is reset |
| `Store.Ledger.ChangeTransaction` | src/App.tsx:196-208 | the new list is the merge-update of the old one, with ids and positions kept, other records untouched, and uniqueness preserved |
| `Store.Ledger.DeleteTransaction` | src/App.tsx:209-213 | the new list is the filtered old one, no record has id k, and uniqueness is preserved |
| `Store.Ledger.FinishCategorization` | src/App.tsx:79-94 | a parsed category is written back to the records with id k; a failed request or parse writes nothing; ids stay unique |

## Left out

- `LedgerOps.Create`, `Store.Ledger.CreateTransaction`, `Store.Ledger.constructor`: the newest-first guarantee after a create holds only for records whose dates are in memory, that is, records created in this page session, or saved through the row editor in it (the editor rebuilds the date, src/TransactionRow.tsx:21). After a reload each stored date is an ISO string (src/App.tsx:31), so `+t.date` at src/App.tsx:50 is NaN and the comparator answers 1 for every pair that involves a reloaded record. The resulting order is then up to the engine. For example, from stored [A dated 2024-01-10, B dated 2024-01-05], creating C dated 2024-01-20 can leave C last in an engine that reads answers of 1 as an ascending run. The constructor takes integer dates, so it revives them, which the source does not do.
- Persistence: the effect that serialises the list into local storage after each change is not modelled. It is browser I/O. Dates would come back as strings after a reload, so the model does not claim a round trip.
- Malformed stored data: the parse at start-up throws. The constructor takes an already-parsed list or no list.
- The inference request: the HTTP call, its prompt and both JSON parses are left out. They are network I/O and a foreign model. `FinishCategorization` takes their outcome as an `Option<Category>`. The source casts whatever JSON the inner parse yields to a category without checking its shape, and the model only sees well-formed categories.
- Categorization is unreachable from the table: the row's "Catégoriser" button has no handler, and the row does not accept the categorize callback. The model still states what the write-back does when it runs.
- The clock and the load-time date: both are parameters (`now`, `loadTime`).
- Floating-point amounts and the `Number(...)` and `new Date(...)` coercions: amounts are integers, and dates are integer milliseconds.
- Form rendering, the controlled inputs and the row's `editing` flag: this is UI. `FillForm` stands for the inputs' combined effect on the form.
- React scheduling and `setState` batching: each handler is one atomic assignment to `transactions`.
- `Sorting.InsertionSort`: the engine's own sort algorithm is not modelled. With a comparator that never returns 0, the engine's tie order is unspecified, and this sort's tie order is only one possibility.
