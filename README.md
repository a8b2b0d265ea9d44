# Property listing components: search panel and owner dashboard

This project models the client-side logic of two views in a property-listing marketplace.

- **Search panel** (`PropertySearchSection`). The user types a free-text query. A query that is blank after trimming is rejected with an error toast, and no request is made. Otherwise the whole property collection is read. The records whose lower-case name or lower-case location contains the lower-case query then replace the displayed list. Zero matches shows an empty list and an informational toast. A failed read leaves the list as it was and shows an error toast.
- **Owner dashboard** (`PropertyWin`). On mount, the whole collection is read and only the records whose `userId` is strictly equal to the signed-in user's id are kept. The `loading` flag is cleared whether the read succeeds or fails. Delete asks for confirmation first, then sends one delete request. Only when that request succeeds is every record with the given `_id` removed from the local list.

Modules:

- `Records` (`records.dfy`): the property record (its `userId` may be missing, `null` or a string), the outcome of a read, and toasts.
- `Seqs` (`seqs.dfy`): `Array.prototype.filter` (section 23.1.3.8 of ECMA-262) as `Filter`, with what it guarantees. It keeps exactly the accepted elements, with their multiplicities and their order.
- `Text` (`text.dfy`): `trim`, `toLowerCase` and `includes` (sections 22.1.3.32, 22.1.3.28 and 22.1.3.8 of ECMA-262). `includes` is related to a reference definition by start index.
- `BuyScreen` (`buy_screen.dfy`): the match predicate and the search filter, the class `PropertySearchSection` with the `searchQuery`/`properties` state and `HandleSearch`, and lemmas about searching.
- `ManageRentals` (`manage_rentals.dfy`): the owner filter and removal by id, the class `PropertyWin` with the `properties`/`loading` state, `FetchData` and `HandleDelete`, and lemmas about them.

The network, the confirmation prompt and the signed-in user become method parameters:

- a `FetchOutcome` (`Fetched(records)`, `NotOk` or `Threw`);
- a `DeleteOutcome`;
- `confirmed: bool`;
- `currentUserId: Option<string>`.

Each handler returns the toast it would show, with the source's exact message text, and whether it issued a request.

Three behaviours of the code are easy to misread:

- With nobody signed in, one might expect the owner filter to show nothing. The code compares with `===` against an `undefined` user id, so the records that have no `userId` member at all are kept (`ManageRentals.OwnedByAbsentUser`). The list is empty only if every record carries a `userId`. A record whose `userId` is `null` is never kept, whoever is signed in (`ManageRentals.OwnedBy`).
- One might expect a failed load to show an empty list. The code leaves `properties` as it was (`ManageRentals.PropertyWin.FetchData`). That is the initial empty list on the first load (`ManageRentals.Mount`). When the effect runs again for a new user id and that read fails, the previous list stays.
- One might expect a delete to remove just "the record" with the id. The code removes every record carrying that id (`ManageRentals.RemoveById`). The two agree when ids are unique (`ManageRentals.RemoveExactlyOne`).

## Model

| member | source | states |
|---|---|---|
| Seqs.Filter | src/components/ui/BuyScreen/PropertySearchSection.tsx:33-37 | the filtered array is no longer than the input, and every element in it comes from the input and is accepted by the callback |
| Seqs.FilterComplete | src/components/ui/BuyScreen/PropertySearchSection.tsx:33-37 | every input element the callback accepts is in the result |
| Seqs.FilterCount | src/components/ManageRentals/PropertyWin.tsx:31-33 | an accepted element occurs in the result exactly as often as in the input, and a rejected one does not occur |
| Seqs.FilterIsSubsequence | src/components/ui/BuyScreen/PropertySearchSection.tsx:33 | the result is a subsequence of the input, so relative order is preserved |
| Seqs.FilterKeepsAll | src/components/ManageRentals/PropertyWin.tsx:65 | a filter that accepts every element returns its input unchanged |
| Seqs.FilterEmptyIff | src/components/ui/BuyScreen/PropertySearchSection.tsx:40-42 | the result is empty if and only if the callback rejects every input element |
| Seqs.FilterIdempotent | src/components/ManageRentals/PropertyWin.tsx:65 | filtering the result again with the same callback changes nothing |
| Seqs.FilterCongruent | src/components/ui/BuyScreen/PropertySearchSection.tsx:35-36 | two callbacks that agree on every input element give the same result |
| Seqs.FilterDropsOne | src/components/ManageRentals/PropertyWin.tsx:65 | if the callback rejects only the element at index k, the result is the input with just that element removed |
| Text.TrimStart | src/components/ui/BuyScreen/PropertySearchSection.tsx:18 | the result is a suffix of the input, all the cut-off characters are white space, and it does not start with white space |
| Text.TrimEnd | src/components/ui/BuyScreen/PropertySearchSection.tsx:18 | the result is a prefix of the input, all the cut-off characters are white space, and it does not end with white space |
| Text.Trim | src/components/ui/BuyScreen/PropertySearchSection.tsx:18 | the result is the input with a leading and a trailing run of white space cut off and nothing else; it neither starts nor ends with white space; it is empty if and only if every character of the input is ECMA-262 white space or a line terminator |
| Text.IsBlank | src/components/ui/BuyScreen/PropertySearchSection.tsx:18-21 | `!s.trim()` holds if and only if every character of s is ECMA-262 white space or a line terminator, including for the empty string |
| Text.LowerChar | src/components/ui/BuyScreen/PropertySearchSection.tsx:35-36 | the result is never an ASCII capital; a character is unchanged exactly when it is not an ASCII capital; a capital maps to the small letter at the same position in the alphabet |
| Text.ToLower | src/components/ui/BuyScreen/PropertySearchSection.tsx:35-36 | the lower-cased string has the same length, contains no ASCII capital, keeps every character that is not an ASCII capital in place, and turns each ASCII capital into the small letter at the same position in the alphabet |
| Text.ToLowerIdempotent | src/components/ui/BuyScreen/PropertySearchSection.tsx:35-36 | lower-casing an already lower-cased string changes nothing |
| Text.Includes | src/components/ui/BuyScreen/PropertySearchSection.tsx:35-36 | `hay.includes(needle)` holds only if the needle is no longer than the haystack |
| Text.IncludesIffOccurs | src/components/ui/BuyScreen/PropertySearchSection.tsx:35-36 | `hay.includes(needle)` holds if and only if needle occurs in hay at some start index |
| Text.IncludesSurvivesLowerCase | src/components/ui/BuyScreen/PropertySearchSection.tsx:35-36 | under the ASCII lower-casing modelled here, if the needle occurs with its exact case, it also occurs when both strings are lower-cased |
| BuyScreen.Matches | src/components/ui/BuyScreen/PropertySearchSection.tsx:34-36 | the callback, with the query used untrimmed. Under the ASCII lower-casing modelled here, a record whose name or location contains the query in exactly its case always matches, and a query longer than both the name and the location never matches |
| BuyScreen.SearchResults | src/components/ui/BuyScreen/PropertySearchSection.tsx:33-37 | a record is in the result if and only if it was fetched and its lower-case name or location contains the lower-case query; each match keeps its multiplicity; the result is an order-preserving subsequence of the fetched data |
| BuyScreen.NoResultsIff | src/components/ui/BuyScreen/PropertySearchSection.tsx:40-42 | the result is empty if and only if no fetched record matches |
| BuyScreen.SearchIgnoresCase | src/components/ui/BuyScreen/PropertySearchSection.tsx:35-36 | two queries with the same lower-case form give the same results |
| BuyScreen.SearchLowerCaseQuery | src/components/ui/BuyScreen/PropertySearchSection.tsx:35-36 | searching for a query's lower-case form finds the same records as the query itself |
| BuyScreen.AustinExample | src/components/ui/BuyScreen/PropertySearchSection.tsx:33-37 | with "Sunset Villa"/"Austin" and "Oak House"/"Dallas", the query "austin" finds exactly the first record |
| BuyScreen.UntrimmedQueryExample | src/components/ui/BuyScreen/PropertySearchSection.tsx:18-37 | "austin " passes the blank guard but is matched untrimmed, so it does not find a record located in "Austin" |
| BuyScreen.PropertySearchSection.constructor | src/components/ui/BuyScreen/PropertySearchSection.tsx:14-15 | the component starts with an empty query and an empty result list |
| BuyScreen.PropertySearchSection.SetSearchQuery | src/components/ui/BuyScreen/PropertySearchSection.tsx:71 | the input's change handler sets the query and leaves the results alone |
| BuyScreen.PropertySearchSection.HandleSearch | src/components/ui/BuyScreen/PropertySearchSection.tsx:17-47 | a blank query makes no request, keeps the list and shows the empty-query error. After a successful read the list becomes exactly the search results, not merged with the old list, with an info toast when they are empty. A non-OK response or an exception keeps the list and shows the search error |
| BuyScreen.SearchTwice | src/components/ui/BuyScreen/PropertySearchSection.tsx:33-39 | two searches with the same query and the same data display the same list, which is the search result (or, for a blank query, the list shown before) |
| ManageRentals.StrictlyEqual | src/components/ManageRentals/PropertyWin.tsx:32 | `userId === currentUserId`: a `null` userId never equals; with no signed-in user only a missing userId equals; with a signed-in user only that same id string equals |
| ManageRentals.OwnedBy | src/components/ManageRentals/PropertyWin.tsx:31-33 | a record is kept if and only if it was fetched and its userId strictly equals the current user id; a `null` userId is never kept; multiplicities and order are preserved |
| ManageRentals.OwnedByAbsentUser | src/components/ManageRentals/PropertyWin.tsx:18-33 | with no signed-in user, only records without a userId member are kept, and nothing is kept if every record carries one |
| ManageRentals.OwnerExample | src/components/ManageRentals/PropertyWin.tsx:31-33 | with records owned by "u1" and "u2", user "u1" sees exactly the first |
| ManageRentals.RemoveById | src/components/ManageRentals/PropertyWin.tsx:65 | a record remains if and only if its `_id` differs from id; every such record keeps its multiplicity; order is preserved |
| ManageRentals.RemoveAbsentId | src/components/ManageRentals/PropertyWin.tsx:65 | removing an id that no record carries leaves the list unchanged |
| ManageRentals.RemoveTwice | src/components/ManageRentals/PropertyWin.tsx:65 | removing the same id twice gives the same list as removing it once |
| ManageRentals.RemoveExactlyOne | src/components/ManageRentals/PropertyWin.tsx:65 | with unique ids, removing the id of the record at index k gives the list without exactly that record, one shorter |
| ManageRentals.PropertyWin.constructor | src/components/ManageRentals/PropertyWin.tsx:14-15 | the dashboard starts with no properties and loading set |
| ManageRentals.PropertyWin.FetchData | src/components/ManageRentals/PropertyWin.tsx:21-41 | loading is cleared on both paths. A successful read sets the list to the current user's records. A non-OK response or an exception leaves the list as it was |
| ManageRentals.PropertyWin.HandleDelete | src/components/ManageRentals/PropertyWin.tsx:50-74 | without confirmation, no request is made and nothing changes. A successful delete removes every record with the id and shows the success toast. A non-OK response or an exception leaves the list unchanged and shows its own error toast |
| ManageRentals.Mount | src/components/ManageRentals/PropertyWin.tsx:14-44 | after mounting and the first load, loading is false and the list is the user's records, or empty if the read failed |

## Left out

- Network I/O: `fetch`, the two endpoints and `response.json()`. Their outcome is a `FetchOutcome`/`DeleteOutcome` parameter; a failed JSON decode is the `Threw` outcome.
- `console.error` logging is left out, and toasts are returned as values rather than displayed. `window.confirm` is the `confirmed` parameter.
- React state hooks, `useEffect` scheduling and its dependency on the user id, and all rendering (including the "Loading..." placeholder). `FetchData` can be called again to model a re-run.
- Clerk's `useUser`: a foreign identity provider. The user id is an `Option<string>` parameter.
- Overlapping asynchronous calls and stale responses: each handler runs to completion before the next one starts. `HandleDelete` applies the removal to the list as it is when the call runs, which is what the functional state update does in a sequential run.
- Records whose `name` or `location` is missing or `null`: the record type declares both as strings. In the source, the `||` in the search callback short-circuits. A record with no `location` whose lower-case `name` contains the query is kept without error. A missing `name`, or a missing `location` when the name does not match, throws inside the filter, and the search takes its error path. The owner filter and the removal never read these fields.
- Text.LowerChar: lower-cases ASCII capitals only, not the full Unicode case mapping of `toLowerCase`. That mapping can change string length ("İ" becomes two code units) and depends on context (the final sigma). `Text.IncludesSurvivesLowerCase` and both ensures of `BuyScreen.Matches` rest on this restriction; under full Unicode lower-casing, an exact-case occurrence can be lost ("ΟΔΟΣ" contains "Σ", but "οδος" does not contain "σ"), and a query longer than both fields can match.
- Text.Includes: works on Unicode scalar values, not on UTF-16 code units. The two agree for the characters this model lower-cases and for every string without astral characters.
- Text.IsWhitespace: lists the ECMA-262 WhiteSpace and LineTerminator code points for the current Unicode space separators (category Zs). It is not derived from a Unicode table.
- `price` is a `real`; it is displayed but never computed with, so floating-point behaviour does not matter here.
- src/components/ui/About/OurTeam.tsx is not part of this model: it renders a fixed list of images and has no logic.
