# Group report checker — the check-in store

This project models `AppState`, the in-memory store behind a group
check-in checklist. The store keeps:

- a naming scheme (numbers or letters);
- a group count;
- one record per group id 1..groupCount, holding a checked flag, the order in which the group was checked, and a note;
- the counter `checkOrder` of currently checked groups.

Its operations are the following:

- initialise the records;
- name a group (`3班`, or `C班` under the letter scheme);
- toggle a group's check;
- clear every check;
- edit a note;
- change the settings, which grows or shrinks the record map and, after a shrink, renumbers the surviving checked groups.

The store's central promise is one invariant, `Checks.OrdersValid`:

- a record has an order exactly when it is checked;
- no two records share an order;
- the orders in use are exactly 1..checkOrder.

`App.AppState.Valid` adds that the ids are exactly 1..groupCount. Every
mutator keeps `Valid`. From the invariant, `Checks.CheckedCount` proves
that `checkOrder` is the number of checked groups.

The project has five modules:

- `Naming` (naming.dfy): group names.
  - Decimal text.
  - Bijective base-26 letter names, the spreadsheet-column scheme, with their read-back functions.
  - The round trips, and the fact that distinct ids get distinct names.
- `Checks` (checks.dfy): the record type and the invariant.
  - Each operation's effect on the record map, as a function: `AfterCheck`, `AfterUncheck`, `Cleared`, `WithNote`, `Grown`, `Truncated`.
  - The lemmas that each of these keeps the invariant.
  - The characterisation `Renumbered` of the renumbering after a shrink, and a proof that it determines the result uniquely.
- `Ranking` (ranking.dfy): the pieces of the renumbering.
  - The list of checked groups with their orders.
  - Its sort by order, proved sorted and a permutation.
  - The proof that handing out positions 1..k in sorted order renumbers the groups.
- `App` (app_state.dfy): the class `AppState`.
  - It has the source's four fields.
  - Each operation is a method that updates them in place, with the source's loops and loop invariants.
  - Each method is proved against the functions of `Checks`.
- `Scenarios` (scenarios.dfy): two concrete sessions, each proved to end in the state its contract gives.

## Model

| member | source | states |
|---|---|---|
| App.AppState.Valid | app.js:6-13 | The store's invariant: the record ids are exactly 1..groupCount, and `Checks.OrdersValid` holds with the counter |
| Checks.OrdersValid | app.js:84-103 | The ordering invariant: a record has an order exactly when it is checked, every order is at least 1, no two records share an order, and the orders in use are exactly 1..k |
| App.AppState.constructor | app.js:7-13 | A new store has numbered groups, twelve of them, every record default (unchecked, no order, empty note), the counter at 0, and satisfies the invariant |
| App.AppState.InitializeChecks | app.js:50-60 | The records become exactly ids 1..groupCount, each default; the counter becomes 0; the settings are kept; the invariant holds |
| App.AppState.GetGroupName | app.js:63-79 | The loop's result is the group name: decimal id plus 班 under the number scheme, otherwise the bijective base-26 letters of the id plus 班 (only 班 for ids below 1) |
| Naming.GroupName | app.js:63-79 | A group name always ends with 班. Under the number scheme something precedes it; under the letter scheme something precedes it exactly when the id is at least 1 |
| Naming.Decimal | app.js:65 | The decimal text of an id is non-empty, starts with `-` exactly for negative ids, is otherwise made of digits, and has no leading zero (a lone 0 only for zero) |
| Naming.AlphaName | app.js:67-75 | The letter name is non-empty exactly for ids of at least 1, and consists only of A–Z |
| Naming.Letter | app.js:68-73 | Digit d (0..25) becomes a capital letter whose distance from A is d |
| Naming.LetterIsAlphabetAt | app.js:68-73 | The letter for digit d is the character at position d of the alphabet string |
| Naming.AlphaNameStep | app.js:72-74 | One more bijective base-26 digit d on top of a appends the letter for d to the name of a |
| Naming.AlphaRoundTrip | app.js:68-75 | Reading the letter name of any id of at least 1 back as bijective base-26 gives the id |
| Naming.AlphaNameOfValue | app.js:68-75 | Every non-empty string of capitals is the letter name of the number it spells, so names and ids of at least 1 are in one-to-one correspondence |
| Naming.DigitsRoundTrip | app.js:65 | The decimal digits of a natural number read back to that number |
| Naming.DecimalRoundTrip | app.js:65 | The decimal text of any integer, sign included, reads back to it |
| Naming.GroupNameInjective | app.js:63-78 | Under either scheme, two ids of at least 1 with the same group name are equal |
| Naming.AlphaNameExamples | app.js:67-75 | 1, 26, 27, 28, 52 and 53 are named A, Z, AA, AB, AZ and BA |
| Checks.Defaults | app.js:52-58 | The default records for lo..hi have exactly those ids, each unchecked with no order and an empty note |
| Checks.CheckedCount | app.js:97-103 | Under the invariant, the counter equals the number of checked groups |
| Checks.FirstCheckedMarker | app.js:98-103 | Under the invariant, when some group is checked, exactly one group holds order 1 |
| App.AppState.ToggleCheck | app.js:82-106 | Unchecking a checked group clears it, moves every order above its own down by one and decrements the counter. Checking an unchecked group gives it order counter+1 and increments the counter. Nothing else changes, and the invariant holds after either branch |
| App.AppState.CloseOrderGap | app.js:91-95 | The loop over all records moves each order above the removed one down by one and leaves every other record as it was |
| Checks.UncheckIsClearThenShift | app.js:86-95 | Clearing the record and then closing the gap over all records is the unchecking transition, since the cleared record is skipped by the gap loop |
| Checks.AfterCheck | app.js:98-103 | Checking group id when k groups are checked keeps the ids, marks the group checked with order k+1 and keeps its note, and leaves every other record unchanged |
| Checks.AfterUncheck | app.js:84-97 | Unchecking group id keeps the ids, clears its flag and order and keeps its note. Every other record keeps its flag and note; an order above the removed one drops by exactly one, and every other record is unchanged |
| Checks.CheckKeepsInvariant | app.js:98-103 | Checking an unchecked group keeps the invariant with one more checked group, and the new order is strictly greater than every other checked group's |
| Checks.UncheckKeepsInvariant | app.js:84-97 | Unchecking a checked group keeps the invariant with one fewer checked group (the counter was at least 1) |
| Checks.UncheckKeepsRelativeOrder | app.js:90-95 | After an uncheck, any two groups still checked keep their relative order, in both directions |
| App.AppState.ClearAll | app.js:109-116 | Every record becomes unchecked with no order, notes and ids are kept, the counter becomes 0, and the invariant holds |
| Checks.Cleared | app.js:110-114 | A map of cleared records satisfies the invariant with counter 0 |
| App.AppState.UpdateNote | app.js:119-124 | The note of an existing group is replaced and nothing else changes; an unknown id changes nothing |
| Checks.WithNote | app.js:119-124 | Replacing a note keeps the ids. An existing group gets the new note with flag and order kept; every other record is unchanged, and an unknown id changes nothing |
| Checks.NoteKeepsInvariant | app.js:119-124 | Replacing a note, or ignoring an unknown id, keeps the invariant with the same counter |
| App.AppState.UpdateSettings | app.js:127-152 | Scheme and count are always replaced. Growing keeps records 1..old and adds default records old+1..n with the counter unchanged. Equal counts change no record. Shrinking drops ids above n and renumbers the survivors. In every case the ids are 1..n and the invariant holds |
| Checks.Grown | app.js:133-141 | Growing adds ids old+1..n with default records and keeps every other record |
| Checks.GrowKeepsInvariant | app.js:133-141 | Growing gives ids 1..n, keeps records 1..old unchanged, makes old+1..n default, and keeps the invariant with the same counter |
| App.AppState.AddGroups | app.js:135-141 | The loop adds a default record for each id old+1..n |
| Checks.Truncated | app.js:142-146 | Shrinking removes exactly the ids n+1..old and keeps every other record unchanged |
| App.AppState.RemoveGroups | app.js:144-146 | The loop deletes the records of ids n+1..old |
| App.AppState.RecalculateOrder | app.js:155-172 | Same ids, flags and notes. The checked groups get the orders 1..k, each once, in their previous relative order, and the counter becomes k |
| Checks.Renumbered | app.js:155-172 | What renumbering means: same ids, flags and notes; the invariant holds with the new counter k; and a group with a smaller order than another before keeps a smaller one after |
| Checks.RenumberedUnique | app.js:155-172 | When the previous orders are distinct, there is exactly one such renumbering, and its k is the number of checked groups |
| App.AppState.CollectChecked | app.js:156-161 | The collected list holds exactly the checked groups, each once, with their current orders |
| Ranking.Insert | app.js:164 | Inserting into a list sorted by order gives a sorted list with the same elements plus the new one |
| Ranking.SortByOrder | app.js:164 | The sort by ascending order returns a sorted permutation of its input and keeps the ids distinct |
| Ranking.InsertKeepsIdsDistinct | app.js:164 | Inserting a group not yet listed into a list without repeated groups repeats none |
| Ranking.CollectedReordered | app.js:156-164 | Sorting the collected list still lists exactly the checked groups with their orders |
| App.AppState.AssignRanks | app.js:167-169 | The group at position j of the sorted list gets order j+1. Every other record, and all flags and notes, stay as they were |
| Ranking.RanksValid | app.js:167-171 | After the reassignment, flags and notes are kept and the invariant holds with counter equal to the list length |
| Ranking.RanksRenumber | app.js:164-171 | Handing out positions in sorted order renumbers the groups: orders 1..k, and the previous relative order kept |
| Scenarios.ClearThenCheckThreeAndOne | app.js:82-116 | With groups 5 and 2 checked, clearing and then checking group 3 and then group 1 gives group 3 order 1 and group 1 order 2, with two groups checked |
| Scenarios.CheckThreeThenOne | app.js:98-103 | On a store with nothing checked, checking 3 and then 1 numbers them 1 and 2 |
| Scenarios.ShrinkKeepsSurvivorFirst | app.js:142-172 | Ten groups with 2, 4, 7 and 9 checked in that order, shrunk to three, give ids 1..3, group 2 checked with order 1, groups 1 and 3 unchecked, and counter 1 |

## Left out

- `load()` and `save()` (app.js:16-47) are left out. They use browser local storage, JSON and the console.
  - The constructor follows the path that runs when nothing was stored, which calls `initializeChecks`.
  - The `save()` at the end of each mutator changes nothing in the store, so the model drops it.
- A stored snapshot may be corrupt, for example a checked record without an order, or ids outside 1..groupCount. The model does not cover this. Every mutator instead requires the invariant `Valid()`, which every operation keeps.
- App.AppState.ToggleCheck requires that the id is a group. The source reads a field of the missing record and throws, and the store's callers only pass existing ids.
- App.AppState.UpdateSettings requires a count in 1..30. This is the range the settings screen clamps to before calling. The store itself does not check the range.
- Object keys are strings in JavaScript, and `Object.keys` visits them in a fixed order. The model keys records by natural numbers, and its loops pick the remaining keys in any order. This covers every visiting order; no result depends on it.
- App.AppState.GetGroupName models ids as exact integers. In the source an id is a JavaScript number:
  - from 10^21 upward, the template literal at app.js:65 prints exponent notation (`1e+21`), where `Naming.Decimal` prints every digit;
  - above 2^53, `index - 1` (app.js:70) and `Math.floor(num / 26)` (app.js:74) round, so the letter name can differ from `Naming.AlphaName`;
  - fractional or non-numeric ids are not modelled.
  The store only names ids 1..30, where none of these limits applies.
- The library sort with comparator `a.order - b.order` is modelled by an insertion sort, proved sorted and a permutation. Stability is not modelled. Under the invariant the orders are distinct, so no result depends on it.
- The source tests truthiness in `order && order > oldOrder` and in `checked && order`. The model tests for a present order, and for a non-zero one in the collection loop. These tests differ only on an order of 0, which the invariant excludes.
- The presentation layer (`AppUI`, app.js:176-355), the page bootstrap (app.js:358-361) and the service worker (sw.js) are not part of this model. They are DOM, event and cache plumbing with no store logic.
- Unchecking runs the gap-closing loop over every record (app.js:91-95), not only the checked ones. Unchecked records have no order and are skipped, which `Checks.UncheckIsClearThenShift` states.
- A cleared order is `null` (app.js:88, app.js:112), modelled as `None`.
