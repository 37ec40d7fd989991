# CheckMyMemberShip, modelled in Dafny

A model of the "My Membership" web part of the React group samples. It has a
toggle that runs the membership query for the signed-in user. The groups that
come back are shown in a table. The user can sort the table by clicking a
column header and filter it by group name.

The model keeps the component's own state in a class,
`Component.CheckMyMemberShip`. It has these fields:

- `fullItems`: the component field `groupItems`, the last fetched list.
- `shown`: the state's `groupItems`, the rows on display.
- `columns`: the column descriptors.
- `memberStatus`: the status message.
- `loading`: whether the spinner is shown.

Each event handler is a method of that class. Column descriptors are objects of
class `Columns.Column`, because the click handler changes their sort flags in
place.

The pure parts are functions with lemmas about them:

- the comparator sort of `_copyAndSort` (module `Sorting`);
- the name filter of `_onFilter` (module `Filtering`);
- the group-type rule and the fetch transform (module `Groups`);
- the string operations they use: lower-casing, `indexOf` and `<` (module `Text`).

The membership query itself is not part of this model. Its outcome is passed
in as a `Groups.FetchResult`: either `Failed` (the call threw) or
`Fetched(groups)`, a sequence of raw records with `displayName`,
`description`, `groupTypes` (possibly absent) and `securityEnabled`.

The fetch is split into two methods. `GetMyGroups` is the `setState({loading:
true})` step. `OnGroupsFetched` is the callback that runs once the query
resolves.

Some of the widget's behaviour is easy to misread. The model keeps it as the code has it:

- The filter narrows the rows currently on display, not the full list. Typing a
  longer text and then a shorter one does not bring rows back; only the empty
  text does.
- A click flips the clicked column's `isSortedDescending`. It does not always
  start ascending. The very first click on Name gives a descending sort, because
  Name starts out marked ascending.
- At construction two columns, Name and Description, are marked sorted. So "at
  most one sorted column" holds only after the first click.
- The Group Type column has no `isSorted` or `isSortedDescending` at
  construction. These `undefined` values act as `false`, and are modelled as
  `false`.
- Suppose a click names a key that no column has. The handler still resets every
  column's flags. It then fails on the missing column before it updates the
  rows. The model resets the flags and leaves `shown` unchanged.

## Model

| member | source | states |
|---|---|---|
| `Component.CheckMyMemberShip.constructor` | React-Group-Samples/src/webparts/reactGroupSamples/components/CheckMyMemberShip/CheckMyMemberShip.tsx:25-72 | starts with no items, empty status, no spinner, and three fresh, distinct columns (keys, labels, field names as in the source); Name and Description are both marked sorted ascending |
| `Component.CheckMyMemberShip.OnColumnClick` | React-Group-Samples/src/webparts/reactGroupSamples/components/CheckMyMemberShip/CheckMyMemberShip.tsx:77-96 | column flags become `AfterClick` of the old flags at the first column with the clicked key; rows become the sorted copy of the old rows by that column's field and new direction; the column list, full list, status and spinner are unchanged |
| `Component.CheckMyMemberShip.OnFilter` | React-Group-Samples/src/webparts/reactGroupSamples/components/CheckMyMemberShip/CheckMyMemberShip.tsx:112-116 | non-empty text: rows become the name filter of the previous rows; empty text: rows become the last fetched list; nothing else changes |
| `Component.CheckMyMemberShip.GetMyGroups` | React-Group-Samples/src/webparts/reactGroupSamples/components/CheckMyMemberShip/CheckMyMemberShip.tsx:121-122 | starting the fetch turns the spinner on and changes nothing else |
| `Component.CheckMyMemberShip.OnGroupsFetched` | React-Group-Samples/src/webparts/reactGroupSamples/components/CheckMyMemberShip/CheckMyMemberShip.tsx:122-146 | rows and status are the fetch outcome of the query result; the full list equals the rows; the spinner is off; the columns are unchanged |
| `Component.CheckMyMemberShip.ToggleOnChanged` | React-Group-Samples/src/webparts/reactGroupSamples/components/CheckMyMemberShip/CheckMyMemberShip.tsx:152-164 | on: spinner on, rows kept; off: rows cleared and the spinner left as it was; the status, the full list and the columns are kept either way |
| `Groups.GroupTypeOf` | React-Group-Samples/src/webparts/reactGroupSamples/components/CheckMyMemberShip/CheckMyMemberShip.tsx:135 | "Office 365 Group" exactly when `groupTypes` is present and non-empty; "Security Group" exactly when it is not and the group is security-enabled; "Distribution Group" exactly in the remaining case |
| `Groups.ToGroupItem` | React-Group-Samples/src/webparts/reactGroupSamples/components/CheckMyMemberShip/CheckMyMemberShip.tsx:132-136 | the pushed record carries the group's display name and description, and its label follows the three-way rule for that group: Office 365 exactly with non-empty group types, Security exactly without them and security-enabled, Distribution otherwise |
| `Groups.BuildGroupItems` | React-Group-Samples/src/webparts/reactGroupSamples/components/CheckMyMemberShip/CheckMyMemberShip.tsx:123-139 | failure: no items and empty status; no groups: no items and the "does not belong to any group" status; otherwise one display record per group, in order, with an empty status |
| `Groups.FetchedLabels` | React-Group-Samples/src/webparts/reactGroupSamples/components/CheckMyMemberShip/CheckMyMemberShip.tsx:131-137 | after a fetch, record i carries group i's name and description and the label the three-way rule picks for group i; hence every label is one of the three |
| `Groups.FetchedStatus` | React-Group-Samples/src/webparts/reactGroupSamples/components/CheckMyMemberShip/CheckMyMemberShip.tsx:124-140 | the status is set exactly when the query returned no groups; the item list is empty exactly when the query failed or returned no groups |
| `Sorting.FieldValue` | React-Group-Samples/src/webparts/reactGroupSamples/components/CheckMyMemberShip/CheckMyMemberShip.tsx:105 | `item[key]` is defined exactly for the three field names, and each of them reads its own field of the record (name, description, group type) |
| `Sorting.JsLess` | React-Group-Samples/src/webparts/reactGroupSamples/components/CheckMyMemberShip/CheckMyMemberShip.tsx:106 | a comparison with `undefined` on either side is false; when it holds, the two values differ and are not ordered the other way |
| `Sorting.Compare` | React-Group-Samples/src/webparts/reactGroupSamples/components/CheckMyMemberShip/CheckMyMemberShip.tsx:106 | the comparator answers 1 or -1, never 0 |
| `Sorting.CompareTies` | React-Group-Samples/src/webparts/reactGroupSamples/components/CheckMyMemberShip/CheckMyMemberShip.tsx:106 | two items with equal keys each compare as "comes first" (-1) against the other |
| `Sorting.CompareAsymmetric` | React-Group-Samples/src/webparts/reactGroupSamples/components/CheckMyMemberShip/CheckMyMemberShip.tsx:106 | if `a` goes after `b`, then `b` does not go after `a` |
| `Sorting.CompareTransitive` | React-Group-Samples/src/webparts/reactGroupSamples/components/CheckMyMemberShip/CheckMyMemberShip.tsx:106 | "does not go after" is transitive, for any key and direction |
| `Sorting.Insert` | React-Group-Samples/src/webparts/reactGroupSamples/components/CheckMyMemberShip/CheckMyMemberShip.tsx:106 | inserting into an ordered list adds exactly that item and keeps the list ordered under the comparator |
| `Sorting.CopyAndSort` | React-Group-Samples/src/webparts/reactGroupSamples/components/CheckMyMemberShip/CheckMyMemberShip.tsx:104-107 | the result is a permutation of the input (same multiset); no pair in it is out of order under the comparator |
| `Sorting.SortAscending` | React-Group-Samples/src/webparts/reactGroupSamples/components/CheckMyMemberShip/CheckMyMemberShip.tsx:106 | ascending: same length, and the key values never decrease along the result |
| `Sorting.SortDescending` | React-Group-Samples/src/webparts/reactGroupSamples/components/CheckMyMemberShip/CheckMyMemberShip.tsx:106 | descending: same length, and the key values never increase along the result |
| `Filtering.Matches` | React-Group-Samples/src/webparts/reactGroupSamples/components/CheckMyMemberShip/CheckMyMemberShip.tsx:114 | an item matches exactly when its lower-cased name contains the lower-cased text |
| `Filtering.FilterByName` | React-Group-Samples/src/webparts/reactGroupSamples/components/CheckMyMemberShip/CheckMyMemberShip.tsx:114 | an item is kept exactly when it is in the input and matches, and every copy of a matching item is kept (equal multiplicities); the result is no longer than the input |
| `Filtering.FilterIsSubsequence` | React-Group-Samples/src/webparts/reactGroupSamples/components/CheckMyMemberShip/CheckMyMemberShip.tsx:114 | the filtered list is an order-preserving subsequence of the input |
| `Filtering.FilterIdempotent` | React-Group-Samples/src/webparts/reactGroupSamples/components/CheckMyMemberShip/CheckMyMemberShip.tsx:114 | filtering twice with the same text equals filtering once |
| `Filtering.NarrowingKeepsFiltered` | React-Group-Samples/src/webparts/reactGroupSamples/components/CheckMyMemberShip/CheckMyMemberShip.tsx:114 | after filtering by one text, filtering by a text contained in it removes nothing more |
| `Filtering.ProgressiveFilter` | React-Group-Samples/src/webparts/reactGroupSamples/components/CheckMyMemberShip/CheckMyMemberShip.tsx:114 | after two filter texts an item is shown exactly when it was in the list and matches both, so widening the text brings nothing back |
| `Text.IndexOf` | React-Group-Samples/src/webparts/reactGroupSamples/components/CheckMyMemberShip/CheckMyMemberShip.tsx:114 | `indexOf` is -1 exactly when the text does not occur; otherwise it is the first position where it occurs |
| `Text.IndexFrom` | React-Group-Samples/src/webparts/reactGroupSamples/components/CheckMyMemberShip/CheckMyMemberShip.tsx:114 | the search from a position finds the first occurrence at or after it, or -1 when there is none |
| `Text.ToLower` | React-Group-Samples/src/webparts/reactGroupSamples/components/CheckMyMemberShip/CheckMyMemberShip.tsx:114 | lower-casing keeps the length, turns each capital A-Z into the lower-case letter at the same place in the alphabet, leaves no capital A-Z, and keeps every other character as it is |
| `Text.ToLowerIdempotent` | React-Group-Samples/src/webparts/reactGroupSamples/components/CheckMyMemberShip/CheckMyMemberShip.tsx:114 | lower-casing an already lower-cased string changes nothing |
| `Text.OccursTransitive` | React-Group-Samples/src/webparts/reactGroupSamples/components/CheckMyMemberShip/CheckMyMemberShip.tsx:114 | a substring of a substring is a substring |
| `Text.Less` | React-Group-Samples/src/webparts/reactGroupSamples/components/CheckMyMemberShip/CheckMyMemberShip.tsx:106 | string `<`: a proper prefix is smaller, and a string is never smaller than one of its own prefixes (itself included) |
| `Text.LessFirstDifference` | React-Group-Samples/src/webparts/reactGroupSamples/components/CheckMyMemberShip/CheckMyMemberShip.tsx:106 | where two strings first differ, the characters at that position decide `<` |
| `Text.LessIrreflexive` | React-Group-Samples/src/webparts/reactGroupSamples/components/CheckMyMemberShip/CheckMyMemberShip.tsx:106 | no string is less than itself under `<` |
| `Text.LessAsymmetric` | React-Group-Samples/src/webparts/reactGroupSamples/components/CheckMyMemberShip/CheckMyMemberShip.tsx:106 | string `<` is asymmetric |
| `Text.LessTransitive` | React-Group-Samples/src/webparts/reactGroupSamples/components/CheckMyMemberShip/CheckMyMemberShip.tsx:106 | string `<` is transitive |
| `Text.LessTotal` | React-Group-Samples/src/webparts/reactGroupSamples/components/CheckMyMemberShip/CheckMyMemberShip.tsx:106 | any two different strings are ordered by `<` one way or the other |
| `Text.NotLessTransitive` | React-Group-Samples/src/webparts/reactGroupSamples/components/CheckMyMemberShip/CheckMyMemberShip.tsx:106 | "not greater than" on strings is transitive |
| `Columns.FirstIndexOfKey` | React-Group-Samples/src/webparts/reactGroupSamples/components/CheckMyMemberShip/CheckMyMemberShip.tsx:80 | the position of the first column with the clicked key, or -1 exactly when no column has it |
| `Columns.AfterClick` | React-Group-Samples/src/webparts/reactGroupSamples/components/CheckMyMemberShip/CheckMyMemberShip.tsx:82-90 | the forEach over the columns keeps the number of columns; what it does to each column is stated by `ClickFlags` (a matched click) and `UnmatchedClickSortsNone` (no match) |
| `Columns.ClickSortsOnlyClicked` | React-Group-Samples/src/webparts/reactGroupSamples/components/CheckMyMemberShip/CheckMyMemberShip.tsx:82-90 | after a click on a column, it is the one and only column marked sorted |
| `Columns.ClickFlags` | React-Group-Samples/src/webparts/reactGroupSamples/components/CheckMyMemberShip/CheckMyMemberShip.tsx:83-89 | the clicked column is sorted with its direction flipped; every other column is unsorted and descending |
| `Columns.UnmatchedClickSortsNone` | React-Group-Samples/src/webparts/reactGroupSamples/components/CheckMyMemberShip/CheckMyMemberShip.tsx:80-90 | a click that matches no column leaves every column unsorted and descending, so none is marked sorted |
| `Columns.ClickTwice` | React-Group-Samples/src/webparts/reactGroupSamples/components/CheckMyMemberShip/CheckMyMemberShip.tsx:83-88 | two clicks on the same header restore its direction and leave it the only sorted column |
| `Columns.ClickOtherSortsAscending` | React-Group-Samples/src/webparts/reactGroupSamples/components/CheckMyMemberShip/CheckMyMemberShip.tsx:84-88 | after a click, a click on another column sorts that column ascending |
| `Columns.InitialFlagsTwoSorted` | React-Group-Samples/src/webparts/reactGroupSamples/components/CheckMyMemberShip/CheckMyMemberShip.tsx:28-63 | at construction Name and Description are both marked sorted, and Group Type is not |
| `Columns.FirstClickOnNameDescending` | React-Group-Samples/src/webparts/reactGroupSamples/components/CheckMyMemberShip/CheckMyMemberShip.tsx:33-34 | the first click on Name sorts it descending and makes it the only sorted column |

## Left out

- `render()` and the widgets it uses (toggle, spinner, text field, details list), plus the styles. They are presentation only.
- `MsGraphService.GetMyUserGroups` is not part of this model. Its outcome is a parameter of `OnGroupsFetched`: a failure, or a sequence of raw group records.
- The asynchronous `setState` scheduling is not modelled. Neither is the race where a query resolves after the toggle was switched off as a concurrent event; a caller may still call `OnGroupsFetched` after `ToggleOnChanged(false)`, which reproduces its effect.
- `console.log` calls, the unused `headers` field, and the unused imports are left out.
- Column properties that only affect layout or accessibility are left out: widths, resizability, the row-header mark, aria labels and the click callback.
- `Text.ToLower`: lower-cases only the ASCII letters A-Z. JavaScript's `toLowerCase` follows full Unicode case mapping.
- `Text.Less`: compares characters by code point. JavaScript compares strings by UTF-16 code units, which differs only outside the Basic Multilingual Plane.
- `Sorting.CopyAndSort`: the order of `Array.prototype.sort` with a comparator that never returns 0 depends on the engine. The model promises only a permutation ordered by the comparator. Ties may come out in any order, and for a key that is not a field, any order at all. It computes that result with an insertion sort.
- Null or undefined `description` and `displayName` values are not modelled; they are plain strings here.
- An undefined filter text is not modelled; the text is always a string, and only the empty string counts as "no filter".
- Leaving the input of `_copyAndSort` unchanged holds by construction here: sequences are values, so the `slice(0)` copy needs no model of its own.
